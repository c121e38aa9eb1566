# MoToBuddy, verified

MoToBuddy is a decision diagram engine in C: the BDD kernel of BuDDy with
terminals of any type, and a package of edge-valued diagrams whose values are
products along paths. Almost everything in it is an array that is changed in
place under strong invariants: hash chains and a free list threaded through one
node table, memo caches with a generation counter, saturating reference counts,
nodes rewritten where they are.

This project states and proves what that machinery is for. The table, a
reordering session, the value table and the edge-valued table are classes with
the fields of the source; each method is proved against a mathematical meaning:
a function from assignments to values, given as a finite decision tree. A node
*is* its tree (`dd[n]`), two nodes of a table are the same exactly when their
trees are, and reduced trees are the same exactly when their functions are
(`Dd.Canonical`). So "the result is the node of the tree `Apply(op, f, g)`",
together with a lemma about `Apply`, says everything there is to say about a
result.

## The parts

- **Trees and operators**: `Dd`, `DdOps`, `DdSubst`, `DdCofactor`, `DdCount`,
  `DdRename`, `DdCube` define what each operator computes and prove what it means.
- **The kernel**: `Threads` (the lists threaded through the node table),
  `TableState`, `Collect`, `OpCaches` argue on values; `KernelTable` is the
  class. `OperatorBase`, `ApplyOps`, `QuantOps`, `CofactorOps`, `SubstOps`,
  `Pairs`, `CountOps` are the memoised recursions over it. A collection or a
  growth may run inside every `MakeNode`.
- **Reordering**: `SwapTheory` is the exchange of two variables as a relation
  between graphs; `SessionState`, `Counting`, `RefCounts`, `ReorderSteps`,
  `LocalGbc`, `Rehash`, `SessionStart`, `Interaction` (the interaction matrix)
  and `PairTable` (the renaming pairs) the steps on values; `Reorder` the
  session; `SessionTable` the way from a kernel table into a session and back;
  `Reordering` whole calls on the kernel, from `reorder_init` to the collection
  at the end of `reorder_done`; `Moves` what runs of exchanges do to an order;
  `OrderSize`, `Saturation` and `Sifting` the search for a good one.
- **Edge-valued diagrams**: `Field`, `WeightNorm`, `Wdd`, `WddOps` on trees;
  `Probing` and `ValueTable` the interning of values; `EvddState`,
  `EvddCollect`, `EvddArith`, `EvddTable`, `EvddOps`, `EvddNormalize` the table.
- **On top**: `Bvec`, `BvecShift`, `BvecDiv` (bit vectors), `Mtbdd`,
  `CacheKey`, `MtbddCache`, `MtbddGates` (controlled operations), `LoadTable`,
  `Loader` (files), `Number`, `Prime` (table sizes).

## What the proofs found

Where the code and the expectation one may have of it disagree, the code is
followed, and a lemma gives the input and the exact condition.

- `blockdown`'s second loop never runs: after the first one the right block is
  already in place.
- `bdd_prime_gte(2)` is 3: the search only looks at odd numbers.
- The cache of `mtbdd_operation` holds only a 32-bit key of the controls, and the
  key wraps around: after a phase under controls 5, 6, 24 with target 31, the
  same phase on the same operand under controls 13, 28, 29 with target 30 returns
  the answer of the first (`Confused`). The second of two calls is wrong exactly
  when the keys are equal and the answers are not (`Twice`); keys that do not
  wrap around are never equal (`KeyInjective`).
- `mark_roots` takes over the row of a node that has a reference already. Of an
  external root that has not been followed yet that row is still empty, so a root
  below one with a smaller number can leave pairs unmarked, and an exchange of
  such a pair leaves the table out of order (`LaterRootMissed`, `SkipExact`).
  With the roots in order it marks all pairs (`InOrderCovers`).
- `reorder_done` resets the counters of all nodes but the external roots; those
  keep their parents counted in. So a root never loses a reference, but its count,
  unless it is saturated, is what it was exactly when no node points to it
  (`CountsAfter`).
- Reference counts saturate at `MAXREF` and then keep a node for the rest of the
  session. Sifting is proved to end at the best position as long as no further
  counter saturates. Before the call that can be told from the room there is
  below `MAXREF` (`Roomy`, `RoomyByRoots`).
- A `bdd_replace` that fails with `BDD_REPLACE` leaves its wrong result in the
  cache: asked again, the same call reports no error (`ReplaceTwice`). It fails,
  for a pair new to the cache, exactly when two levels clash (`ReplaceOf`), for
  instance two variables sent to a third (`ReplaceCollision`).
- `bdd_setvarnum` reports 0 for a number out of range.
- `bdd_constrain` by false breaks the laws of the cofactor (`ConstrainByFalse`).
- Normalization by the low edge is not canonical exactly where a low weight is
  zero and the high one is not (`LowUnique`); L2 never is (`L2NotCanonical`).
- `evdd_normalize_node` takes two entries off the reference stack, and the
  second may be the one that protected a memoised child. The result contains that
  child unless both folded weights are zero (`ExposedExact`); there the memo entry
  is no longer alive, and a collection takes its node (`SlotLost`).
- `bvec_divfixed` is exact on n bits exactly for constants up to 2^(n-1): its
  remainder register is one bit short.
- `bvec_shl` and `bvec_shr` are exact exactly when `l.bitnum < 2^r.bitnum`:
  beyond that the constants they compare with wrap.
- Of two vectors without bits `bvec_gth` says that the first is larger.
- `bvec_div` by zero gives all ones and the dividend.

## Model

| member | source | states |
|---|---|---|
| SwapTheory.SwapEval | src/reorder.c:1168-1225 | Exchanging two adjacent variables changes the function of no node that is there before and after, nodes rewritten in place included. |
| SwapTheory.SwapWf | src/reorder.c:1168-1225 | After the exchange the table is closed and reduced, and ordered by the new order. |
| SwapTheory.SwapUnique | src/reorder.c:1017-1107 | Rewritten nodes are linked without a lookup and still collide neither with each other nor with any other node. |
| SwapTheory.SwapSupport | src/reorder.c:1168-1225 | No node depends on a variable after the exchange that it did not depend on before: the interaction matrix stays good. |
| SwapTheory.DependsMarked | src/reorder.c:1460-1477 | Where an exchange would have anything to rewrite, the matrix marks the pair: skipping unmarked pairs is safe. |
| SwapTheory.CoverFromRoots | src/reorder.c:808-862 | A matrix that marks any two variables of one external root covers every node the roots need. |
| SwapTheory.GraphCanonical | src/reorder.c:1410-1446 | In a session, nodes that are equal as functions of the variables are the same node. |
| RefCounts.NoOrphan | src/reorder.c:1232-1270 | After an exchange every node that is not of the lower variable, not held from outside and not saturated has a parent: one pass over the lower variable is enough. |
| RefCounts.Redirect | src/reorder.c:1196-1216 | Moving the references from the old children of a rewritten node to its new ones keeps every unsaturated count equal to external references plus parents. |
| RefCounts.Drop | src/reorder.c:1255-1265 | Giving up a dead node and its two edges keeps every count exact, and nothing points to it. |
| LocalGbc.DeadChildren | src/reorder.c:1232-1270 | The children of a node that dies test neither variable, so the pass never has to look at them again. |
| LocalGbc.GbcSticky | src/reorder.c:1232-1270 | A saturated node survives the pass, still saturated. |
| Reorder.Session.constructor | src/reorder.c:1641-1667 | reorder_init on a kernel table: the session invariant holds, the external references are the same, every kept node has the children it had and every external node its function; the interaction matrix is the one mark_roots computes, and it has to mark any two variables of one root. |
| Reorder.Session.ToVariables | src/reorder.c:867-878 | Every record goes from its level to its variable, and exactly the referenced ones are marked. |
| Reorder.Session.AddRefRec | src/reorder.c:808-837 | The node gets one more reference, every edge out of a node met for the first time is counted at its end, and each such node is counted in the row of its variable; no external root is entered. `dep` collects the variables of what is entered and the rows of what is not. |
| Reorder.Session.MarkRoots | src/reorder.c:862-914 | Every node an external root needs has been entered and has the exact count of its external references and parents; all roots are listed, all marks and chain heads cleared; and the matrix is the one that following the roots in the order of their numbers gives. |
| Interaction.InOrderCovers | src/reorder.c:808-914 | When no root lies below one with a smaller number, the matrix so computed marks any two variables of every root. |
| Interaction.LaterRootMissed | src/reorder.c:808-914 | Otherwise it can miss a pair: of two roots, the later one below the earlier one, the pair of variables that the earlier one tests is not marked, and exchanging the two without touching the nodes leaves the table out of order. |
| Interaction.SkipExact | src/reorder.c:1460-1477 | Exchanging two variables without touching any node keeps the table ordered exactly when no node tests the upper one over the lower one. |
| Interaction.UnmarkedBreaks | src/reorder.c:1460-1477 | So the matrix has to mark any two variables of a root: in an order with one of them on top of the root and the other one next, leaving out their exchange breaks the table. |
| SessionState.NodeHash | src/reorder.c:113 | The hash of the session stays inside the sub-table of its variable, whatever the mixing function is, and does not look at the node count. |
| Reorder.Session.ReorderGbc | src/reorder.c:921-951 | Exactly the referenced nodes are chained, each in the bucket of its key; exactly the other slots are free, and freenum is their number. |
| SessionTable.Start | src/reorder.c:1641-1667 | From any sound kernel table to a valid session with the same external references and the same pairs, in which every external node has its function and every node stands for the function of its tree in the kernel. |
| SessionTable.TableBefore | src/kernel.c:1382-1477 | What the kernel keeps of its table is what reorder_init relies on. |
| SessionTable.TableTrees | src/reorder.c:867-878 | The graph by variable that a session works on unfolds to the trees of the kernel table, id by id. |
| SessionTable.AscendingMarks | src/reorder.c:808-914 | In terms of the kernel: the matrix marks any two variables of one root when no externally held node is part of one with a smaller number. |
| Reorder.Session.Done | src/reorder.c:1670-1686 | The loops of reorder_done: every record goes back to its level, marks are gone, and only nodes with external references keep a count. |
| SessionTable.SessionBack | src/reorder.c:1670-1703 | What a session hands back are records that fit canonical trees over the new order, with references to exactly the externally held nodes. |
| SessionTable.FunctionsKept | src/reorder.c:1670-1703 | From kernel table to kernel table, whatever exchanges lie between: an externally held node has, over the new order, a tree with the values of its old one under any two assignments that agree variable by variable. |
| SessionTable.CountsAfter | src/reorder.c:1670-1703 | What reorder_done leaves in an unsaturated counter is external references plus parents; it is the count there was before exactly when no node points there. |
| Reordering.Finish | src/reorder.c:1670-1703 | reorder_done with the collection at its end: the kernel has a sound table again, with its literals and its pairs; every externally held node has its function, every pair entry is at its variable, and each count that is not saturated is the old one plus the parents the node had in the session. |
| Reordering.SetVarOrder | src/reorder.c:2273-2295 | The whole of bdd_setvarorder on a kernel table: refused when there are blocks; otherwise the order is exactly the one requested, the table is sound, every externally held node denotes the function of the variables it denoted, pairs follow their variables, and no count is lower than it was. |
| Reordering.SwapVar | src/reorder.c:1520-1562 | The whole of bdd_swapvar: BDD_VARBLK with blocks, BDD_VAR for an unknown variable, and then nothing changes; otherwise the two variables have exchanged their levels, all others keep theirs, and the same holds as for bdd_setvarorder. |
| Reordering.AscendingCovers | src/reorder.c:808-914 | What both ask of the matrix holds when no externally held node is part of one with a smaller number. |
| Reordering.FreshOrder | src/kernel.c:351-450 | What they ask of the order holds for the one bdd_setvarnum leaves. |
| KernelTable.Kernel.Collect | src/kernel.c:1114-1201 | A collection from the records alone, whatever the chains and caches are: a sound table of exactly the live nodes with their trees and counts, and no valid cache entry. |
| Reorder.Session.MakeNode | src/reorder.c:1017-1107 | The one node (v, low, high), found or built, or the common child; one reference to it counted; counts, chains and row sizes stay exact even when the table grows. |
| Reorder.Session.Lookup | src/reorder.c:1037-1056 | Comparing only the children in a chain finds the node exactly when there is one, since chains hold one variable. |
| Reorder.Session.NodeResize | src/reorder.c:1063-1084 | The table grows without rehashing; every chain is as it was and the new slots are free. |
| Reorder.Session.DownSimple | src/reorder.c:1115-1160 | Exactly the nodes of the upper variable with a child of the lower one wait on the list; all others are back in their chains. |
| Reorder.Session.Swap | src/reorder.c:1168-1225 | All waiting nodes are rewritten in place over the new order; what holds of the exchange and of all counts holds at the end. |
| Reorder.Session.SweepRow | src/reorder.c:1232-1270 | After one pass over the lower variable nothing allocated is dead, and chains, counts and row sizes are exact. |
| Reorder.Session.SetLevelLookup | src/reorder.c:954-978 | Every variable gets buckets of its own inside the table. |
| Reorder.Session.RehashAll | src/reorder.c:981-1009 | After a growth all chains and the free list are built again for the new sub-tables, and the session invariant holds. |
| Reorder.Session.VarDown | src/reorder.c:1449-1496 | From a valid session to a valid session, v and the variable below it exchanged in both order tables and in every pair; externally held and saturated nodes keep their functions; BDD_VAR and nothing else for an unknown variable. |
| Reorder.Session.VarUp | src/reorder.c:1399-1406 | The same with the variable above. |
| Reorder.Session.SetVarOrder | src/reorder.c:2273-2295 | The moves of bdd_setvarorder: the order ends exactly as requested, in a valid session that keeps every externally held function. |
| Reorder.Session.ExchangeLevels | src/reorder.c:1548-1556 | The moves of bdd_swapvar: the two variables exchange their levels and all others keep theirs. |
| Reorder.Session.BlockDown | src/reorder.c:739-797 | Two adjacent blocks of variables change places, each in its own order inside, all other levels untouched; and the first loop alone gets there, so the second one never runs. |
| Moves.MovedTwice | src/reorder.c:1520-1562 | Moving one variable down and the other one up exchanges them and restores everything between. |
| Moves.BlocksCrossed | src/reorder.c:749-766 | When the top of the left block has passed the bottom of the right one, the blocks have changed places exactly. |
| Moves.SomeCanMove | src/reorder.c:749-766 | Until then some variable of the left block can move: the loop terminates. |
| Rehash.LaterTrans | src/reorder.c:1449-1496 | What one exchange keeps adds up over any run of exchanges. |
| OrderSize.SizeOfOrder | src/reorder.c:478-545 | Two moments of a run with the same order and the same saturated nodes count the same number of nodes. |
| OrderSize.SizeIs | src/reorder.c:478-545 | What reorder_nodenum returns is a function of the order. |
| OrderSize.FullBound | src/reorder.c:808-837 | No more counters can saturate than there are reduced trees over the variables. |
| OrderSize.NodesByRoots | src/reorder.c:808-837 | Whatever the order, there are no more nodes than 2 to the number of variables for each external or saturated node. |
| Saturation.NothingSaturates | src/reorder.c:1168-1225 | In a run that began with enough room, and in which no counter has saturated so far, one exchange saturates none: no counter rises by more than two for each node. |
| Saturation.RoomyLater | src/reorder.c:466-565 | Enough room at the start of a run is enough room at every later moment of it. |
| Saturation.RoomyByRoots | src/reorder.c:466-565 | A check before the call that needs no search: 4 times the number of roots times 2 to the number of variables is below MAXREF, and no external count that has not reached MAXREF is that close to it. |
| Sifting.Blocks.BlockDown | src/reorder.c:739-797 | The block list follows the levels of the session. |
| Sifting.Blocks.SiftBestPos | src/reorder.c:466-565 | Unless a counter saturates on the way, and with enough room none does, the block ends where the node count is the least of all positions it was taken to, its old one included; and it was taken to all positions unless one of these has more than six fifths of the final count or overfills the table. At least one step is tried. The session stays valid and keeps its functions in any case. |
| Sifting.Blocks.SwapWin3 | src/reorder.c:258-389 | Unless a counter saturates on the way, and with enough room none does, the three blocks end in a best one of their six orders; `next` is the same position only after a strict improvement. |
| Sifting.Blocks.SwapLastTwo | src/reorder.c:258-279 | Of the two orders of the last two blocks the better one is kept. |
| Sifting.Blocks.Win3 | src/reorder.c:392-419 | The window goes from the first blocks to the last two and terminates even when counters saturate. Unless one did, and with enough room none does, every window was left in a best one of its orders and stayed where it was only after an improvement; so the count at the end is at most that of any order of the first three blocks, and exchanging the last two would not lower it. |
| Sifting.AllSix | src/reorder.c:284-335 | The six orders tried are all orders of three blocks. |
| Prime.IsWitness | src/prime.c:158-178 | True exactly when w proves that src is composite, by a square root of one other than one and minus one, or by Fermat. |
| Prime.WitnessSpelled | src/prime.c:158-178 | In powers: the power to src - 1 is not one, or for some e the power to (src - 1) / 2^e is neither one nor minus one and its square is one. |
| Prime.PrimeHasNoWitness | src/prime.c:158-178 | No number proves a prime composite. |
| Prime.IsMillerRabinPrime | src/prime.c:181-194 | For any random numbers: true exactly when none of the CHECKTIMES draws is a witness, and it stops at the first one that is; so a prime passes. |
| Prime.IsProbablePrime | src/prime.c:201-217 | True exactly when there is no easy factor and the draws find no witness; so a prime passes. |
| Prime.EasySpelled | src/prime.c:201-208 | Easy factors are the primes from 3 to 13, of any other number. |
| Prime.PrimeGte | src/prime.c:224-233 | The search ends, never steps over an odd prime, and its result passed its own draws; every odd number stepped over has an easy factor or a witness among the draws. |
| Prime.PrimeLte | src/prime.c:236-245 | The same downwards; it ends at three at the latest. |
| Number.Fermat | src/prime.c:158-178 | The theorem behind the last test. |
| Number.SquareRootOfOne | src/prime.c:166-171 | Modulo a prime only one and minus one square to one. |
| KernelTable.Kernel.constructor | src/kernel.c:178-255 | The table starts with the two constants, everything else free, and no valid cache entry. |
| KernelTable.Kernel.SetVarNum | src/kernel.c:351-450 | The number of variables grows to what was asked, each new one gets its two literals with references, and no referenced node loses its tree; fewer than before is BDD_DECVNUM, and out of range changes nothing and reports 0. |
| KernelTable.Kernel.Lookup | src/kernel.c:1402-1419 | The chain walk finds the node of a triple exactly when the table has one. |
| KernelTable.Kernel.MakeNode | src/kernel.c:1382-1477 | The one node of (level, low, high), found or built, or the common child, even when a collection and a resize run in between; at most one node is new, every live node keeps its tree and every count of references is what it was. |
| KernelTable.Kernel.NodeResize | src/kernel.c:1480-1530 | A larger table with every node where it was, and a free slot. |
| KernelTable.Kernel.GbcRehash | src/kernel.c:1081-1111 | Exactly the allocated nodes are chained, each in the bucket of its key; the rest is free. |
| KernelTable.Kernel.Mark | src/kernel.c:1277-1298 | Marks exactly parts of the node, and with each newly marked node all its children. |
| KernelTable.Kernel.Gbc | src/kernel.c:1114-1201 | Exactly the nodes reachable from references and the reference stack stay, with their trees and their counts, and every operator cache is reset. |
| KernelTable.Kernel.AddRef | src/kernel.c:1216-1235 | The count is one more, unless it is MAXREF already; a free or unknown node is an error and changes nothing. |
| KernelTable.Kernel.DelRef | src/kernel.c:1250-1272 | The count is one less, unless it is zero or MAXREF; a count of zero is reported as BDD_BREAK, a free or unknown node is an error; only at a count of one does the node lose its protection. |
| KernelTable.References | src/kernel.c:1216-1272 | Over any run of the two on one node, below saturation: the count is the old one plus the references added minus those taken back, and the node has a reference exactly as long as that is not zero. |
| KernelTable.Kernel.Push | src/kernel.h:249-253 | What is on the reference stack is alive, and nothing loses its life by a push. |
| Collect.MarkedIsLive | src/kernel.c:1131-1143 | When all roots are marked, exactly the live nodes are. |
| Collect.CollectKeeps | src/kernel.c:1114-1201 | A collection changes no live tree. |
| TableState.OneNodePerFunction | src/kernel.c:1382-1420 | Two nodes of the table stand for the same function exactly when they are one node. |
| OpCaches.ResetAllOk | src/cache.h:74-84 | After a new generation no old entry can be returned, whatever becomes of the table. |
| OpCaches.FreshPair | src/pairs.c:74-88 | A fresh pair id is named by no entry, so the shared cache stays right when the id gets a meaning. |
| ApplyOps.NotOf | src/bddop.c:501-565 | The node of the negation, whatever is collected or answered from the cache on the way. |
| ApplyOps.ApplyOf | src/bddop.c:606-746 | The canonical node of the pointwise operation for all ten operators; an unknown operator gives false and changes nothing. |
| ApplyOps.IteOf | src/bddop.c:839-978 | The canonical node of if-then-else. |
| DdOps.ApplyMeans | src/bddop.c:646-746 | The result is reduced and has the value of the operator under every assignment. |
| DdOps.OprResMeans | src/bddop.c:89-103 | The result table says what the operator names say. |
| QuantOps.VarSetTable | src/bddop.c:2889-2911 | For a product of variables exactly the levels it tests are marked with the new stamp, and none of them is below `quantlast`. |
| QuantOps.FixSetTable | src/bddop.c:2914-2945 | For a product of literals exactly the levels it tests are marked, each with the stamp in the sign the product gives it. |
| QuantOps.RestrictOf | src/bddop.c:1009-1090 | Restriction by a product of literals: the result has everywhere the value that the operand has where the product holds and nothing else is changed. |
| DdSubst.RestrictMeans | src/bddop.c:1049-1090 | Restriction is evaluation with the fixed levels overridden, and the result tests none of them. |
| QuantOps.QuantOf | src/bddop.c:1658-1747 | Over a product of variables: bdd_exist holds exactly where some choice for its variables makes the operand hold, bdd_forall where every choice does. |
| DdSubst.ExistMeans | src/bddop.c:1804-1840 | Existential quantification holds exactly when some choice for the quantified variables makes the operand hold. |
| DdSubst.ForallMeans | src/bddop.c:1804-1840 | Universal quantification holds exactly when every choice does. |
| QuantOps.AppQuantOf | src/bddop.c:1863-1976 | Over a product of variables: bdd_appex and bdd_appall hold exactly where, for some or for every choice for its variables, the operator holds of the two operands; an unknown operator gives false. |
| DdCube.ProductVars | src/bddop.c:2889-2911 | The chain of high branches of a product has all its variables: what varset2vartable walks is the support. |
| DdCube.CubeSigns | src/bddop.c:2914-2945 | The chain that varset2svartable walks has all variables of a product of literals, each with its sign. |
| DdCube.VariableIsProduct | src/bddop.c:2889-2911 | A variable is a product ... |
| DdCube.AndIsProduct | src/bddop.c:2889-2911 | ... and the conjunction of two products is the product of all their variables; so there is one for every set of variables. |
| DdSubst.FusedStep | src/bddop.c:2045-2151 | One level of the fused recursion does what quantifying the applied tree does. |
| Collect.LiveLeast | src/kernel.c:1277-1298 | The live nodes of the kernel are in every set that has the constants and the roots and with each node its two children ... |
| Collect.LiveClosed | src/kernel.c:1277-1298 | ... and they are such a set. |
| CofactorOps.ConstrainOf | src/bddop.c:1105-1208 | The node of the generalized cofactor. |
| DdCofactor.ConstrainMeans | src/bddop.c:1139-1208 | For a c that is not false, the cofactor is f composed with the projection onto c. |
| DdCofactor.ProjectNearest | src/bddop.c:1139-1208 | The projection reaches the nearest assignment of c: any other one leaves the given assignment at an earlier level. |
| DdCofactor.ConstrainAgrees | src/bddop.c:1139-1208 | The cofactor agrees with f wherever c holds. |
| DdCofactor.ConstrainCommutes | src/bddop.c:1139-1208 | The cofactor commutes with every Boolean operator. |
| DdCofactor.ConstrainByFalse | src/bddop.c:1139-1208 | For c false that law fails: a constant f comes back as it is. |
| CofactorOps.SimplifyOf | src/bddop.c:1548-1643 | The simplified function agrees with f wherever d holds, tests no variable f does not test, and is a constant when f has only that value where d holds. |
| DdCofactor.SimplifyAgrees | src/bddop.c:1582-1643 | The simplified function agrees with f wherever d holds. |
| DdCofactor.SimplifyGood | src/bddop.c:1582-1643 | It never tests a variable f does not test. |
| DdCofactor.SimplifyImplied | src/bddop.c:1582-1643 | If f has one value wherever d holds, and d is not false, nothing is left but that value. |
| Pairs.ComposeOf | src/bddop.c:1346-1442 | The node of the composition at a level; a level out of range gives false. |
| DdSubst.ComposeMeans | src/bddop.c:1386-1442 | Composition is substitution of g for one variable. |
| Pairs.VecComposeOf | src/bddop.c:1465-1531 | The node of the simultaneous substitution. |
| DdSubst.VecComposeMeans | src/bddop.c:1500-1531 | All variables are replaced at once. |
| Pairs.ReplaceOf | src/bddop.c:1226-1293 | With a pair that no cache entry names, BDD_REPLACE is reported exactly when two levels clash on a path; a renaming that does not clash, an injective one for instance, gives the renamed function even when it permutes the order; an answer from the cache comes without an error whatever it is. |
| Pairs.ReplaceTwice | src/bddop.c:1226-1293 | The same call twice, the pair being new to the cache: the first one reports an error exactly when levels clash, and the second one never does but returns the same result. |
| Pairs.ReplaceCollision | src/bddop.c:1226-1293 | Such an input: a new pair that sends two variables to a third, on the conjunction of the two; an error the first time, none the second time. |
| SubstOps.ReplaceRec | src/bddop.c:1261-1293 | The recursion behind it: when the cache answers only for trees that do not clash, an error comes back exactly for those that do. |
| DdRename.RenameMeans | src/bddop.c:1261-1293 | The renamed function takes each variable from its new level. |
| DdRename.InjectiveRenamable | src/bddop.c:1261-1331 | Injectivity on the support is enough for the renaming never to fail. |
| DdRename.CollisionNotRenamable | src/bddop.c:1296-1310 | Two levels renamed to one clash on a diagram that tests both. |
| SubstOps.Correctify | src/bddop.c:1296-1331 | A test is inserted wherever in the order it belongs; it fails exactly when the level is tested in an operand. |
| Pairs.UpdatePairsId | src/pairs.c:74-88 | The id is one that no entry of the caches and no pair has had. |
| Pairs.NewPair | src/pairs.c:146-172 | A new pair replaces every variable by itself. |
| Pairs.SetPair | src/pairs.c:196-214 | One entry becomes a variable, under a fresh id; a variable out of range is an error and changes nothing. |
| Pairs.SetEntry | src/pairs.c:217-237 | One entry becomes a node, under a fresh id. |
| PairTable.PairsVarDown | src/pairs.c:98-113 | When two variables exchange levels in a reordering, their entries in every pair do too. |
| PairTable.EntryFollows | src/pairs.c:98-113 | By variable nothing changes: each entry follows its variable. |
| PairTable.LastFollows | src/pairs.c:98-113 | Above the highest changed level of a pair there are still only the literals of the variables that are there now. |
| CountOps.SatCountOf | src/bddop.c:2577-2637 | The number of satisfying assignments of all variables, as the size of that set. |
| DdCount.ModelsSpelled | src/bddop.c:2577-2637 | The set that is counted has exactly the rows of one value per level under which the function holds. |
| DdCount.SatCountMeans | src/bddop.c:2577-2637 | The weighted recursion counts the set. |
| CountOps.AllSatRec | src/bddop.c:2518-2556 | Through one shared array the handler sees exactly the cubes of the tree, in order, and the array is as it was afterwards. |
| CountOps.AllSatOf | src/bddop.c:2494-2515 | The handler is called once for each cube of the function, in their order, with the value of every level at the position of its variable. |
| DdCount.AllSatExact | src/bddop.c:2494-2556 | The cubes are pairwise disjoint, and an assignment is in one of them exactly when it satisfies the function. |
| DdCount.CubesAscend | src/bddop.c:2518-2556 | The handler gets the cubes in ascending order: where two of them first differ, the earlier one has 0 and the later one 1. |
| CountOps.FullSatOneOf | src/bddop.c:2402-2457 | False stays false; otherwise the result has exactly one model over all variables, and it satisfies the operand. |
| ValueTable.Values.constructor | src/evdd_value.c:130-161 | An empty table. |
| ValueTable.Values.IdxPut | src/evdd_value.c:544-590 | The id is added to the index, which is doubled when it would be more than half full, and every id is still found from its home slot. |
| ValueTable.Values.IdxLookup | src/evdd_value.c:602-625 | A matching row is found exactly when there is one; probing ends since an empty slot is always left. |
| ValueTable.Values.CellLookup | src/evdd_value.c:638-672 | Before it gives up, every one of the 3^n neighbouring cells has been probed exactly once. |
| ValueTable.Values.CellFound | src/evdd_value.c:638-672 | An equal row within one cell on every axis is hit by the probe of its cell. |
| Probing.BumpedReading | src/evdd_value.c:661-669 | The odometer counts: each turn is the next reading, and running out on every axis is the last one. |
| Probing.ReadingInjective | src/evdd_value.c:646-669 | Different offsets have different readings, so none is visited twice. |
| ValueTable.Values.Intern | src/evdd_value.c:680-771 | A payload gets the id of an equal live one, or a fresh row, a freed one first; no live row changes, and two live ids of one type never compare equal. |
| ValueTable.Values.AddRef | src/evdd_value.c:833-843 | One more reference on a live id; any other id but 0 is an error and changes nothing. |
| ValueTable.Values.DelRef | src/evdd_value.c:845-856 | One reference less on a live id that has one; anything else changes nothing. |
| ValueTable.Values.Sweep | src/evdd_value.c:896-936 | Exactly the rows with neither a mark nor a reference lose their payload, and the table is valid again. |
| ValueTable.Values.Rebuild | src/evdd_value.c:867-894 | The index holds exactly the live rows of indexed types, each found from its home. |
| EvddArith.MulIds | src/evdd_value.c:1006-1019 | The id of the exact product; no known id loses its weight. |
| EvddArith.DivIds | src/evdd_value.c:1021-1037 | The id of the exact quotient; a zero divisor gives zero. |
| EvddArith.AddIds | src/evdd_value.c:1039-1050 | The id of the exact sum. |
| EvddArith.SubIds | src/evdd_value.c:1052-1063 | The id of the exact difference. |
| EvddArith.UnitId | src/evdd_value.c:990-995 | The id of one, or of zero for zero. |
| EvddArith.UnitFromPairId | src/evdd_value.c:997-1004 | The id of one unless both weights are zero. |
| EvddArith.NormFirstNonzero | src/evdd_value.c:1078-1094 | On ids what the strategy does on weights. |
| EvddArith.NormLow | src/evdd_value.c:1097-1112 | On ids what the strategy does on weights. |
| EvddArith.NormMaxMagnitude | src/evdd_value.c:1114-1140 | On ids what the strategy does on weights; a tie goes to the low one. |
| EvddArith.NormL2 | src/evdd_value.c:1142-1170 | On ids what the strategy does on weights. |
| EvddArith.NormalizeIds | src/evdd_value.c:1172-1195 | The registered strategy is the one applied. |
| WeightNorm.NormalizeKeeps | src/evdd_value.c:1172-1195 | Pulling out the factor changes no product, and loses no zero. |
| WeightNorm.NormalShape | src/evdd_value.c:1078-1170 | First-nonzero leaves one as the first nonzero weight, low-edge one as the low weight unless it is zero, max-magnitude no weight larger than one and one as the larger, the low one in a tie, and L2 a sum of squares of one with a positive factor. |
| WeightNorm.ScaleInvariant | src/evdd_value.c:1078-1140 | First-nonzero and max-magnitude, and low-edge where the low weight is not zero, move a common factor to the incoming edge. |
| WeightNorm.Idempotent | src/evdd_value.c:1172-1195 | A normalized pair is left alone, by every strategy. |
| WeightNorm.LowScaling | src/evdd_value.c:1097-1112 | Low-edge keeps a common factor in the pair exactly when the low weight is zero and the high one is not. |
| WeightNorm.L2Scaling | src/evdd_value.c:1142-1170 | L2 removes a common factor exactly when it is positive. |
| EvddTable.Evdd.constructor | src/evdd_kernel.c:83-137 | Only the terminal, everything else free, no valid cache entry. |
| EvddTable.Evdd.MakeNodeRaw | src/evdd_kernel.c:259-325 | The one edge for the reduced pair, found or built, whatever is collected on the way. |
| EvddTable.Evdd.MakeNode | src/evdd_kernel.c:229-257 | The same with the weights normalized first; both children are protected meanwhile. |
| EvddTable.Evdd.NodeResize | src/evdd_kernel.c:179-227 | A larger table with every node where it was. |
| EvddTable.Evdd.Mark | src/evdd_kernel.c:466-480 | Marks exactly parts of the node, with all children of what is new. |
| EvddTable.Evdd.Gbc | src/evdd_kernel.c:498-548 | Exactly the live nodes stay, with their trees and their counts, and no cache entry survives. |
| EvddTable.Evdd.ValueGbc | src/evdd_kernel.c:550-571 | Refused with BDD_OP while an operation holds nodes; otherwise exactly the live nodes stay, and exactly the weights that neither a node nor a reference holds are freed, and their number is returned: no node or reference is left with a freed weight. |
| EvddCollect.HeldSpelled | src/evdd_kernel.c:550-571 | A node holds a weight by having it on one of its two edges. |
| EvddTable.Evdd.AddRef | src/evdd_kernel.c:422-442 | The count of the node is one more, unless it is EVDD_MAXREF already; the weight has one reference more; a free or unknown node is an error and changes nothing. |
| EvddTable.Evdd.DelRef | src/evdd_kernel.c:444-464 | The count of the node is one less, unless it is zero or EVDD_MAXREF; at one the node loses its protection; the weight has one reference less. |
| EvddTable.References | src/evdd_kernel.c:422-464 | Over any run of the two on one edge, below saturation: the count is the old one plus the references added minus those taken back, and the node has a reference exactly as long as that is not zero. |
| EvddTable.EdgeSurvives | src/evdd_kernel.c:550-571 | A referenced edge means the same after both collections. |
| EvddCollect.MarkedIsLive | src/evdd_kernel.c:466-548 | When all roots are marked, exactly the live nodes are. |
| EvddCollect.LiveLeast | src/evdd_kernel.c:466-480 | The live nodes are in every set that has the terminal and the roots and with each node its two children ... |
| EvddCollect.LiveClosed | src/evdd_kernel.c:466-480 | ... and they are such a set. |
| EvddOps.Half | src/evdd_op.c:150-164 | The cofactor edge, its weight multiplied with the incoming one. |
| EvddOps.ApplyOf | src/evdd_op.c:234-269 | Under every assignment the value of the result is the product, sum, difference or quotient of the two path products, or what the callback makes of them, whatever is answered from the cache, collected or grown on the way; a node that is not in the table is an error and gives the false edge. |
| EvddOps.ApplyRec | src/evdd_op.c:172-232 | The same for live operands in the middle of an operation; the reference stack is as it was. |
| WddOps.ApplyMeans | src/evdd_op.c:172-232 | The value under every assignment is the operation on the two path products. |
| WddOps.ApplyCanonical | src/evdd_op.c:172-232 | The result is canonical, whatever the shape of the operands. |
| WddOps.ApplyUnique | src/evdd_op.c:172-232 | Two results with the same function are the same edge. |
| EvddOps.OneEdgePerFunction | src/evdd_kernel.c:259-325 | Two canonical edges of the table denote the same function exactly when node and weight id are the same. |
| Wdd.Canonicity | src/evdd_kernel.c:229-257 | Two canonical edges, one of them without a low-edge exception, are the same exactly when they denote the same function. |
| Wdd.LowUnique | src/evdd_value.c:1097-1112 | Under low-edge a canonical edge is the only one of its function exactly when no pair in it has a zero low and a nonzero high weight. |
| Wdd.LowElsewhere | src/evdd_value.c:1097-1112 | Otherwise there is one on a node outside any finite set. |
| Wdd.L2NotCanonical | src/evdd_value.c:1142-1170 | Under L2 every non-constant edge has another canonical form: the negated one. |
| EvddNormalize.NormalizeOf | src/evdd_kernel.c:382-420 | When at no node below the root both folded weights are zero over a high child that is a node, the result is the normal form of the diagram, although nodes are collected while the pass runs. |
| EvddNormalize.NormalizeNode | src/evdd_kernel.c:332-380 | The memoised recursion gives the normal form of the node; every memoised edge stays protected. |
| EvddNormalize.Rerooted | src/evdd_kernel.c:357-379 | Replacing two stack entries by a result that contains them lets nothing die. |
| EvddNormalize.ExposedExact | src/evdd_kernel.c:357-379 | At a node the entry that protects the memoised high child is taken off and nothing put on that contains it exactly when both folded weights are zero and the normal form of the high child is a node. |
| EvddNormalize.SlotLost | src/evdd_kernel.c:357-379 | There the protection fails: a table, a reference stack and a memo before the two pops, all entries of which are alive, and after them one that is not and that a collection takes. |
| EvddNormalize.TidyShielded | src/evdd_kernel.c:332-380 | It never fails where zero-weight edges point at the terminal. |
| WddOps.NormMeans | src/evdd_kernel.c:332-420 | The pass changes no function, whatever the raw diagram. |
| WddOps.NormReaches | src/evdd_kernel.c:332-420 | From a diagram whose zero edges, root included, point at the terminal it reaches the one canonical edge of the function. |
| WddOps.NormUntidyRoot | src/evdd_kernel.c:382-420 | With a zero weight on the root edge it finds the false edge exactly when the node below is constant. |
| Bvec.Add | src/bvec.c:518-567 | The sum modulo two to the width under every assignment; different widths give no vector. |
| Bvec.Sub | src/bvec.c:588-639 | The difference modulo two to the width. |
| Bvec.Lth | src/bvec.c:1179-1210 | True exactly where left is smaller; false without bits or for different widths. |
| Bvec.Lte | src/bvec.c:1223-1254 | True exactly where left is not larger; false without bits, true for different widths. |
| Bvec.Gth | src/bvec.c:1267-1273 | True exactly where left is larger; true without bits, false for different widths. |
| Bvec.Gte | src/bvec.c:1286-1292 | True exactly where left is not smaller; true without bits or for different widths. |
| Bvec.Equ | src/bvec.c:1305-1330 | True exactly where both encode one number; false without bits, true for different widths. |
| Bvec.Neq | src/bvec.c:1343-1349 | The opposite. |
| Bvec.IteVec | src/bvec.c:921-941 | The number of one vector or the other, by the condition. |
| Bvec.Con | src/bvec.c:157-173 | The low bits of the number. |
| Bvec.Coerce | src/bvec.c:271-281 | The number modulo two to the new width. |
| Bvec.ValBit | src/bvec.c:157-173 | What a vector encodes: bit i of the number is its element i. |
| BvecDiv.MulFixed | src/bvec.c:652-684 | The product with a nonnegative constant modulo two to the width. |
| BvecDiv.Mul | src/bvec.c:697-745 | The full product, as wide as both factors together. |
| BvecDiv.Div | src/bvec.c:843-904 | Quotient and remainder wherever the divisor is not zero; elsewhere all ones and the dividend. |
| BvecDiv.DivRec | src/bvec.c:747-773 | Every step is a step of long division in two registers that share their bits. |
| BvecDiv.DivFixed | src/bvec.c:790-814 | The exact result for every constant, with the constant cut to the width and the remainder to one bit less. |
| BvecDiv.DivFixedExact | src/bvec.c:790-814 | On every vector of n bits that is quotient and remainder exactly when the constant is at most 2^(n-1). |
| BvecShift.ShlFixed | src/bvec.c:955-982 | Multiplied by a power of two, filled with c, modulo the width; a negative distance is an error. |
| BvecShift.ShrFixed | src/bvec.c:1067-1094 | Divided by a power of two, filled with c. |
| BvecShift.Shift | src/bvec.c:997-1054 | Bit by bit what the loops of bvec_shl and bvec_shr compute, for any widths. |
| BvecShift.ShiftRight | src/bvec.c:1109-1166 | When the width of l can be written in r, both symbolic shifts move by exactly the distance r encodes, however large. |
| BvecShift.ShiftExact | src/bvec.c:997-1166 | For given widths each symbolic shift is right on every operand exactly when l.bitnum < 2^r.bitnum. |
| Mtbdd.OperationMeans | src/mtbdd.c:1091-1152 | Under ascending controls the operation is the gate on the target where all controls are set, and on reduced input the result is reduced. |
| Mtbdd.ControlledSpelled | src/mtbdd.c:1091-1152 | All controls but the last entry, the target, have to be set. |
| MtbddCache.Operations.Run | src/mtbdd.c:1091-1152 | With only control vectors in play that the key tells apart, the operation with its cache returns what it returns without, whatever the cache holds and whatever is collected on the way; in any case a hit is believed, and the next call finds what this one returned. |
| MtbddCache.Operations.Controlled | src/mtbdd.c:1085-1152 | Then it is the controlled gate from any state of the cache. |
| MtbddCache.Operations.Twice | src/mtbdd.c:1091-1152 | The same operand under two control vectors, one after the other: the second answer is right exactly when the keys differ or the two answers are the same anyway. |
| MtbddCache.Confused | src/mtbdd.c:1091-1152 | An input where it is wrong: on a fresh cache a phase under controls 5, 6, 24 with target 31, and then under controls 13, 28, 29 with target 30. |
| CacheKey.KeyInjective | src/mtbdd.c:20-28 | As long as nothing wraps around, two control vectors, of any lengths, have the same key only if they are the same. |
| CacheKey.KeyCollision | src/mtbdd.c:20-28 | With the wrap-around two ascending vectors of four levels below 32 have the same key. |
| MtbddCache.PlainApart | src/mtbdd.c:20-28 | So the cache is right for every set of control vectors whose keys do not wrap around. |
| Mtbdd.Canonical | src/mtbdd.c:108-187 | Reduced diagrams with values at the leaves are equal exactly when their functions are. |
| Mtbdd.TraverseActs | src/mtbddop.cxx:40-142 | The traversal to a target is the action applied there, and keeps a diagram reduced. |
| Mtbdd.TraverseHighActs | src/mtbddop.cxx:40-142 | The traversal to a control with the high side only is the controlled action. |
| MtbddGates.ControlledSwapMeans | src/mtbdd.c:1091-1152 | A swap under any number of ascending controls permutes the leaves: the target is negated where all controls are set. |
| MtbddGates.CxNestedMeans | examples/quantum_gates/quantum_gates.cpp:214-221 | Nested traversals are the controlled not for a control above the target. |
| MtbddGates.CcxNestedMeans | src/mtbddop.cxx:40-142 | With one more traversal they are the doubly controlled not. |
| MtbddGates.CxSame | examples/quantum_gates/quantum_gates.cpp:205-222 | Nested traversal and operation give the same node. |
| MtbddGates.LockstepMeans | src/mtbddop.cxx:148-332 | After a lockstep to c the two functions have changed places where c is set. |
| MtbddGates.CxLockstepMeans | examples/quantum_gates/quantum_gates.cpp:205-213 | Traversal and lockstep are the controlled not for a target above the control. |
| MtbddGates.CxTwice | examples/quantum_gates/quantum_gates.cpp:205-222 | A controlled not done twice gives the diagram back. |
| LoadTable.LoadHash.Get | src/bddio.c:1037-1047 | The value of the key, or none. |
| LoadTable.LoadHash.Insert | src/bddio.c:1013-1025 | One more entry, all others kept. |
| LoadTable.LoadHash.Add | src/bddio.c:1028-1034 | The same, growing when every slot is used. |
| LoadTable.LoadHash.Realloc | src/bddio.c:1054-1082 | A growth keeps every entry. |
| Loader.ResolveNodes | src/bddio.c:924-953 | One pass resolves what it can; when it resolves nothing, everything left waits. |
| Loader.LoadData | src/bddio.c:955-1009 | It succeeds exactly when no variable is negative and no set of lines waits for itself; then every listed id has the function its line denotes, and the result is that of the line resolved last. It always terminates. |
| Loader.LineValue | src/bddio.c:924-953 | What a line means: at a true variable the value of its high reference, at a false one that of its low reference, where id 0 is false and id 1 true. |
| Loader.Save | src/bddio.c:606-653 | One line for each node of the diagram, children first. |
| Loader.SavedMeans | src/bddio.c:632-653 | The saved lines denote the functions of their nodes. |
| Loader.NeverStuck | src/bddio.c:924-1009 | Saved lines never wait for each other, in whatever order they are read. |
| Loader.LoadSaved | src/bddio.c:606-1009 | Save, then load the lines in any order under any variable order: the load succeeds and returns the saved function. |

## Left out

- Running out of room: malloc failure, `bddmaxnodesize`, `evddmaxnodesize` and
  the error returns they lead to. A resize takes any larger size (`Grows`), a
  parameter, where the source takes a prime.
- setjmp and longjmp: automatic reordering in the middle of an operator and the
  restart of the operator. Reordering is a step between operations.
- Reorder.Session.constructor: asks that the matrix of `mark_roots` marks any two
  variables of one external root, since without that the exchanges are wrong
  (`UnmarkedBreaks`).
- Reordering.SetVarOrder: asks the same of the matrix, and that the new order
  names each variable once, which the source does not check.
- Reordering.SwapVar: asks the same of the matrix.
- Integer wrap of generations, pair ids, stamps and node ids; `USERESIZE`.
- KernelTable.Kernel.MakeNode: no out-of-room error and no request for a
  reordering, see above.
- KernelTable.Kernel.NodeResize: no limit and no failure of a growth.
- EvddTable.Evdd.NodeResize: no limit and no failure of a growth.
- Reorder.Session.NodeResize: no limit and no failure of a growth.
- Reorder.Session.MakeNode: nor does it say what happens when the table may not
  grow.
- Automatic reordering as a whole: when it is started, and the block tree above
  one list of blocks; Sifting.Blocks works on one level of it.
- Terminals of other types inside the kernel table, their value arrays, index
  stacks and apply caches (`mtbdd_maketerminal`, `mtbdd_insertvalue`,
  `mtbdd_delete_terminal`), `mtbdd_ite`, and the left and right descent of the
  combinators. Controlled operations are modelled on diagrams, with their cache
  but without the table.
- MtbddCache.Operations.Run: on diagrams rather than nodes; operations whose
  addresses agree in the bits the cache keeps are taken to be the same.
- EvddOps.ApplyOf: a callback is a function of the two path values, told apart
  by its code in the cache; two whose addresses agree in the bits the cache keeps
  are taken to be the same. No error for a missing one.
- Bvec.Add: like all of the bit vectors, on diagrams rather than on nodes with
  reference counts; the counting of the bits' references is not modelled.
- Loader.LoadData: on parsed lines with distinct ids of at least two and
  variables below the number of variables; no text, no header, and the diagrams
  are values rather than nodes.
- Loader.ResolveNodes: likewise on lines and diagrams.
- Loader.Save: the lines of a diagram, without the marks and the written text.
- EvddNormalize.NormalizeOf: nothing is claimed of a diagram with an exposed node,
  see above.
- EvddNormalize.NormalizeNode: likewise.
- `bdd_unique` and `bdd_appuni`, `bdd_support`, `bdd_satone`, path and node
  counts; `bdd_setbddpair`'s and `bdd_setpair`'s own references to the entries.
- Pairs.ReplaceOf: says nothing about which diagram comes back with an error.
- Levels instead of variables in the arguments of compose and of pairs.
- A variable set that is no product: what the walk over its chain then marks is
  given as a tree (`VarSet`, `FixSet`), not as a function.
- Resizing of caches, hash functions (any function into the table's range).
- Registration and freezing of value types; payloads compared by identity; more
  than one exact value type in one diagram. Values are real numbers with equality
  for the edge-valued diagrams, and any type for the interning table.
- Chains and free list of the edge-valued table are lists per bucket rather than
  `next` fields.
- Printing, DOT, text and file parsing, hooks, statistics, `src/fdd.c`,
  the bits of `src/imatrix.c`, `src/terminal.c`, `src/tree.c`, `src/mosf_parser.h`.
