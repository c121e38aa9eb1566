/**
  Whole reorderings of the kernel's table: bdd_setvarorder and bdd_swapvar with
  the session they open and close, the collection at the end included.
*/
module Reordering {
  import Dd
  import DdSubst
  import opened Threads
  import opened TableState
  import opened OpCaches
  import opened Collect
  import opened KernelTable
  import opened PairTable
  import opened SessionTable
  import opened Pairs
  import SubstOps
  import SwapTheory
  import SessionState
  import SessionStart
  import ReorderSteps
  import RefCounts
  import Counting
  import LocalGbc
  import Rehash
  import Reorder

  const BDD_VARBLK: int := -14

  /** Between operations: the order tables belong to the table, and every variable has its literals. */
  ghost predicate Ordered(k: Kernel, var2level: SwapTheory.Order, level2var: seq<nat>)
    reads k
  {
    && k.Ok() && 0 < k.varnum && k.refstack == [] && ReorderSteps.Orders(var2level, level2var, k.varnum)
    && LiteralsAt(k.varset, k.varnum, k.dd, k.ext, var2level)
  }

  /** The two literals of every variable, tested at its level, with references. */
  ghost predicate LiteralsAt(varset: seq<nat>, n: nat, dd: Trees, ext: set<nat>, var2level: SwapTheory.Order) {
    && |varset| == 2 * n && n <= |var2level|
    && forall v {:trigger varset[2 * v]} {:trigger varset[2 * v + 1]} :: 0 <= v < n ==>
         && varset[2 * v] in ext && varset[2 * v] in dd && dd[varset[2 * v]] == Dd.Node(var2level[v], Dd.Leaf(false), Dd.Leaf(true))
         && varset[2 * v + 1] in ext && varset[2 * v + 1] in dd && dd[varset[2 * v + 1]] == Dd.Node(var2level[v], Dd.Leaf(true), Dd.Leaf(false))
  }

  /** All registered pairs: each stands for its entries, and all entries have references. */
  ghost predicate PairsOk(k: Kernel, pairs: seq<Pair>)
    reads k, pairs
  {
    && Fit(pairs, k.varnum)
    && (forall i {:trigger pairs[i]} :: 0 <= i < |pairs| ==> PairOk(k, pairs[i]) && Referred(pairs[i].result, k.ext))
    && (forall i, j {:trigger pairs[i].id, pairs[j].id} :: 0 <= i < j < |pairs| ==> pairs[i].id != pairs[j].id)
  }

  ghost predicate Referred(row: seq<nat>, ext: set<nat>) {
    forall l {:trigger row[l]} :: 0 <= l < |row| ==> row[l] < 2 || row[l] in ext
  }

  /** Every node with a reference stands for the function of the variables it stood for. */
  ghost predicate SameFunctions(t: Table, lev: SwapTheory.Order, t': Table, lev': SwapTheory.Order) {
    t'.ext == t.ext &&
    forall n, b, b' {:trigger Dd.Eval(t.dd[n], b), Dd.Eval(t'.dd[n], b')} :: n in t.ext ==>
      n in t.dd && n in t'.dd && (SameByVariable(lev, b, lev', b') ==> Dd.Eval(t'.dd[n], b') == Dd.Eval(t.dd[n], b))
  }

  /** The matrix of a session on this table marks any two variables of one root. */
  ghost predicate MatrixCovers(k: Kernel, var2level: SwapTheory.Order, level2var: seq<nat>)
    reads k
  {
    SessionStart.Marks(ByVariable(k.Now(), level2var), var2level, RefsOf(k.Now()), |k.nodes|)
  }

  /* ---- into the session ---- */

  lemma OrderedFacts(k: Kernel, var2level: SwapTheory.Order, level2var: seq<nat>)
    requires Ordered(k, var2level, level2var)
    ensures Ready(k.Now(), k.hash, var2level, level2var, k.varnum) && |level2var| == k.varnum + 1 == |var2level|
    ensures SessionState.Constants(k.nodes, k.varnum) && Grows(k.largerSize) && InRange(k.hash) && SlotInRange(k.slot) && Aged(k.caches)
    ensures Widths(k.nodes) && k.StackOk() && k.varnum < |level2var|
  {
    hide Sound, EntryOk, SwapTheory.IsOrder;
    Generations(k.caches, k.dd, k.pairs, k.nodes[0].level);
    SoundStored(k.Now(), k.hash);
  }

  /** The positive literal of a variable. */
  ghost function Literal(varset: seq<nat>): nat -> nat { (v: nat) => if 2 * v < |varset| then varset[2 * v] else 0 }

  function Below(n: nat): (s: set<nat>)
    ensures |s| == n && forall i {:trigger i in s} :: i in s <==> 0 <= i < n
  {
    if n == 0 then {} else Below(n - 1) + {n - 1}
  }

  /** Different slots: not more than there are. */
  lemma {:induction false} Pigeons(s: seq<nat>, size: nat)
    requires forall i {:trigger s[i]} :: 0 <= i < |s| ==> s[i] < size
    requires forall i, j {:trigger s[i], s[j]} :: 0 <= i < j < |s| ==> s[i] != s[j]
    ensures |s| <= size
  {
    Counting.ElementsSize(s);
    Counting.SubsetSize(Counting.Elements(s), Below(size));
  }

  lemma VarsetSize(k: Kernel, var2level: SwapTheory.Order, level2var: seq<nat>)
    requires Ordered(k, var2level, level2var)
    ensures |k.varset| == 2 * k.varnum
  {
    hide Kernel.Ok, ReorderSteps.Orders;
  }

  lemma SomeVariable(k: Kernel, var2level: SwapTheory.Order, level2var: seq<nat>)
    requires Ordered(k, var2level, level2var)
    ensures 0 < k.varnum
  {
    hide Kernel.Ok, ReorderSteps.Orders;
  }

  lemma LiteralsApart(k: Kernel, var2level: SwapTheory.Order, level2var: seq<nat>, v: nat, w: nat)
    requires Ordered(k, var2level, level2var) && v < k.varnum && w < k.varnum && v != w
    ensures |k.varset| == 2 * k.varnum && k.varset[2 * v] != k.varset[2 * w]
  {
    hide Kernel.Ok;
    assert var2level[v] != var2level[w];
  }

  /** The table has at least as many slots as there are variables: each has its literal there. */
  lemma {:induction false} EnoughSlots(k: Kernel, var2level: SwapTheory.Order, level2var: seq<nat>)
    requires Ordered(k, var2level, level2var)
    ensures k.varnum <= |k.nodes|
  {
    hide Ordered, Below;
    VarsetSize(k, var2level, level2var);
    var lits := seq(k.varnum, Literal(k.varset));
    forall v | 0 <= v < |lits| ensures lits[v] < |k.nodes| {
      LiteralIn(k, var2level, level2var, v);
    }
    forall v, w | 0 <= v < w < |lits| ensures lits[v] != lits[w] {
      LiteralsApart(k, var2level, level2var, v, w);
    }
    Pigeons(lits, |k.nodes|);
  }

  lemma LiteralIn(k: Kernel, var2level: SwapTheory.Order, level2var: seq<nat>, v: nat)
    requires Ordered(k, var2level, level2var) && v < k.varnum
    ensures 2 * v < |k.varset| && k.varset[2 * v] in k.ext && k.varset[2 * v] < |k.nodes|
  {
    OrderedFacts(k, var2level, level2var);
    assert k.varset[2 * v] in k.ext;
    hide Ready, Ordered;
    ReadySound(k.Now(), k.hash, var2level, level2var, k.varnum);
    ExtRange(k.Now(), k.hash, k.varset[2 * v]);
  }

  /** What a new pair has, a pair still has above its last changed entry. */
  lemma {:induction false} StillPlain(k: Kernel, var2level: SwapTheory.Order, level2var: seq<nat>, p: Pair)
    requires Ordered(k, var2level, level2var) && PairOk(k, p)
    ensures PlainRow(p.result, p.last, level2var, Literal(k.varset))
  {
    OrderedFacts(k, var2level, level2var);
    hide Ready;
    ReadySound(k.Now(), k.hash, var2level, level2var, k.varnum);
    hide Sound, SwapTheory.IsOrder, Kernel.Ok;
    forall l | 0 <= l < |p.result| && p.last < l ensures p.result[l] == Literal(k.varset)(level2var[l]) {
      LevelVar(var2level, level2var, k.varnum, l);
      var v := level2var[l];
      assert k.varset[2 * v] in k.dd && k.dd[k.varset[2 * v]] == DdSubst.Var(l);
      assert DdSubst.Sub(k.pairs[p.id], l) == DdSubst.Var(l);
      SubstOps.PairEntry(k.dd, k.ext, [], p.result, k.pairs[p.id], l);
      SessionTable.SameTree(k.Now(), k.hash, p.result[l], k.varset[2 * v]);
    }
  }

  /** A level of a slot is a level, be it free or not. */
  lemma {:induction false} SlotLevels(k: Kernel, var2level: SwapTheory.Order, level2var: seq<nat>, n: nat)
    requires Ordered(k, var2level, level2var) && n < |k.nodes|
    ensures k.nodes[n].level <= k.varnum && k.nodes[n].refcou <= MAXREF
  {
    OrderedFacts(k, var2level, level2var);
    hide Ordered;
    if 2 <= n {
      if n in k.dd {
        TableNode(k.Now(), k.hash, var2level, level2var, k.varnum, n);
        assert k.dd[n].level < k.varnum by { hide Sound; }
      } else {
        ReadySound(k.Now(), k.hash, var2level, level2var, k.varnum);
        SlotFree(k.Now(), k.hash, n);
      }
    }
    hide Ready;
  }

  lemma SlotFree(t: Table, hash: TableState.Hash, n: nat)
    requires Sound(t, hash) && 2 <= n < |t.nodes| && n !in t.dd
    ensures t.nodes[n].low == -1
  {
    hide Heads, Threaded, Keyed, Canon, Referenced;
  }

  /** reorder_init, on the table of the kernel. */
  method Init(k: Kernel, var2level: SwapTheory.Order, level2var: seq<nat>, pairs: seq<Pair>, pair: SessionState.Hash) returns (s: Reorder.Session)
    requires Ordered(k, var2level, level2var) && PairsOk(k, pairs) && MatrixCovers(k, var2level, level2var) && SessionState.Spreads(pair)
    ensures fresh(s) && s.Valid() && s.pairs == pairs && s.literal == Literal(k.varset) && s.ext == RefsOf(k.Now())
    ensures s.var2level == var2level && s.level2var == level2var && |s.levels| == k.varnum
    ensures Rehash.Preserved(ByVariable(k.Now(), level2var), var2level, s.g, var2level, RefsOf(k.Now()))
    ensures forall n {:trigger n in s.extroots} :: n in s.extroots <==> n in s.ext
  {
    hide Ordered, PairOk, SessionStart.Marks, SessionState.Spreads, PlainRow, LocalGbc.Rest, ReorderSteps.Orders, Rehash.Preserved, Ready, Sound;
    OrderedFacts(k, var2level, level2var);
    EnoughSlots(k, var2level, level2var);
    SomeVariable(k, var2level, level2var);
    forall n | 0 <= n < |k.nodes| ensures k.nodes[n].level < |level2var| && k.nodes[n].refcou <= MAXREF {
      SlotLevels(k, var2level, level2var, n);
    }
    forall i | 0 <= i < |pairs| ensures PlainRow(pairs[i].result, pairs[i].last, level2var, Literal(k.varset)) {
      StillPlain(k, var2level, level2var, pairs[i]);
    }
    s := Start(k.nodes, var2level, level2var, pairs, pair, k.largerSize, k.Now(), k.hash, Literal(k.varset));
  }

  /* ---- and back ---- */

  /** The assignment of old levels that gives every variable what b' gives it at its new level. */
  ghost function BackTo(level2var: seq<nat>, lev: SwapTheory.Order, b': Dd.Assign): Dd.Assign {
    (x: nat) => x < |level2var| && level2var[x] < |lev| && b'(lev[level2var[x]])
  }

  lemma BackSame(var2level: SwapTheory.Order, level2var: seq<nat>, nvars: nat, lev: SwapTheory.Order, b': Dd.Assign)
    requires ReorderSteps.Orders(var2level, level2var, nvars) && |lev| == |var2level|
    ensures SameByVariable(var2level, BackTo(level2var, lev, b'), lev, b')
  {
    forall v | 0 <= v < |lev| - 1 ensures b'(lev[v]) == BackTo(level2var, lev, b')(var2level[v]) {
      assert level2var[var2level[v]] == v;
    }
  }

  /** A literal keeps its variable and gets the variable's new level. */
  lemma {:induction false} LiteralMoved(t: Table, hash: TableState.Hash, var2level: SwapTheory.Order, level2var: seq<nat>, nvars: nat,
                                        g: SwapTheory.Graph, lev: SwapTheory.Order, n: nat, v: nat, hi: bool)
    requires Ready(t, hash, var2level, level2var, nvars) && n in t.ext && v < nvars && v < |var2level| && v < |lev| == |var2level|
    requires Rehash.Preserved(ByVariable(t, level2var), var2level, g, lev, RefsOf(t))
    requires n in t.dd && t.dd[n] == Dd.Node(var2level[v], Dd.Leaf(!hi), Dd.Leaf(hi))
    ensures SwapTheory.Wf(g, lev) && n in TreesOf(g, lev) && TreesOf(g, lev)[n] == Dd.Node(lev[v], Dd.Leaf(!hi), Dd.Leaf(hi))
  {
    ReadySound(t, hash, var2level, level2var, nvars);
    hide Ready, Sound, SwapTheory.IsOrder, SwapTheory.Wf, SwapTheory.Unique;
    assert SwapTheory.Wf(g, lev) && SwapTheory.Unique(g);
    TreesCanon(g, lev);
    assert level2var[var2level[v]] == v;
    var d := Dd.Node(lev[v], Dd.Leaf(!hi), Dd.Leaf(hi));
    forall b': Dd.Assign ensures n in TreesOf(g, lev) && Dd.Eval(TreesOf(g, lev)[n], b') == Dd.Eval(d, b') {
      var b := BackTo(level2var, lev, b');
      BackSame(var2level, level2var, nvars, lev, b');
      FunctionsKept(t, hash, var2level, level2var, nvars, g, lev, n, b, b');
      assert b(var2level[v]) == b'(lev[v]);
    }
    BackTrees(t, hash, var2level, level2var, nvars, g, lev, n);
    hide TreesOf, Rehash.Preserved;
    Dd.Canonical(TreesOf(g, lev)[n], d);
  }

  lemma {:induction false} BackTrees(t: Table, hash: TableState.Hash, var2level: SwapTheory.Order, level2var: seq<nat>, nvars: nat,
                                     g: SwapTheory.Graph, lev: SwapTheory.Order, n: nat)
    requires Ready(t, hash, var2level, level2var, nvars) && n in t.ext && |lev| == |var2level|
    requires Rehash.Preserved(ByVariable(t, level2var), var2level, g, lev, RefsOf(t))
    ensures SwapTheory.Wf(g, lev) && n in TreesOf(g, lev) && Dd.Robdd(TreesOf(g, lev)[n])
  {
    hide SwapTheory.Wf, SwapTheory.Unique;
    TreesCanon(g, lev);
    hide Ready, TreesOf;
    var b' := (x: nat) => false;
    ReadySound(t, hash, var2level, level2var, nvars);
    BackSame(var2level, level2var, nvars, lev, b');
    FunctionsKept(t, hash, var2level, level2var, nvars, g, lev, n, BackTo(level2var, lev, b'), b');
  }

  /** What a session leaves in the records, with the trees over the new order. */
  lemma {:induction false} BackOnRecord(s: SessionState.State, hash: SessionState.Hash, ext: map<nat, nat>, lev: SwapTheory.Order, mtx: SwapTheory.Matrix,
                                        nodes: seq<BddNode>)
    requires LocalGbc.Rest(s, hash, ext, lev, mtx) && SessionStart.Returned(s.nodes, lev, ext, nodes, |s.nodes|)
    ensures SwapTheory.Wf(s.g, lev) && 2 <= |nodes| && |lev| == |s.levels| + 1
    ensures OnRecord(nodes, TreesOf(s.g, lev), ext.Keys) && Counters(nodes)
    ensures nodes[0].level == nodes[1].level == |s.levels| && LowLevels(TreesOf(s.g, lev), |s.levels|)
  {
    SessionBack(s, hash, ext, lev, mtx, nodes);
    BackSize(s, hash, ext, lev, mtx, nodes);
    SessionStart.RestSlots(s, hash, ext, lev, mtx);
    BackConstants(s, hash, ext, lev, mtx, nodes);
    hide LocalGbc.Rest, TreesOf, SwapTheory.Wf, SwapTheory.Unique, Recorded, Referenced, Canon, LowLevels;
    forall n | 0 <= n < |nodes| ensures !nodes[n].mark && nodes[n].refcou <= MAXREF {
      if 2 <= n { BackCount(s, hash, ext, lev, mtx, nodes, n); }
    }
    BackLevels(s.g, lev);
  }

  lemma {:induction false} BackConstants(s: SessionState.State, hash: SessionState.Hash, ext: map<nat, nat>, lev: SwapTheory.Order, mtx: SwapTheory.Matrix,
                                         nodes: seq<BddNode>)
    requires LocalGbc.Rest(s, hash, ext, lev, mtx) && SessionStart.Returned(s.nodes, lev, ext, nodes, |s.nodes|) && 2 <= |nodes|
    ensures nodes[0].level == nodes[1].level == |s.levels| && nodes[0].refcou == nodes[1].refcou == MAXREF && !nodes[0].mark && !nodes[1].mark
  {
    SessionStart.RestSlots(s, hash, ext, lev, mtx);
    SessionState.ConstantFacts(s, hash);
    hide LocalGbc.Rest;
    assert nodes[0] == s.nodes[0].(mark := 0 in ext) && nodes[1] == s.nodes[1].(mark := 1 in ext);
  }

  lemma {:induction false} BackCount(s: SessionState.State, hash: SessionState.Hash, ext: map<nat, nat>, lev: SwapTheory.Order, mtx: SwapTheory.Matrix,
                                     nodes: seq<BddNode>, n: nat)
    requires LocalGbc.Rest(s, hash, ext, lev, mtx) && SessionStart.Returned(s.nodes, lev, ext, nodes, |s.nodes|) && 2 <= n < |nodes|
    ensures nodes[n].refcou <= MAXREF
  {
    if n in s.g {
      RestRef(s, hash, ext, lev, mtx, n);
      hide LocalGbc.Rest, RefCounts.Ext;
      assert nodes[n] == s.nodes[n].(level := lev[s.nodes[n].level], refcou := if n in ext then s.nodes[n].refcou else 0);
    } else {
      BackFree(s, hash, ext, lev, mtx, nodes, n);
    }
  }

  lemma {:induction false} BackLevels(g: SwapTheory.Graph, lev: SwapTheory.Order)
    requires SwapTheory.Wf(g, lev)
    ensures LowLevels(TreesOf(g, lev), |lev| - 1)
  {
    forall n | n in TreesOf(g, lev) ensures DdBelow(TreesOf(g, lev)[n], |lev| - 1) {
      if n in g {
        assert SwapTheory.GoodNode(g, lev, n);
        assert lev[g[n].v] != lev[|lev| - 1];
      }
    }
  }

  /** Each pair stands for the trees its entries have now. */
  ghost function RowTrees(dd: Trees, row: seq<nat>): (r: DdSubst.Subst)
    ensures |r| == |row| && forall l {:trigger r[l]} :: 0 <= l < |row| && row[l] in dd ==> r[l] == dd[row[l]]
  {
    seq(|row|, l requires 0 <= l < |row| => if row[l] in dd then dd[row[l]] else Dd.Leaf(false))
  }

  ghost predicate Distinct(ids: seq<nat>) {
    forall i, j {:trigger ids[i], ids[j]} :: 0 <= i < j < |ids| ==> ids[i] != ids[j]
  }

  ghost function IndexOf(ids: seq<nat>, id: nat): (i: nat)
    requires id in ids
    ensures i < |ids| && ids[i] == id
  {
    var i :| 0 <= i < |ids| && ids[i] == id;
    i
  }

  ghost function NewSubs(subs: OpCaches.Pairs, rows: seq<seq<nat>>, ids: seq<nat>, dd: Trees): (r: OpCaches.Pairs)
    requires |rows| == |ids| && Distinct(ids)
    ensures r.Keys == subs.Keys
    ensures forall i {:trigger ids[i]} :: 0 <= i < |ids| && ids[i] in subs ==> r[ids[i]] == RowTrees(dd, rows[i])
  {
    map id | id in subs :: if id in ids then RowTrees(dd, rows[IndexOf(ids, id)]) else subs[id]
  }

  ghost function Ids(pairs: seq<Pair>): (r: seq<nat>)
    reads pairs
    ensures |r| == |pairs| && forall i {:trigger r[i]} :: 0 <= i < |pairs| ==> r[i] == pairs[i].id
  {
    seq(|pairs|, i requires 0 <= i < |pairs| reads pairs => pairs[i].id)
  }

  /** A session that was opened on the table of k, which k still has, and the entries the pairs had then. */
  ghost predicate Opened(k: Kernel, s: Reorder.Session, var2level: SwapTheory.Order, level2var: seq<nat>, rows: seq<seq<nat>>)
    reads k, s, s.pairs
  {
    && Ordered(k, var2level, level2var) && s.Valid() && |s.levels| == k.varnum
    && s.ext == RefsOf(k.Now()) && s.literal == Literal(k.varset)
    && (forall n {:trigger n in s.extroots} :: n in s.extroots <==> n in s.ext)
    && Rehash.Preserved(ByVariable(k.Now(), level2var), var2level, s.g, s.var2level, s.ext)
    && |rows| == |s.pairs| && Followed(rows, var2level, Entries(s.pairs), s.var2level, k.varnum)
    && (forall i {:trigger rows[i]} :: 0 <= i < |rows| ==> Referred(rows[i], k.ext))
    && Distinct(Ids(s.pairs)) && (forall i {:trigger s.pairs[i]} :: 0 <= i < |s.pairs| ==> s.pairs[i].id in k.pairs)
  }

  /** The table t of the kernel has become t', after a session whose last graph and order are g and lev. */
  ghost predicate Moved(t: Table, hash: TableState.Hash, var2level: SwapTheory.Order, level2var: seq<nat>, nvars: nat,
                        g: SwapTheory.Graph, lev: SwapTheory.Order, dd: Trees) {
    && Ready(t, hash, var2level, level2var, nvars) && |lev| == |var2level|
    && Rehash.Preserved(ByVariable(t, level2var), var2level, g, lev, RefsOf(t))
    && dd == LiveTrees(TreesOf(g, lev), t.ext, [])
  }

  /** What has a reference is not collected. */
  lemma {:induction false} MovedRoot(t: Table, hash: TableState.Hash, var2level: SwapTheory.Order, level2var: seq<nat>, nvars: nat,
                                     g: SwapTheory.Graph, lev: SwapTheory.Order, dd: Trees, n: nat)
    requires Moved(t, hash, var2level, level2var, nvars, g, lev, dd) && n in t.ext
    ensures SwapTheory.Wf(g, lev) && n in TreesOf(g, lev) && n in dd && dd[n] == TreesOf(g, lev)[n] && Dd.Robdd(dd[n]) && Live(dd, t.ext, [], n)
  {
    hide Ready, Rehash.Preserved, ByVariable, RefsOf;
    BackTrees(t, hash, var2level, level2var, nvars, g, lev, n);
    hide TreesOf, SwapTheory.Wf;
    RootKept(TreesOf(g, lev), t.ext, n);
  }

  lemma RootKept(dd: Trees, ext: set<nat>, n: nat)
    requires n in ext && n in dd
    ensures n in LiveTrees(dd, ext, []) && LiveTrees(dd, ext, [])[n] == dd[n] && Live(LiveTrees(dd, ext, []), ext, [], n)
  {
    assert Root(ext, [], n) && Dd.Subtree(dd[n], dd[n]);
  }

  lemma {:induction false} FunctionsMoved(t: Table, hash: TableState.Hash, var2level: SwapTheory.Order, level2var: seq<nat>, nvars: nat,
                                          g: SwapTheory.Graph, lev: SwapTheory.Order, t': Table)
    requires Moved(t, hash, var2level, level2var, nvars, g, lev, t'.dd) && t'.ext == t.ext
    ensures SameFunctions(t, var2level, t', lev) && forall n {:trigger n in t.ext} :: n in t.ext ==> n in t'.dd
  {
    hide Moved;
    forall n | n in t.ext ensures n in t.dd && n in t'.dd {
      RootThere(t, hash, var2level, level2var, nvars, g, lev, t'.dd, n);
    }
    forall n, b: Dd.Assign, b': Dd.Assign | n in t.ext && SameByVariable(var2level, b, lev, b')
      ensures Dd.Eval(t'.dd[n], b') == Dd.Eval(t.dd[n], b)
    {
      RootFunction(t, hash, var2level, level2var, nvars, g, lev, t'.dd, n, b, b');
    }
  }

  lemma {:induction false} RootThere(t: Table, hash: TableState.Hash, var2level: SwapTheory.Order, level2var: seq<nat>, nvars: nat,
                                     g: SwapTheory.Graph, lev: SwapTheory.Order, dd: Trees, n: nat)
    requires Moved(t, hash, var2level, level2var, nvars, g, lev, dd) && n in t.ext
    ensures n in t.dd && n in dd
  {
    MovedRoot(t, hash, var2level, level2var, nvars, g, lev, dd, n);
    hide Ready, Rehash.Preserved, ByVariable, RefsOf;
    ReadySound(t, hash, var2level, level2var, nvars);
    ExtIn(t, hash, n);
  }

  lemma ExtIn(t: Table, hash: TableState.Hash, n: nat)
    requires Sound(t, hash) && n in t.ext
    ensures n in t.dd && 2 <= n < |t.nodes|
  {
    hide Heads, Threaded, Keyed, Canon, Recorded;
  }

  lemma {:induction false} RootFunction(t: Table, hash: TableState.Hash, var2level: SwapTheory.Order, level2var: seq<nat>, nvars: nat,
                                        g: SwapTheory.Graph, lev: SwapTheory.Order, dd: Trees, n: nat, b: Dd.Assign, b': Dd.Assign)
    requires Moved(t, hash, var2level, level2var, nvars, g, lev, dd) && n in t.ext && SameByVariable(var2level, b, lev, b')
    ensures n in t.dd && n in dd && Dd.Eval(dd[n], b') == Dd.Eval(t.dd[n], b)
  {
    MovedRoot(t, hash, var2level, level2var, nvars, g, lev, dd, n);
    hide Ready, Rehash.Preserved, ByVariable, RefsOf, TreesOf;
    FunctionsKept(t, hash, var2level, level2var, nvars, g, lev, n, b, b');
  }

  lemma {:induction false} LiteralsMoved(t: Table, hash: TableState.Hash, var2level: SwapTheory.Order, level2var: seq<nat>, nvars: nat,
                                         g: SwapTheory.Graph, lev: SwapTheory.Order, dd: Trees, varset: seq<nat>)
    requires Moved(t, hash, var2level, level2var, nvars, g, lev, dd) && LiteralsAt(varset, nvars, t.dd, t.ext, var2level)
    ensures LiteralsAt(varset, nvars, dd, t.ext, lev)
  {
    MovedSize(t, hash, var2level, level2var, nvars, g, lev, dd);
    forall v | 0 <= v < nvars
      ensures varset[2 * v] in dd && dd[varset[2 * v]] == Dd.Node(lev[v], Dd.Leaf(false), Dd.Leaf(true))
      ensures varset[2 * v + 1] in dd && dd[varset[2 * v + 1]] == Dd.Node(lev[v], Dd.Leaf(true), Dd.Leaf(false))
    {
      assert varset[2 * v] in t.ext && varset[2 * v + 1] in t.ext;
      LiteralAfter(t, hash, var2level, level2var, nvars, g, lev, dd, varset[2 * v], v, true);
      LiteralAfter(t, hash, var2level, level2var, nvars, g, lev, dd, varset[2 * v + 1], v, false);
    }
  }

  lemma MovedSize(t: Table, hash: TableState.Hash, var2level: SwapTheory.Order, level2var: seq<nat>, nvars: nat,
                  g: SwapTheory.Graph, lev: SwapTheory.Order, dd: Trees)
    requires Moved(t, hash, var2level, level2var, nvars, g, lev, dd)
    ensures |lev| == |var2level| == nvars + 1 && ReorderSteps.Orders(var2level, level2var, nvars) && Sound(t, hash)
  {
    hide Sound, Rehash.Preserved, SwapTheory.IsOrder;
  }

  lemma {:induction false} LiteralAfter(t: Table, hash: TableState.Hash, var2level: SwapTheory.Order, level2var: seq<nat>, nvars: nat,
                                        g: SwapTheory.Graph, lev: SwapTheory.Order, dd: Trees, n: nat, v: nat, hi: bool)
    requires Moved(t, hash, var2level, level2var, nvars, g, lev, dd) && n in t.ext && v < nvars && v < |var2level|
    requires n in t.dd && t.dd[n] == Dd.Node(var2level[v], Dd.Leaf(!hi), Dd.Leaf(hi))
    ensures v < |lev| && n in dd && dd[n] == Dd.Node(lev[v], Dd.Leaf(!hi), Dd.Leaf(hi))
  {
    MovedRoot(t, hash, var2level, level2var, nvars, g, lev, dd, n);
    hide Ready, Rehash.Preserved, ByVariable, RefsOf, TreesOf;
    LiteralMoved(t, hash, var2level, level2var, nvars, g, lev, n, v, hi);
  }

  /** The entries that have moved are the entries there were. */
  lemma {:induction false} ReferredAfter(row: seq<nat>, lev: SwapTheory.Order, row': seq<nat>, lev': SwapTheory.Order, level2var': seq<nat>, n: nat, ext: set<nat>)
    requires FollowedRow(row, lev, row', lev', n) && Referred(row, ext) && ReorderSteps.Orders(lev', level2var', n)
    ensures Referred(row', ext)
  {
    Rehash.OrdersRange(lev', level2var', n);
    forall l | 0 <= l < |row'| ensures row'[l] < 2 || row'[l] in ext {
      var v := level2var'[l];
      assert lev'[v] == l && row'[l] == row[lev[v]];
    }
  }

  lemma {:induction false} EntryKept(k: Kernel, dd: Trees, n: nat)
    requires k.Ok() && Canon(dd) && k.dd == LiveTrees(dd, k.ext, []) && (n < 2 || (n in k.ext && n in dd))
    ensures n in dd && n in k.dd && k.dd[n] == dd[n] && Dd.Robdd(dd[n]) && Live(k.dd, k.ext, [], n)
  {
    hide Kernel.Ok;
    if 2 <= n { RootKept(dd, k.ext, n); }
  }

  /** A pair stands for the same variables as before, at their new levels. */
  lemma {:induction false} PairMoved(k: Kernel, p: Pair, dd: Trees, lev: SwapTheory.Order, level2var: seq<nat>)
    requires k.Ok() && Canon(dd) && k.dd == LiveTrees(dd, k.ext, []) && forall n {:trigger n in k.ext} :: n in k.ext ==> n in dd
    requires ReorderSteps.Orders(lev, level2var, k.varnum) && LiteralsAt(k.varset, k.varnum, k.dd, k.ext, lev)
    requires |p.result| == k.varnum && Referred(p.result, k.ext) && PlainRow(p.result, p.last, level2var, Literal(k.varset))
    requires p.id in k.pairs && k.pairs[p.id] == RowTrees(dd, p.result)
    ensures PairOk(k, p)
  {
    hide Kernel.Ok, SwapTheory.IsOrder, Canon, LiveTrees, Live;
    var sub := k.pairs[p.id];
    forall l | 0 <= l < |p.result|
      ensures Live(k.dd, k.ext, [], p.result[l]) && p.result[l] in k.dd && k.dd[p.result[l]] == sub[l] && Dd.Robdd(sub[l])
    {
      EntryKept(k, dd, p.result[l]);
    }
    forall l: nat | p.last < l ensures DdSubst.Sub(sub, l) == DdSubst.Var(l) {
      if l < |sub| {
        LevelVar(lev, level2var, k.varnum, l);
        assert p.result[l] == k.varset[2 * level2var[l]];
      }
    }
  }

  lemma OkStatics(k: Kernel)
    requires k.Ok()
    ensures |k.quantvarset| == k.varnum && Stamped(k.quantvarset, k.quantvarsetID) && IdsBelow(k.pairs, k.pairsid) && Aged(k.caches)
    ensures Grows(k.largerSize) && InRange(k.hash) && SlotInRange(k.slot)
  {
    hide EntryOk, OnRecord, Levelled;
    Generations(k.caches, k.dd, k.pairs, k.nodes[0].level);
    SoundStored(k.Now(), k.hash);
  }

  lemma LowSubset(dd: Trees, dd': Trees, n: nat)
    requires LowLevels(dd, n) && forall m {:trigger m in dd'} :: m in dd' ==> m in dd && dd'[m] == dd[m]
    ensures LowLevels(dd', n)
  {
  }

  /** bdd_gbc on the records a session has left. */
  method CollectBack(k: Kernel, nodes: seq<BddNode>, ghost dd: Trees, ghost subs: OpCaches.Pairs)
    requires k.Ok() && k.refstack == [] && OnRecord(nodes, dd, k.ext) && Counters(nodes) && 2 <= |nodes|
    requires nodes[0].level == nodes[1].level == k.varnum && LowLevels(dd, k.varnum) && subs.Keys == k.pairs.Keys
    modifies k`nodes, k`freepos, k`freenum, k`caches, k`dd, k`lists, k`place, k`pairs
    ensures k.Ok() && k.dd == LiveTrees(dd, k.ext, []) && k.pairs == subs && |k.nodes| == |nodes|
    ensures forall n {:trigger k.nodes[n]} :: 2 <= n < |k.nodes| && n in k.dd ==> k.nodes[n].refcou == nodes[n].refcou
  {
    hide Kernel.Held, OnRecord, Counters, Aged, Sound, Stamped;
    OkStatics(k);
    k.nodes, k.dd, k.pairs := nodes, dd, subs;
    k.Collect();
    LowSubset(dd, k.dd, k.varnum);
  }

  lemma OpenedFacts(k: Kernel, s: Reorder.Session, var2level: SwapTheory.Order, level2var: seq<nat>, rows: seq<seq<nat>>)
    requires Opened(k, s, var2level, level2var, rows)
    ensures Ordered(k, var2level, level2var) && Ready(k.Now(), k.hash, var2level, level2var, k.varnum)
    ensures k.Ok() && k.refstack == [] && 0 < k.varnum && LiteralsAt(k.varset, k.varnum, k.dd, k.ext, var2level)
    ensures LocalGbc.Rest(s.Now(), s.hash, s.ext, s.var2level, s.iactmtx) && ReorderSteps.Orders(s.var2level, s.level2var, k.varnum)
    ensures Fit(s.pairs, k.varnum) && PlainPairs(s.pairs, s.level2var, Literal(k.varset))
    ensures |s.var2level| == |var2level| == k.varnum + 1 && s.ext.Keys == k.ext && |s.levels| == k.varnum
    ensures Sound(k.Now(), k.hash) && Counters(k.nodes)
  {
    OrderedFacts(k, var2level, level2var);
    hide Ready;
    RefKeys(k.Now(), k.hash, var2level, level2var, k.varnum);
    hide Ordered, LocalGbc.Rest, SwapTheory.IsOrder;
  }

  lemma OrderedAgain(k: Kernel, lev: SwapTheory.Order, level2var: seq<nat>)
    requires k.Ok() && 0 < k.varnum && k.refstack == [] && ReorderSteps.Orders(lev, level2var, k.varnum)
    requires LiteralsAt(k.varset, k.varnum, k.dd, k.ext, lev)
    ensures Ordered(k, lev, level2var)
  {
    hide Kernel.Ok, ReorderSteps.Orders;
  }

  lemma RecordFacts(nodes: seq<BddNode>, dd: Trees, ext: set<nat>)
    requires OnRecord(nodes, dd, ext)
    ensures Canon(dd) && forall n {:trigger n in ext} :: n in ext ==> n in dd
  {
    hide Canon, Recorded, Unmarked;
  }

  lemma {:induction false} PairsMoved(k: Kernel, pairs: seq<Pair>, dd: Trees, lev0: SwapTheory.Order, rows: seq<seq<nat>>, lev: SwapTheory.Order, level2var: seq<nat>)
    requires k.Ok() && Canon(dd) && k.dd == LiveTrees(dd, k.ext, []) && forall n {:trigger n in k.ext} :: n in k.ext ==> n in dd
    requires ReorderSteps.Orders(lev, level2var, k.varnum) && LiteralsAt(k.varset, k.varnum, k.dd, k.ext, lev)
    requires Fit(pairs, k.varnum) && PlainPairs(pairs, level2var, Literal(k.varset)) && Distinct(Ids(pairs))
    requires |rows| == |pairs| && Followed(rows, lev0, Entries(pairs), lev, k.varnum)
    requires forall i {:trigger rows[i]} :: 0 <= i < |rows| ==> Referred(rows[i], k.ext)
    requires forall i {:trigger pairs[i]} :: 0 <= i < |pairs| ==> pairs[i].id in k.pairs && k.pairs[pairs[i].id] == RowTrees(dd, pairs[i].result)
    ensures PairsOk(k, pairs)
  {
    hide Kernel.Ok, Canon, LiveTrees, ReorderSteps.Orders, LiteralsAt, PlainRow, PairOk, Referred, FollowedRow, RowTrees;
    forall i | 0 <= i < |pairs| ensures PairOk(k, pairs[i]) && Referred(pairs[i].result, k.ext) {
      assert FollowedRow(rows[i], lev0, Entries(pairs)[i], lev, k.varnum);
      ReferredAfter(rows[i], lev0, pairs[i].result, lev, level2var, k.varnum, k.ext);
      PairMoved(k, pairs[i], dd, lev, level2var);
    }
    forall i, j | 0 <= i < j < |pairs| ensures pairs[i].id != pairs[j].id {
      assert Ids(pairs)[i] != Ids(pairs)[j];
    }
  }

  lemma SubsNew(subs: OpCaches.Pairs, pairs: seq<Pair>, dd: Trees)
    requires Distinct(Ids(pairs)) && forall i {:trigger pairs[i]} :: 0 <= i < |pairs| ==> pairs[i].id in subs
    ensures forall i {:trigger pairs[i]} :: 0 <= i < |pairs| ==>
              NewSubs(subs, Entries(pairs), Ids(pairs), dd)[pairs[i].id] == RowTrees(dd, pairs[i].result)
  {
    hide NewSubs, RowTrees, Distinct;
    forall i | 0 <= i < |pairs| ensures NewSubs(subs, Entries(pairs), Ids(pairs), dd)[pairs[i].id] == RowTrees(dd, pairs[i].result) {
      assert Ids(pairs)[i] == pairs[i].id;
    }
  }

  /**
    The counters after a reordering: an external reference is counted together
    with the edges that pointed to the node in the last graph of the session.
  */
  ghost predicate Recounted(nodes: seq<BddNode>, ext: set<nat>, g: SwapTheory.Graph, nodes': seq<BddNode>) {
    forall n {:trigger n in ext} :: n in ext ==>
      n < |nodes| && n < |nodes'| && nodes[n].refcou <= MAXREF &&
      (nodes'[n].refcou == MAXREF || nodes'[n].refcou == nodes[n].refcou + Counting.Parents(g, n))
  }

  lemma {:induction false} CountsBack(t: Table, hash: TableState.Hash, s: SessionState.State, shash: SessionState.Hash, lev: SwapTheory.Order, mtx: SwapTheory.Matrix,
                                      nodes: seq<BddNode>, t': Table)
    requires Sound(t, hash) && Counters(t.nodes) && LocalGbc.Rest(s, shash, RefsOf(t), lev, mtx)
    requires SessionStart.Returned(s.nodes, lev, RefsOf(t), nodes, |s.nodes|)
    requires |t'.nodes| == |nodes| && forall n {:trigger t'.nodes[n]} :: 2 <= n < |t'.nodes| && n in t'.dd ==> t'.nodes[n].refcou == nodes[n].refcou
    requires forall n {:trigger n in t.ext} :: n in t.ext ==> n in t'.dd
    ensures Recounted(t.nodes, t.ext, s.g, t'.nodes)
  {
    hide LocalGbc.Rest, Counting.Parents, SessionStart.Returned, Sound;
    forall n | n in t.ext
      ensures n < |t.nodes| && n < |t'.nodes| && t.nodes[n].refcou <= MAXREF
      ensures t'.nodes[n].refcou == MAXREF || t'.nodes[n].refcou == t.nodes[n].refcou + Counting.Parents(s.g, n)
    {
      ExtIn(t, hash, n);
      assert n in RefsOf(t);
      CountsAfter(s, shash, RefsOf(t), lev, mtx, nodes, n);
    }
  }

  /** reorder_done: the table of the session becomes that of the kernel. */
  method Finish(k: Kernel, s: Reorder.Session, ghost var2level: SwapTheory.Order, ghost level2var: seq<nat>, ghost rows: seq<seq<nat>>)
    requires Opened(k, s, var2level, level2var, rows)
    modifies k`nodes, k`freepos, k`freenum, k`caches, k`dd, k`lists, k`place, k`pairs, s`nodes
    ensures Ordered(k, s.var2level, s.level2var) && PairsOk(k, s.pairs)
    ensures SameFunctions(old(k.Now()), var2level, k.Now(), s.var2level) && Followed(rows, var2level, Entries(s.pairs), s.var2level, k.varnum)
    ensures Recounted(old(k.nodes), k.ext, s.g, k.nodes)
  {
    hide Recounted, Ordered, LocalGbc.Rest, ReorderSteps.Orders, Rehash.Preserved, Ready, Sound, Kernel.Ok, OnRecord, Counters, SessionStart.Returned,
      LiteralsAt, Fit, PlainPairs, TreesOf, SwapTheory.Wf, LowLevels, LiveTrees, ByVariable, RefsOf, Distinct, Referred, FollowedRow, Canon, NewSubs, RowTrees, PairOk;
    OpenedFacts(k, s, var2level, level2var, rows);
    ghost var t, was, lev := k.Now(), s.Now(), s.var2level;
    s.Done();
    BackOnRecord(was, s.hash, s.ext, lev, s.iactmtx, s.nodes);
    ghost var dd := TreesOf(s.g, lev);
    RecordFacts(s.nodes, dd, s.ext.Keys);
    SubsNew(k.pairs, s.pairs, dd);
    CollectBack(k, s.nodes, dd, NewSubs(k.pairs, Entries(s.pairs), Ids(s.pairs), dd));
    assert Moved(t, k.hash, var2level, level2var, k.varnum, s.g, lev, k.dd);
    FunctionsMoved(t, k.hash, var2level, level2var, k.varnum, s.g, lev, k.Now());
    LiteralsMoved(t, k.hash, var2level, level2var, k.varnum, s.g, lev, k.dd, k.varset);
    OrderedAgain(k, lev, s.level2var);
    PairsMoved(k, s.pairs, dd, var2level, rows, lev, s.level2var);
    CountsBack(t, k.hash, was, s.hash, lev, s.iactmtx, s.nodes, k.Now());
  }

  /** After exchanges the session still belongs to the table it was opened on. */
  lemma {:induction false} OpenedSince(k: Kernel, s: Reorder.Session, var2level: SwapTheory.Order, level2var: seq<nat>, rows: seq<seq<nat>>, s0: SessionState.State)
    requires Ordered(k, var2level, level2var) && s.Valid() && |s.levels| == k.varnum
    requires s.ext == RefsOf(k.Now()) && s.literal == Literal(k.varset) && forall n {:trigger n in s.extroots} :: n in s.extroots <==> n in s.ext
    requires Rehash.Preserved(ByVariable(k.Now(), level2var), var2level, s0.g, var2level, s.ext) && s.Since(s0, var2level, rows)
    requires |rows| == |s.pairs| && forall i {:trigger rows[i]} :: 0 <= i < |rows| ==> Referred(rows[i], k.ext)
    requires Distinct(Ids(s.pairs)) && forall i {:trigger s.pairs[i]} :: 0 <= i < |s.pairs| ==> s.pairs[i].id in k.pairs
    ensures Opened(k, s, var2level, level2var, rows)
  {
    hide Ordered, Reorder.Session.Valid, ByVariable, RefsOf, Followed, Referred, Distinct, Rehash.Preserved;
    Rehash.PreservedTrans(ByVariable(k.Now(), level2var), var2level, s0.g, var2level, s.g, s.var2level, s.ext);
  }

  lemma PairsFacts(k: Kernel, pairs: seq<Pair>)
    requires PairsOk(k, pairs)
    ensures Distinct(Ids(pairs)) && Fit(pairs, k.varnum)
    ensures forall i {:trigger pairs[i]} :: 0 <= i < |pairs| ==> pairs[i].id in k.pairs
    ensures forall i {:trigger Entries(pairs)[i]} :: 0 <= i < |pairs| ==> Referred(Entries(pairs)[i], k.ext)
  {
  }

  /** What a reordering promises: the order, the functions, the pairs, and at least the counts there were. */
  ghost predicate Reordered(k: Kernel, t: Table, var2level: SwapTheory.Order, rows: seq<seq<nat>>, pairs: seq<Pair>, lev: SwapTheory.Order)
    reads k, pairs
  {
    && SameFunctions(t, var2level, k.Now(), lev) && Followed(rows, var2level, Entries(pairs), lev, k.varnum)
    && forall n {:trigger n in t.ext} :: n in t.ext ==> n < |t.nodes| && n < |k.nodes| && t.nodes[n].refcou <= k.nodes[n].refcou
  }

  /** reorder_done, after any run of exchanges. */
  method Close(k: Kernel, s: Reorder.Session, ghost var2level: SwapTheory.Order, ghost level2var: seq<nat>, ghost rows: seq<seq<nat>>, ghost s0: SessionState.State)
    requires Ordered(k, var2level, level2var) && s.Valid() && |s.levels| == k.varnum
    requires s.ext == RefsOf(k.Now()) && s.literal == Literal(k.varset) && forall n {:trigger n in s.extroots} :: n in s.extroots <==> n in s.ext
    requires Rehash.Preserved(ByVariable(k.Now(), level2var), var2level, s0.g, var2level, s.ext) && s.Since(s0, var2level, rows)
    requires |rows| == |s.pairs| && forall i {:trigger rows[i]} :: 0 <= i < |rows| ==> Referred(rows[i], k.ext)
    requires Distinct(Ids(s.pairs)) && forall i {:trigger s.pairs[i]} :: 0 <= i < |s.pairs| ==> s.pairs[i].id in k.pairs
    modifies k`nodes, k`freepos, k`freenum, k`caches, k`dd, k`lists, k`place, k`pairs, s`nodes
    ensures Ordered(k, s.var2level, s.level2var) && PairsOk(k, s.pairs)
    ensures Reordered(k, old(k.Now()), var2level, rows, s.pairs, s.var2level)
  {
    hide Ordered, Opened, PairsOk, SameFunctions, Reordered, Recounted, Followed, Distinct, Referred, Rehash.Preserved, ByVariable, RefsOf,
      Reorder.Session.Valid, Reorder.Session.Since;
    OpenedSince(k, s, var2level, level2var, rows, s0);
    Finish(k, s, var2level, level2var, rows);
    Closed(k, old(k.Now()), s, var2level, rows);
  }

  lemma Closed(k: Kernel, t: Table, s: Reorder.Session, var2level: SwapTheory.Order, rows: seq<seq<nat>>)
    requires SameFunctions(t, var2level, k.Now(), s.var2level) && Followed(rows, var2level, Entries(s.pairs), s.var2level, k.varnum)
    requires Recounted(t.nodes, t.ext, s.g, k.nodes)
    ensures Reordered(k, t, var2level, rows, s.pairs, s.var2level)
  {
    hide SameFunctions, Followed, Counting.Parents;
  }

  /**
    bdd_setvarorder: refused when there are variable blocks; otherwise the order
    is the requested one and every function is what it was.
  */
  method SetVarOrder(k: Kernel, var2level: SwapTheory.Order, level2var: seq<nat>, pairs: seq<Pair>, blocks: bool, neworder: seq<nat>, pair: SessionState.Hash)
    returns (err: int, lev: SwapTheory.Order, order: seq<nat>)
    requires Ordered(k, var2level, level2var) && PairsOk(k, pairs) && MatrixCovers(k, var2level, level2var) && SessionState.Spreads(pair)
    requires |neworder| == k.varnum && forall i {:trigger neworder[i]} :: 0 <= i < |neworder| ==> neworder[i] < k.varnum
    requires forall i, j {:trigger neworder[i], neworder[j]} :: 0 <= i < j < |neworder| ==> neworder[i] != neworder[j]
    modifies k`nodes, k`freepos, k`freenum, k`caches, k`dd, k`lists, k`place, k`pairs, pairs`result, pairs`last
    ensures Ordered(k, lev, order) && PairsOk(k, pairs)
    ensures err == if blocks then BDD_VARBLK else 0
    ensures blocks ==> lev == var2level && order == level2var && k.Now() == old(k.Now()) && Entries(pairs) == old(Entries(pairs))
    ensures !blocks ==> order == neworder + [k.varnum] && Reordered(k, old(k.Now()), var2level, old(Entries(pairs)), pairs, lev)
  {
    hide Ordered, PairsOk, SessionStart.Marks, SessionState.Spreads, Reorder.Session.Valid, Reorder.Session.Since, Rehash.Preserved,
      Referred, Distinct, Reordered, ByVariable, RefsOf;
    if blocks {
      return BDD_VARBLK, var2level, level2var;
    }
    PairsFacts(k, pairs);
    ghost var rows, ids := Entries(pairs), Ids(pairs);
    var s := Init(k, var2level, level2var, pairs, pair);
    ghost var s0 := s.Now();
    s.SetVarOrder(neworder);
    assert Ids(pairs) == ids;
    Close(k, s, var2level, level2var, rows, s0);
    return 0, s.var2level, s.level2var;
  }

  /**
    bdd_swapvar: refused when there are variable blocks, and for an unknown
    variable; otherwise the two variables have exchanged their levels, all
    others are where they were, and every function is what it was.
  */
  method SwapVar(k: Kernel, var2level: SwapTheory.Order, level2var: seq<nat>, pairs: seq<Pair>, blocks: bool, v1: int, v2: int, pair: SessionState.Hash)
    returns (err: int, lev: SwapTheory.Order, order: seq<nat>)
    requires Ordered(k, var2level, level2var) && PairsOk(k, pairs) && MatrixCovers(k, var2level, level2var) && SessionState.Spreads(pair)
    modifies k`nodes, k`freepos, k`freenum, k`caches, k`dd, k`lists, k`place, k`pairs, pairs`result, pairs`last
    ensures Ordered(k, lev, order) && PairsOk(k, pairs)
    ensures err == if blocks then BDD_VARBLK else if v1 == v2 || (0 <= v1 < k.varnum && 0 <= v2 < k.varnum) then 0 else Reorder.BDD_VAR
    ensures err != 0 || v1 == v2 ==> lev == var2level && order == level2var && k.Now() == old(k.Now()) && Entries(pairs) == old(Entries(pairs))
    ensures err == 0 && v1 != v2 ==>
              && Reordered(k, old(k.Now()), var2level, old(Entries(pairs)), pairs, lev)
              && v1 < |var2level| && v2 < |var2level| && var2level[v1] < |level2var| && var2level[v2] < |level2var|
              && order == level2var[var2level[v1] := v2][var2level[v2] := v1]
  {
    hide Ordered, PairsOk, SessionStart.Marks, SessionState.Spreads, Reorder.Session.Valid, Reorder.Session.Since, Rehash.Preserved,
      Referred, Distinct, Reordered, ByVariable, RefsOf, ReorderSteps.Orders;
    if blocks {
      return BDD_VARBLK, var2level, level2var;
    }
    if v1 == v2 {
      return 0, var2level, level2var;
    }
    if v1 < 0 || v1 >= k.varnum || v2 < 0 || v2 >= k.varnum {
      return Reorder.BDD_VAR, var2level, level2var;
    }
    OrderOf(k, var2level, level2var, v1, v2);
    var a, b := v1, v2;
    if var2level[v1] > var2level[v2] {
      a, b := v2, v1;
    }
    PairsFacts(k, pairs);
    ghost var rows, ids := Entries(pairs), Ids(pairs);
    var s := Init(k, var2level, level2var, pairs, pair);
    ghost var s0 := s.Now();
    s.ExchangeLevels(a, b);
    assert Ids(pairs) == ids;
    Close(k, s, var2level, level2var, rows, s0);
    return 0, s.var2level, s.level2var;
  }

  lemma OrderOf(k: Kernel, var2level: SwapTheory.Order, level2var: seq<nat>, v: nat, w: nat)
    requires Ordered(k, var2level, level2var) && v < k.varnum && w < k.varnum && v != w
    ensures |var2level| == |level2var| == k.varnum + 1 && var2level[v] != var2level[w]
    ensures var2level[v] < |level2var| && var2level[w] < |level2var|
  {
    hide Kernel.Ok;
  }

  /* ---- when the matrix covers ---- */

  /** No root is part of one with a smaller number: then every reordering is right. */
  lemma AscendingCovers(k: Kernel, var2level: SwapTheory.Order, level2var: seq<nat>)
    requires Ordered(k, var2level, level2var) && RootsAscend(k.dd, k.ext)
    ensures MatrixCovers(k, var2level, level2var)
  {
    OrderedFacts(k, var2level, level2var);
    hide Ordered, Ready;
    AscendingMarks(k.Now(), k.hash, var2level, level2var, k.varnum);
  }

  /** The order bdd_setvarnum leaves: with it, and no pairs yet, a reordering can begin. */
  lemma FreshOrder(k: Kernel, order: seq<nat>)
    requires k.Ok() && k.VarsOk() && 0 < k.varnum && k.refstack == []
    requires |order| == k.varnum + 1 && forall v {:trigger order[v]} :: 0 <= v < |order| ==> order[v] == v
    ensures Ordered(k, order, order) && PairsOk(k, [])
  {
    hide Kernel.Ok;
  }
}
