/**
  The operator caches. An entry is valid while its generation is the current
  one; a valid entry holds the node of the exact result it is keyed by.
*/
module OpCaches {
  import opened Dd
  import opened DdOps
  import opened DdSubst
  import opened DdCofactor
  import opened DdCount
  import opened DdRename
  import opened TableState

  datatype Entry = Entry(a: nat, b: nat, c: nat, res: nat, generation: nat)

  datatype Cache = Cache(table: seq<Entry>, generation: nat)

  datatype Caches = Caches(apply: Cache, ite: Cache, quant: Cache, appex: Cache, replace: Cache, misc: Cache)

  datatype Kind = ApplyKind | IteKind | QuantKind | AppexKind | ReplaceKind | MiscKind

  const BDDOP_NOT: nat := 10
  const BDDOP_SIMPLIFY: nat := 11

  const CACHEID_CONSTRAIN: nat := 0
  const CACHEID_RESTRICT: nat := 1
  const CACHEID_SATCOU: nat := 2

  const CACHEID_REPLACE: nat := 0
  const CACHEID_COMPOSE: nat := 1
  const CACHEID_VECCOMPOSE: nat := 2

  const CACHEID_EXIST: nat := 0
  const CACHEID_FORALL: nat := 1
  const CACHEID_APPUN: nat := 5

  /* ---- variable sets: cubes of positive (or, for restrict, signed) literals ---- */

  /** varset2vartable: the levels on the chain of high branches. */
  function VarSet(d: Dd): set<nat> {
    if d.Leaf? then {} else {d.level} + VarSet(d.hi)
  }

  /** varset2svartable: a level is fixed to true where the low branch is false, otherwise to false. */
  function FixSet(d: Dd): Fix {
    if d.Leaf? then map[]
    else if d.lo == Leaf(false) then FixSet(d.hi)[d.level := true]
    else FixSet(d.lo)[d.level := false]
  }

  /* ---- what the ids stand for ---- */

  function QuantId(v: nat, id: nat): nat { 8 * v + id }
  function AppexId(v: nat, op: nat, tag: nat): nat { 64 * v + 4 * op + tag }
  function ReplaceId(n: nat, id: nat): nat { 4 * n + id }

  /** The operator that combines the two halves of a quantified node. */
  function QuantOp(id: nat): (op: nat)
    ensures op <= INVIMP
  {
    if id % 3 == 0 then OR else if id % 3 == 1 then AND else XOR
  }

  /** The variable set of a quantid; appex and its kin wrap their own id in it. */
  function QuantVar(c: nat): nat {
    if c % 8 < 3 then c / 8 else c / 8 / 64
  }

  lemma QuantIdDecodes(v: nat, id: nat)
    requires id < 3
    ensures QuantId(v, id) % 8 == id && QuantVar(QuantId(v, id)) == v
  {
  }

  lemma AppexIdDecodes(v: nat, op: nat, tag: nat)
    requires op < 16 && tag < 3
    ensures var c := AppexId(v, op, tag);
            && c % 4 == tag && c / 4 % 16 == op && c / 64 == v
            && QuantId(c, tag + 3) % 8 == tag + 3 && QuantVar(QuantId(c, tag + 3)) == v
  {
    hide AppexId, QuantId;
    var c := AppexId(v, op, tag);
    AppexTag(v, op, tag);
    AppexOp(v, op, tag);
    AppexVar(v, op, tag);
    WrappedTag(c, tag + 3);
    WrappedId(c, tag + 3);
  }

  lemma AppexTag(v: nat, op: nat, tag: nat)
    requires op < 16 && tag < 3
    ensures AppexId(v, op, tag) % 4 == tag
  {
  }

  lemma AppexOp(v: nat, op: nat, tag: nat)
    requires op < 16 && tag < 3
    ensures AppexId(v, op, tag) / 4 % 16 == op
  {
  }

  lemma AppexVar(v: nat, op: nat, tag: nat)
    requires op < 16 && tag < 3
    ensures AppexId(v, op, tag) / 64 == v
  {
  }

  lemma WrappedTag(c: nat, id: nat)
    requires id < 8
    ensures QuantId(c, id) % 8 == id
  {
  }

  lemma WrappedId(c: nat, id: nat)
    requires id < 8
    ensures QuantId(c, id) / 8 == c
  {
  }

  lemma ReplaceIdDecodes(n: nat, id: nat)
    requires id < 3
    ensures ReplaceId(n, id) % 4 == id && ReplaceId(n, id) / 4 == n
  {
  }

  /** The substitutions the pair ids stand for. */
  type Pairs = map<nat, Subst>

  ghost predicate ApplyEntry(e: Entry, dd: Trees) {
    && e.a in dd && e.res in dd && Robdd(dd[e.a])
    && (e.c == BDDOP_NOT ==> dd[e.res] == Not(dd[e.a]))
    && (e.c == BDDOP_SIMPLIFY ==> e.b in dd && Robdd(dd[e.b]) && dd[e.res] == Simplify(dd[e.a], dd[e.b]))
    && (e.c <= INVIMP ==> e.b in dd && dd[e.res] == Apply(e.c, dd[e.a], dd[e.b]))
  }

  ghost predicate IteEntry(e: Entry, dd: Trees) {
    e.a in dd && e.b in dd && e.c in dd && e.res in dd && dd[e.res] == Ite(dd[e.a], dd[e.b], dd[e.c])
  }

  ghost predicate QuantEntry(e: Entry, dd: Trees) {
    && e.a in dd && e.res in dd && QuantVar(e.c) in dd
    && (e.c % 8 <= CACHEID_APPUN ==> dd[e.res] == Quant(QuantOp(e.c % 8), dd[e.a], VarSet(dd[QuantVar(e.c)])))
  }

  ghost predicate AppexEntry(e: Entry, dd: Trees) {
    && e.a in dd && e.b in dd && e.res in dd && e.c / 64 in dd
    && (e.c % 4 < 2 && e.c / 4 % 16 <= INVIMP ==>
          dd[e.res] == Quant(QuantOp(e.c % 4), Apply(e.c / 4 % 16, dd[e.a], dd[e.b]), VarSet(dd[e.c / 64])))
  }

  /** A substitution that replaces levels by levels. */
  ghost predicate IsRenaming(sub: Subst, ren: Renaming) { sub == AsSubst(ren) }

  /** An erroneous result is cached too: only a renamable tree has its renamed one. */
  ghost predicate RenamedEntry(sub: Subst, d: Dd, r: Dd) {
    forall ren: Renaming {:trigger IsRenaming(sub, ren)} :: IsRenaming(sub, ren) && Renamable(d, ren) ==> r == Rename(d, ren)
  }

  ghost predicate ReplaceEntry(e: Entry, dd: Trees, pairs: Pairs) {
    && e.a in dd && e.res in dd
    && (e.c % 4 == CACHEID_REPLACE ==> e.c / 4 in pairs && RenamedEntry(pairs[e.c / 4], dd[e.a], dd[e.res]))
    && (e.c % 4 == CACHEID_COMPOSE ==> e.b in dd && dd[e.res] == Compose(dd[e.a], dd[e.b], e.c / 4))
    && (e.c % 4 == CACHEID_VECCOMPOSE ==> e.c / 4 in pairs && dd[e.res] == VecCompose(dd[e.a], pairs[e.c / 4]))
  }

  /** n is the level of the constants. */
  ghost predicate MiscEntry(e: Entry, dd: Trees, n: nat) {
    && e.a in dd && Robdd(dd[e.a])
    && (e.c == CACHEID_CONSTRAIN ==> e.b in dd && e.res in dd && dd[e.res] == Constrain(dd[e.a], dd[e.b]))
    && (e.c == CACHEID_SATCOU ==> DdCount.Fits(dd[e.a], n) && e.res == CountRec(dd[e.a], n))
    && (e.c % 8 == CACHEID_RESTRICT && 8 < e.c ==>
          e.c / 8 in dd && e.res in dd && dd[e.res] == Restrict(dd[e.a], FixSet(dd[e.c / 8])))
  }

  ghost predicate EntryOk(kind: Kind, e: Entry, dd: Trees, pairs: Pairs, n: nat) {
    match kind
    case ApplyKind => ApplyEntry(e, dd)
    case IteKind => IteEntry(e, dd)
    case QuantKind => QuantEntry(e, dd)
    case AppexKind => AppexEntry(e, dd)
    case ReplaceKind => ReplaceEntry(e, dd, pairs)
    case MiscKind => MiscEntry(e, dd, n)
  }

  ghost predicate CacheOk(kind: Kind, c: Cache, dd: Trees, pairs: Pairs, n: nat) {
    && 0 < |c.table|
    && forall i {:trigger c.table[i]} :: 0 <= i < |c.table| ==>
         c.table[i].generation <= c.generation
         && (c.table[i].generation == c.generation ==> EntryOk(kind, c.table[i], dd, pairs, n))
  }

  ghost predicate CachesOk(c: Caches, dd: Trees, pairs: Pairs, n: nat) {
    && CacheOk(ApplyKind, c.apply, dd, pairs, n) && CacheOk(IteKind, c.ite, dd, pairs, n)
    && CacheOk(QuantKind, c.quant, dd, pairs, n) && CacheOk(AppexKind, c.appex, dd, pairs, n)
    && CacheOk(ReplaceKind, c.replace, dd, pairs, n) && CacheOk(MiscKind, c.misc, dd, pairs, n)
  }

  /** BddCache_reset. */
  function Reset(c: Cache): Cache { c.(generation := c.generation + 1) }

  /** bdd_operator_reset. */
  function ResetAll(c: Caches): Caches {
    Caches(Reset(c.apply), Reset(c.ite), Reset(c.quant), Reset(c.appex), Reset(c.replace), Reset(c.misc))
  }

  /** No entry is younger than its cache. */
  ghost predicate AgedCache(c: Cache) {
    0 < |c.table| && forall i {:trigger c.table[i]} :: 0 <= i < |c.table| ==> c.table[i].generation <= c.generation
  }

  ghost predicate Aged(c: Caches) {
    AgedCache(c.apply) && AgedCache(c.ite) && AgedCache(c.quant) && AgedCache(c.appex) && AgedCache(c.replace) && AgedCache(c.misc)
  }

  lemma Generations(c: Caches, dd: Trees, pairs: Pairs, n: nat)
    requires CachesOk(c, dd, pairs, n)
    ensures Aged(c)
  {
    hide EntryOk;
  }

  lemma ResetOk(kind: Kind, c: Cache, dd: Trees, pairs: Pairs, n: nat)
    requires AgedCache(c)
    ensures CacheOk(kind, Reset(c), dd, pairs, n)
  {
    hide EntryOk;
  }

  /** After a reset no entry is valid, whatever has become of the table. */
  lemma ResetAllOk(c: Caches, dd: Trees, pairs: Pairs, n: nat)
    requires Aged(c)
    ensures CachesOk(ResetAll(c), dd, pairs, n)
  {
    hide AgedCache, CacheOk;
    ResetOk(ApplyKind, c.apply, dd, pairs, n);
    ResetOk(IteKind, c.ite, dd, pairs, n);
    ResetOk(QuantKind, c.quant, dd, pairs, n);
    ResetOk(AppexKind, c.appex, dd, pairs, n);
    ResetOk(ReplaceKind, c.replace, dd, pairs, n);
    ResetOk(MiscKind, c.misc, dd, pairs, n);
  }

  ghost predicate Extends(dd: Trees, dd': Trees) {
    forall m {:trigger m in dd} {:trigger dd'[m]} :: m in dd ==> m in dd' && dd'[m] == dd[m]
  }

  /** A fresh pair id is named by no entry: the shared cache stays sound when it is given a meaning. */
  lemma FreshPair(c: Caches, dd: Trees, pairs: Pairs, n: nat, id: nat, sub: Subst)
    requires CachesOk(c, dd, pairs, n) && id !in pairs
    ensures CachesOk(c, dd, pairs[id := sub], n)
  {
    PairCache(ApplyKind, c.apply, dd, pairs, n, id, sub);
    PairCache(IteKind, c.ite, dd, pairs, n, id, sub);
    PairCache(QuantKind, c.quant, dd, pairs, n, id, sub);
    PairCache(AppexKind, c.appex, dd, pairs, n, id, sub);
    PairCache(ReplaceKind, c.replace, dd, pairs, n, id, sub);
    PairCache(MiscKind, c.misc, dd, pairs, n, id, sub);
  }

  lemma PairCache(kind: Kind, c: Cache, dd: Trees, pairs: Pairs, n: nat, id: nat, sub: Subst)
    requires CacheOk(kind, c, dd, pairs, n) && id !in pairs
    ensures CacheOk(kind, c, dd, pairs[id := sub], n)
  {
    hide ApplyEntry, IteEntry, QuantEntry, AppexEntry, MiscEntry;
    forall i | 0 <= i < |c.table| && c.table[i].generation == c.generation ensures EntryOk(kind, c.table[i], dd, pairs[id := sub], n) {
      assert EntryOk(kind, c.table[i], dd, pairs, n);
    }
  }

  lemma EntryGrow(kind: Kind, e: Entry, dd: Trees, pairs: Pairs, n: nat, dd': Trees)
    requires EntryOk(kind, e, dd, pairs, n) && Extends(dd, dd')
    ensures EntryOk(kind, e, dd', pairs, n)
  {
    hide Apply, Ite, Quant, Restrict, Compose, VecCompose, Rename, Renamable, Constrain, Simplify, CountRec, Not;
  }

  lemma CacheGrow(kind: Kind, c: Cache, dd: Trees, pairs: Pairs, n: nat, dd': Trees)
    requires CacheOk(kind, c, dd, pairs, n) && Extends(dd, dd')
    ensures CacheOk(kind, c, dd', pairs, n)
  {
    hide EntryOk, Extends;
    forall i | 0 <= i < |c.table| && c.table[i].generation == c.generation ensures EntryOk(kind, c.table[i], dd', pairs, n) {
      EntryGrow(kind, c.table[i], dd, pairs, n, dd');
    }
  }

  /** New nodes do not spoil an entry. */
  lemma CachesGrow(c: Caches, dd: Trees, pairs: Pairs, n: nat, dd': Trees)
    requires CachesOk(c, dd, pairs, n) && Extends(dd, dd')
    ensures CachesOk(c, dd', pairs, n)
  {
    hide CacheOk, Extends;
    CacheGrow(ApplyKind, c.apply, dd, pairs, n, dd');
    CacheGrow(IteKind, c.ite, dd, pairs, n, dd');
    CacheGrow(QuantKind, c.quant, dd, pairs, n, dd');
    CacheGrow(AppexKind, c.appex, dd, pairs, n, dd');
    CacheGrow(ReplaceKind, c.replace, dd, pairs, n, dd');
    CacheGrow(MiscKind, c.misc, dd, pairs, n, dd');
  }

  /* ---- what a step may do to the entries of one cache ---- */

  ghost predicate Valid(c: Cache, i: nat) { i < |c.table| && c.table[i].generation == c.generation }

  /** Whatever is valid now was valid before, for the same tree. */
  ghost predicate NoNews(c: Cache, dd: Trees, c': Cache, dd': Trees) {
    forall i: nat {:trigger Valid(c', i)} :: Valid(c', i) ==>
      && Valid(c, i) && c.table[i] == c'.table[i]
      && (c.table[i].a in dd ==> c.table[i].a in dd' && dd'[c.table[i].a] == dd[c.table[i].a])
  }

  lemma NoNewsGrow(c: Cache, dd: Trees, dd': Trees)
    requires Extends(dd, dd')
    ensures NoNews(c, dd, c, dd')
  {
  }

  lemma NoNewsReset(c: Cache, dd: Trees, dd': Trees)
    requires AgedCache(c)
    ensures NoNews(c, dd, Reset(c), dd')
  {
  }

  lemma NoNewsTrans(c: Cache, dd: Trees, c': Cache, dd': Trees, c'': Cache, dd'': Trees)
    requires NoNews(c, dd, c', dd') && NoNews(c', dd', c'', dd'')
    ensures NoNews(c, dd, c'', dd'')
  {
  }

  /** No valid entry is keyed by the id. */
  ghost predicate Unnamed(c: Cache, id: nat) {
    forall i: nat {:trigger Valid(c, i)} :: Valid(c, i) ==> c.table[i].c != id
  }

  /** A pair id that stands for nothing yet is named by no entry. */
  lemma FreshUnnamed(c: Cache, dd: Trees, pairs: Pairs, n: nat, id: nat)
    requires CacheOk(ReplaceKind, c, dd, pairs, n) && id !in pairs
    ensures Unnamed(c, ReplaceId(id, CACHEID_REPLACE))
  {
    ReplaceIdDecodes(id, CACHEID_REPLACE);
    hide RenamedEntry, ReplaceId;
    forall i: nat | Valid(c, i) ensures c.table[i].c != ReplaceId(id, CACHEID_REPLACE) {
      assert EntryOk(ReplaceKind, c.table[i], dd, pairs, n);
    }
  }

  /* ---- lookup and store ---- */

  /** Any hash will do, as long as it stays inside the table. */
  type Slot = (nat, nat, nat, nat) -> nat

  ghost predicate SlotInRange(slot: Slot) {
    forall size: nat, a: nat, b: nat, c: nat {:trigger slot(size, a, b, c)} :: 0 < size ==> slot(size, a, b, c) < size
  }

  function Hit(c: Cache, slot: Slot, a: nat, b: nat, d: nat): (e: Entry)
    requires 0 < |c.table| && slot(|c.table|, a, b, d) < |c.table|
  {
    c.table[slot(|c.table|, a, b, d)]
  }

  function Stored(c: Cache, i: nat, e: Entry): Cache
    requires i < |c.table|
  {
    c.(table := c.table[i := e.(generation := c.generation)])
  }

  lemma StoredOk(kind: Kind, c: Cache, i: nat, e: Entry, dd: Trees, pairs: Pairs, n: nat)
    requires CacheOk(kind, c, dd, pairs, n) && i < |c.table| && EntryOk(kind, e.(generation := c.generation), dd, pairs, n)
    ensures CacheOk(kind, Stored(c, i, e), dd, pairs, n)
  {
    hide EntryOk;
  }
}
