/**
  Saving and loading a diagram (bddio.c), on parsed node lines. The lines may
  come in any order, under any current variable order.
*/
module Loader {
  import opened Dd
  import opened DdOps
  import opened LoadTable
  import Threads
  import TableState

  /** A node line: id[var] low high. */
  datatype Line = Line(key: nat, v: int, low: int, high: int)

  /** What an id of the file stands for, as a function of the variables. */
  datatype VarTree = VarLeaf(value: bool) | VarNode(v: nat, lo: VarTree, hi: VarTree)

  /** A value for every variable. */
  type VarAssign = nat -> bool

  function VarEval(t: VarTree, b: VarAssign): bool {
    match t
    case VarLeaf(v) => v
    case VarNode(v, lo, hi) => if b(v) then VarEval(hi, b) else VarEval(lo, b)
  }

  /** The current order: a permutation and its inverse. */
  ghost predicate Order(level2var: seq<nat>, var2level: seq<nat>) {
    && |level2var| == |var2level|
    && (forall v {:trigger var2level[v]} :: 0 <= v < |var2level| ==> var2level[v] < |level2var| && level2var[var2level[v]] == v)
  }

  /** The values of the levels when the variables have the values b. */
  function Levels(level2var: seq<nat>, b: VarAssign): Assign {
    (l: nat) => l < |level2var| && b(level2var[l])
  }

  /** d, under the current order, is the function t. */
  ghost predicate Denotes(d: Dd, t: VarTree, level2var: seq<nat>) {
    Robdd(d) && forall b: VarAssign {:trigger Levels(level2var, b)} :: Eval(d, Levels(level2var, b)) == VarEval(t, b)
  }

  ghost predicate DistinctKeys(lines: seq<Line>) {
    forall i, j {:trigger lines[i], lines[j]} :: 0 <= i < j < |lines| ==> lines[i].key != lines[j].key
  }

  type Meaning = map<nat, VarTree>

  function Child(m: Meaning, c: int): VarTree {
    if 0 <= c < 2 then VarLeaf(c == 1) else if 2 <= c && c in m then m[c] else VarLeaf(false)
  }

  ghost predicate Referable(m: Meaning, c: int) { 0 <= c < 2 || (2 <= c && c in m) }

  /** m gives the meaning of every id of the file. */
  ghost predicate Means(lines: seq<Line>, m: Meaning) {
    forall l {:trigger l in lines} :: l in lines ==>
      && 0 <= l.v && l.key in m && Referable(m, l.low) && Referable(m, l.high)
      && m[l.key] == VarNode(l.v, Child(m, l.low), Child(m, l.high))
  }

  /** What a reference of a line has as value, and what the line has: id 0 is false, id 1 true, low is for a false variable. */
  lemma {:induction false} LineValue(lines: seq<Line>, m: Meaning, l: Line, b: VarAssign)
    requires Means(lines, m) && l in lines
    ensures l.key in m && 0 <= l.v
    ensures var c := if b(l.v) then l.high else l.low;
            && 0 <= c
            && (c == 0 ==> !VarEval(m[l.key], b)) && (c == 1 ==> VarEval(m[l.key], b))
            && (2 <= c ==> c in m && VarEval(m[l.key], b) == VarEval(m[c as nat], b))
  {
  }

  ghost predicate Listed(lines: seq<Line>, c: int) { exists l {:trigger l in lines} :: l in lines && l.key == c }

  /** A reference that can never be resolved while the keys of u are not. */
  ghost predicate Blocked(lines: seq<Line>, u: set<nat>, c: int) { c < 0 || (2 <= c && (c in u || !Listed(lines, c))) }

  /** Lines that wait for each other, or for nothing listed. */
  ghost predicate Stuck(lines: seq<Line>, u: set<nat>) {
    && u != {}
    && (forall k {:trigger k in u} :: k in u ==> Listed(lines, k))
    && (forall l {:trigger l in lines} :: l in lines && l.key in u ==> Blocked(lines, u, l.low) || Blocked(lines, u, l.high))
  }

  /* ---- the loader ---- */

  /** What a reference resolves to so far. */
  function Handle(entries: map<nat, Dd>, c: int): Option<Dd> {
    if c < 0 then None else if c < 2 then Some(Leaf(c == 1)) else if c in entries then Some(entries[c]) else None
  }

  function IthVar(var2level: seq<nat>, v: nat): Dd
    requires v < |var2level|
  {
    Node(var2level[v], Leaf(false), Leaf(true))
  }

  /** The diagram of a line over the diagrams of its children. */
  function Build(var2level: seq<nat>, l: Line, low: Dd, high: Dd): Dd
    requires 0 <= l.v < |var2level|
  {
    Ite(IthVar(var2level, l.v), high, low)
  }

  lemma {:induction false} BuildDenotes(level2var: seq<nat>, var2level: seq<nat>, l: Line, low: Dd, high: Dd, lo: VarTree, hi: VarTree)
    requires Order(level2var, var2level) && 0 <= l.v < |var2level| && Denotes(low, lo, level2var) && Denotes(high, hi, level2var)
    ensures Denotes(Build(var2level, l, low, high), VarNode(l.v, lo, hi), level2var)
  {
    hide Ite;
    var x := IthVar(var2level, l.v);
    assert Robdd(x);
    IteMeans(x, high, low);
    forall b: VarAssign ensures Eval(Build(var2level, l, low, high), Levels(level2var, b)) == VarEval(VarNode(l.v, lo, hi), b) {
      var a := Levels(level2var, b);
      assert Eval(x, a) == b(l.v);
    }
  }

  /** Every entry is the function its line denotes, for whatever meaning the file has. */
  ghost predicate Right(lines: seq<Line>, level2var: seq<nat>, entries: map<nat, Dd>) {
    forall m: Meaning, k: nat {:trigger Means(lines, m), k in entries} :: Means(lines, m) && k in entries ==> k in m && Denotes(entries[k], m[k], level2var)
  }

  ghost predicate Good(entries: map<nat, Dd>) {
    forall k {:trigger k in entries} :: k in entries ==> Robdd(entries[k])
  }

  /** No key of a stuck set is ever resolved. */
  ghost predicate Free(lines: seq<Line>, entries: map<nat, Dd>) {
    forall u: set<nat>, k: nat {:trigger Stuck(lines, u), k in entries} :: Stuck(lines, u) && k in entries ==> k !in u
  }

  /** The lines seen so far are resolved or waiting. */
  ghost predicate Sorted(lines: seq<Line>, seen: nat, entries: map<nat, Dd>, waiting: seq<Line>) {
    && seen <= |lines|
    && (forall i {:trigger lines[i]} :: 0 <= i < seen ==> lines[i].key in entries || lines[i] in waiting)
    && (forall l {:trigger l in waiting} :: l in waiting ==> l in lines && l.key !in entries && 0 <= l.v)
    && (forall k {:trigger k in entries} :: k in entries ==> Listed(lines, k))
    && DistinctKeys(waiting)
    && (forall l {:trigger l in waiting} :: l in waiting ==> forall i {:trigger lines[i]} :: seen <= i < |lines| ==> lines[i].key != l.key)
    && (forall i {:trigger lines[i]} :: seen <= i < |lines| ==> lines[i].key !in entries)
  }

  /** `root` is the diagram of the key resolved last, and no resolved line refers to that key. */
  ghost predicate Last(lines: seq<Line>, entries: map<nat, Dd>, root: Dd, last: nat) {
    && (entries != map[] ==> last in entries && root == entries[last])
    && (forall l {:trigger l in lines} :: l in lines && l.key in entries ==> l.low != last && l.high != last)
    && (forall l {:trigger l in lines} :: l in lines && l.key in entries ==> Handle(entries, l.low).Some? && Handle(entries, l.high).Some?)
  }

  ghost predicate State(lines: seq<Line>, level2var: seq<nat>, seen: nat, entries: map<nat, Dd>, waiting: seq<Line>, root: Dd, last: nat) {
    && Sorted(lines, seen, entries, waiting) && Right(lines, level2var, entries) && Good(entries) && Free(lines, entries)
    && Last(lines, entries, root, last)
  }

  /** The references of a line, looked up. */
  method Look(h: LoadHash, c: int) returns (d: Option<Dd>)
    requires h.Valid()
    ensures d == Handle(h.entries, c)
  {
    if c < 0 {
      return None;
    }
    if c >= 2 {
      d := h.Get(c);
      return;
    }
    return Some(Leaf(c == 1));
  }

  /** Resolving one line keeps everything. */
  lemma {:induction false} ResolveStep(lines: seq<Line>, level2var: seq<nat>, var2level: seq<nat>, entries: map<nat, Dd>, l: Line, low: Dd, high: Dd)
    requires DistinctKeys(lines) && Order(level2var, var2level) && l in lines && 0 <= l.v < |var2level| && l.key !in entries && l.key >= 2
    requires Handle(entries, l.low) == Some(low) && Handle(entries, l.high) == Some(high)
    requires Right(lines, level2var, entries) && Good(entries) && Free(lines, entries)
    requires forall k {:trigger k in entries} :: k in entries ==> Listed(lines, k)
    requires forall l {:trigger l in lines} :: l in lines && l.key in entries ==> Handle(entries, l.low).Some? && Handle(entries, l.high).Some?
    ensures var d := Build(var2level, l, low, high); var entries' := entries[l.key := d];
            && Right(lines, level2var, entries') && Good(entries') && Free(lines, entries') && Last(lines, entries', d, l.key)
  {
    ResolveRight(lines, level2var, var2level, entries, l, low, high);
    ResolveFree(lines, entries, l, low, high, Build(var2level, l, low, high));
    ResolveLast(lines, entries, l, Build(var2level, l, low, high));
  }

  lemma {:induction false} HandleDenotes(lines: seq<Line>, level2var: seq<nat>, entries: map<nat, Dd>, m: Meaning, c: int, d: Dd)
    requires Right(lines, level2var, entries) && Means(lines, m) && Handle(entries, c) == Some(d)
    ensures Denotes(d, Child(m, c), level2var)
  {
    hide Means;
    if 2 <= c { assert (c as nat) in entries; }
  }

  lemma {:induction false} ResolveRight(lines: seq<Line>, level2var: seq<nat>, var2level: seq<nat>, entries: map<nat, Dd>, l: Line, low: Dd, high: Dd)
    requires Order(level2var, var2level) && l in lines && 0 <= l.v < |var2level|
    requires Handle(entries, l.low) == Some(low) && Handle(entries, l.high) == Some(high)
    requires Right(lines, level2var, entries) && Good(entries)
    ensures var entries' := entries[l.key := Build(var2level, l, low, high)]; Right(lines, level2var, entries') && Good(entries')
  {
    var d := Build(var2level, l, low, high);
    var entries' := entries[l.key := d];
    assert Robdd(d) by {
      hide Ite;
      assert Robdd(low) && Robdd(high) && Robdd(IthVar(var2level, l.v));
      IteMeans(IthVar(var2level, l.v), high, low);
    }
    hide Build, Denotes, Robdd;
    forall m: Meaning, k: nat | Means(lines, m) && k in entries' ensures k in m && Denotes(entries'[k], m[k], level2var) {
      if k == l.key {
        HandleDenotes(lines, level2var, entries, m, l.low, low);
        HandleDenotes(lines, level2var, entries, m, l.high, high);
        BuildDenotes(level2var, var2level, l, low, high, Child(m, l.low), Child(m, l.high));
        assert l in lines;
      } else {
        assert k in entries;
      }
    }
  }

  lemma {:induction false} ResolveFree(lines: seq<Line>, entries: map<nat, Dd>, l: Line, low: Dd, high: Dd, d: Dd)
    requires l in lines && Handle(entries, l.low) == Some(low) && Handle(entries, l.high) == Some(high) && Free(lines, entries)
    requires forall k {:trigger k in entries} :: k in entries ==> Listed(lines, k)
    ensures Free(lines, entries[l.key := d])
  {
    hide Listed;
    forall u: set<nat>, k: nat | Stuck(lines, u) && k in entries[l.key := d] ensures k !in u {
      if k == l.key {
        NotBlocked(lines, entries, u, l.low);
        NotBlocked(lines, entries, u, l.high);
        assert l in lines;
      } else {
        assert k in entries;
      }
    }
  }

  lemma {:induction false} NotBlocked(lines: seq<Line>, entries: map<nat, Dd>, u: set<nat>, c: int)
    requires Stuck(lines, u) && Free(lines, entries) && Handle(entries, c).Some?
    requires forall k {:trigger k in entries} :: k in entries ==> Listed(lines, k)
    ensures !Blocked(lines, u, c)
  {
    hide Stuck, Listed;
    if 2 <= c { assert (c as nat) in entries; }
  }

  lemma {:induction false} ResolveLast(lines: seq<Line>, entries: map<nat, Dd>, l: Line, d: Dd)
    requires DistinctKeys(lines) && l in lines && l.key !in entries && l.key >= 2 && Handle(entries, l.low).Some? && Handle(entries, l.high).Some?
    requires forall l {:trigger l in lines} :: l in lines && l.key in entries ==> Handle(entries, l.low).Some? && Handle(entries, l.high).Some?
    ensures Last(lines, entries[l.key := d], d, l.key)
  {
    forall l' | l' in lines && l'.key in entries[l.key := d]
      ensures l'.low != l.key && l'.high != l.key
      ensures Handle(entries[l.key := d], l'.low).Some? && Handle(entries[l.key := d], l'.high).Some?
    {
      if l'.key == l.key {
        var i :| 0 <= i < |lines| && lines[i] == l;
        var j :| 0 <= j < |lines| && lines[j] == l';
        assert i == j;
      }
    }
  }

  /** What every file must have for its lines to be read at all. */
  ghost predicate Readable(lines: seq<Line>, var2level: seq<nat>) {
    DistinctKeys(lines) && forall l {:trigger l in lines} :: l in lines ==> 2 <= l.key && l.v < |var2level|
  }

  /** un_nodes after the entry i is processed: the last one takes its place. */
  function Removed(un: seq<Line>, i: nat): seq<Line>
    requires i < |un|
  {
    if i == |un| - 1 then un[..i] else un[i := un[|un| - 1]][..|un| - 1]
  }

  lemma {:induction false} RemovedLines(un: seq<Line>, i: nat)
    requires i < |un| && DistinctKeys(un)
    ensures DistinctKeys(Removed(un, i)) && un[i] !in Removed(un, i)
    ensures forall l {:trigger l in Removed(un, i)} :: l in Removed(un, i) <==> l in un && l.key != un[i].key
    ensures forall j {:trigger Removed(un, i)[j]} :: 0 <= j < i ==> Removed(un, i)[j] == un[j]
  {
    var r, n := Removed(un, i), |un| - 1;
    forall j | 0 <= j < |r| ensures r[j] == if j == i then un[n] else un[j] {
    }
    forall l ensures l in r <==> l in un && l.key != un[i].key {
      if l in un && l.key != un[i].key {
        var j :| 0 <= j < |un| && un[j] == l;
        if j == n { assert r[i] == l; } else { assert r[j] == l; }
      }
      if l in r {
        var j :| 0 <= j < |r| && r[j] == l;
        assert un[if j == i then n else j] == l;
      }
    }
  }

  lemma {:induction false} SortedResolve(lines: seq<Line>, seen: nat, entries: map<nat, Dd>, un: seq<Line>, i: nat, d: Dd)
    requires Sorted(lines, seen, entries, un) && i < |un|
    ensures Sorted(lines, seen, entries[un[i].key := d], Removed(un, i))
  {
    RemovedLines(un, i);
    var l, entries' := un[i], entries[un[i].key := d];
    assert l in un;
    forall j | 0 <= j < seen ensures lines[j].key in entries' || lines[j] in Removed(un, i) {
      assert lines[j].key in entries || lines[j] in un;
    }
    forall k | k in entries' ensures Listed(lines, k) {
      if k == l.key { assert l in lines; }
    }
  }

  /** One entry of the resolve loop. */
  method ResolveOne(h: LoadHash, un: seq<Line>, i: nat, root: Dd, ghost last: nat, var2level: seq<nat>, ghost level2var: seq<nat>, ghost lines: seq<Line>, ghost seen: nat)
    returns (done: bool, root': Dd, ghost last': nat)
    requires h.Valid() && i < |un| && State(lines, level2var, seen, h.entries, un, root, last) && Readable(lines, var2level) && Order(level2var, var2level)
    modifies h
    ensures h.Valid() && done == (Handle(old(h.entries), un[i].low).Some? && Handle(old(h.entries), un[i].high).Some?)
    ensures State(lines, level2var, seen, h.entries, if done then Removed(un, i) else un, root', last')
    ensures !done ==> h.entries == old(h.entries)
  {
    hide Right, Good, Free, LoadHash.Valid, Build, DistinctKeys;
    var toresolve := un[i];
    assert toresolve in un;
    var lowH := Look(h, toresolve.low);
    var highH := Look(h, toresolve.high);
    if lowH.None? || highH.None? {
      return false, root, last;
    }
    assert toresolve in lines;
    root' := Build(var2level, toresolve, lowH.value, highH.value);
    last' := toresolve.key;
    ResolveStep(lines, level2var, var2level, h.entries, toresolve, lowH.value, highH.value);
    SortedResolve(lines, seen, h.entries, un, i, root');
    h.Add(toresolve.key, root');
    done := true;
  }

  /** Some reference of the line is still unresolved. */
  ghost predicate Waits(entries: map<nat, Dd>, l: Line) {
    Handle(entries, l.low).None? || Handle(entries, l.high).None?
  }

  /** resolve_nodes: one pass over the waiting lines; when it resolves none, all of them wait. */
  method ResolveNodes(h: LoadHash, un0: seq<Line>, root0: Dd, ghost last0: nat, var2level: seq<nat>, ghost level2var: seq<nat>, ghost lines: seq<Line>, ghost seen: nat)
    returns (un: seq<Line>, root: Dd, ghost last: nat)
    requires h.Valid() && State(lines, level2var, seen, h.entries, un0, root0, last0) && Readable(lines, var2level) && Order(level2var, var2level)
    modifies h
    ensures h.Valid() && State(lines, level2var, seen, h.entries, un, root, last) && |un| <= |un0|
    ensures |un| == |un0| ==> forall l {:trigger l in un} :: l in un ==> Waits(h.entries, l)
  {
    hide State, LoadHash.Valid, Waits, Handle, Readable;
    un, root, last := un0, root0, last0;
    var i := 0;
    while i < |un|
      invariant i <= |un| <= |un0| && h.Valid() && State(lines, level2var, seen, h.entries, un, root, last)
      invariant |un| == |un0| ==> forall j {:trigger un[j]} :: 0 <= j < i ==> Waits(h.entries, un[j])
      decreases |un| - i
    {
      var done;
      done, root, last := ResolveOne(h, un, i, root, last, var2level, level2var, lines, seen);
      if done {
        un := Removed(un, i);
      } else {
        WaitsIf(h.entries, un[i]);
        i := i + 1;
      }
    }
  }

  lemma {:induction false} WaitsIf(entries: map<nat, Dd>, l: Line)
    ensures Waits(entries, l) <==> !(Handle(entries, l.low).Some? && Handle(entries, l.high).Some?)
  {
  }

  /** One more line, waiting. */
  lemma {:induction false} SortedWait(lines: seq<Line>, seen: nat, entries: map<nat, Dd>, un: seq<Line>)
    requires Sorted(lines, seen, entries, un) && seen < |lines| && DistinctKeys(lines) && 0 <= lines[seen].v
    ensures Sorted(lines, seen + 1, entries, un + [lines[seen]])
  {
    var l, un' := lines[seen], un + [lines[seen]];
    forall i | 0 <= i < seen + 1 ensures lines[i].key in entries || lines[i] in un' {
      if i < seen && lines[i].key !in entries { assert lines[i] in un; } else { assert i == seen ==> un'[|un|] == l; }
    }
    forall l' | l' in un' ensures l' in lines && l'.key !in entries && 0 <= l'.v {
      assert l' in un || l' == l;
    }
    forall l' | l' in un' ensures forall i :: seen + 1 <= i < |lines| ==> lines[i].key != l'.key {
      assert l' in un || l' == l;
    }
    forall i, j | 0 <= i < j < |un'| ensures un'[i].key != un'[j].key {
      if j == |un| { assert un[i] in un; }
    }
  }

  /** One more line, resolved at once. */
  lemma {:induction false} SortedAtOnce(lines: seq<Line>, seen: nat, entries: map<nat, Dd>, un: seq<Line>, d: Dd)
    requires Sorted(lines, seen, entries, un) && seen < |lines| && DistinctKeys(lines) && 0 <= lines[seen].v
    ensures Sorted(lines, seen + 1, entries[lines[seen].key := d], un) && lines[seen].key !in entries
  {
    SortedWait(lines, seen, entries, un);
    var un' := un + [lines[seen]];
    assert un'[|un|] == lines[seen];
    SortedResolve(lines, seen + 1, entries, un', |un|, d);
    assert Removed(un', |un|) == un;
  }

  /**
    bdd_loaddata: it fails exactly when a variable number is negative or some
    lines can never be resolved; otherwise the result is the diagram of the
    line resolved last, and every listed id has the function its lines denote.
  */
  method LoadData(h: LoadHash, lines: seq<Line>, var2level: seq<nat>, ghost level2var: seq<nat>)
    returns (ok: bool, root: Dd, ghost last: nat)
    requires h.Valid() && h.entries == map[] && Readable(lines, var2level) && Order(level2var, var2level)
    modifies h
    ensures h.Valid()
    ensures ok <==> (forall l {:trigger l in lines} :: l in lines ==> 0 <= l.v) && forall u: set<nat> {:trigger Stuck(lines, u)} :: !Stuck(lines, u)
    ensures ok ==> (forall l {:trigger l in lines} :: l in lines ==> l.key in h.entries) && Right(lines, level2var, h.entries) && Good(h.entries)
    ensures ok ==> Last(lines, h.entries, root, last) && forall k {:trigger k in h.entries} :: k in h.entries ==> Listed(lines, k)
  {
    hide Right, Good, Free, LoadHash.Valid, Build, Last, Sorted, DistinctKeys, Order;
    root := Leaf(false);
    last := 0;
    var un: seq<Line> := [];
    StartState(lines, level2var, root);
    var n := 0;
    while n < |lines|
      invariant n <= |lines| && h.Valid() && State(lines, level2var, n, h.entries, un, root, last)
      invariant forall i {:trigger lines[i]} :: 0 <= i < n ==> 0 <= lines[i].v
    {
      var l := lines[n];
      assert l in lines;
      var lowH := Look(h, l.low);
      var highH := Look(h, l.high);
      if l.v < 0 {
        return false, root, last;
      }
      if highH.None? || lowH.None? {
        SortedWait(lines, n, h.entries, un);
        un := un + [l];
      } else {
        root := Build(var2level, l, lowH.value, highH.value);
        last := l.key;
        StateFacts(lines, level2var, n, h.entries, un);
        SortedAtOnce(lines, n, h.entries, un, root);
        ResolveStep(lines, level2var, var2level, h.entries, l, lowH.value, highH.value);
        h.Add(l.key, root);
        un, root, last := ResolveNodes(h, un, root, last, var2level, level2var, lines, n + 1);
      }
      n := n + 1;
    }
    ok, root, last := Finish(h, un, root, last, var2level, level2var, lines);
  }

  lemma {:induction false} StartState(lines: seq<Line>, level2var: seq<nat>, root: Dd)
    ensures State(lines, level2var, 0, map[], [], root, 0)
  {
  }

  lemma {:induction false} StateFacts(lines: seq<Line>, level2var: seq<nat>, seen: nat, entries: map<nat, Dd>, un: seq<Line>)
    requires exists root, last :: State(lines, level2var, seen, entries, un, root, last)
    ensures forall k {:trigger k in entries} :: k in entries ==> Listed(lines, k)
    ensures forall l {:trigger l in lines} :: l in lines && l.key in entries ==> Handle(entries, l.low).Some? && Handle(entries, l.high).Some?
  {
  }

  /** The last loop of bdd_loaddata: passes until nothing waits, or one resolves nothing. */
  method Finish(h: LoadHash, un0: seq<Line>, root0: Dd, ghost last0: nat, var2level: seq<nat>, ghost level2var: seq<nat>, lines: seq<Line>)
    returns (ok: bool, root: Dd, ghost last: nat)
    requires h.Valid() && State(lines, level2var, |lines|, h.entries, un0, root0, last0) && Readable(lines, var2level) && Order(level2var, var2level)
    requires forall i {:trigger lines[i]} :: 0 <= i < |lines| ==> 0 <= lines[i].v
    modifies h
    ensures h.Valid() && (ok <==> forall u: set<nat> {:trigger Stuck(lines, u)} :: !Stuck(lines, u))
    ensures ok ==> (forall l {:trigger l in lines} :: l in lines ==> l.key in h.entries) && Right(lines, level2var, h.entries) && Good(h.entries)
    ensures ok ==> Last(lines, h.entries, root, last) && forall k {:trigger k in h.entries} :: k in h.entries ==> Listed(lines, k)
  {
    hide Right, Good, Free, LoadHash.Valid, Last, Sorted, DistinctKeys, Order, Waits, Stuck;
    var un := un0;
    root, last := root0, last0;
    while |un| != 0
      invariant h.Valid() && State(lines, level2var, |lines|, h.entries, un, root, last)
      decreases |un|
    {
      var preunresolved := |un|;
      un, root, last := ResolveNodes(h, un, root, last, var2level, level2var, lines, |lines|);
      if preunresolved == |un| {
        StuckLeft(lines, level2var, h.entries, un, root, last);
        break;
      }
    }
    if |un| != 0 {
      return false, root, last;
    }
    AllResolved(lines, h.entries);
    return true, root, last;
  }

  lemma {:induction false} AllResolved(lines: seq<Line>, entries: map<nat, Dd>)
    requires Sorted(lines, |lines|, entries, []) && Free(lines, entries)
    ensures forall l {:trigger l in lines} :: l in lines ==> l.key in entries
    ensures forall u: set<nat> {:trigger Stuck(lines, u)} :: !Stuck(lines, u)
    ensures forall k {:trigger k in entries} :: k in entries ==> Listed(lines, k)
  {
    forall l | l in lines ensures l.key in entries {
      var i :| 0 <= i < |lines| && lines[i] == l;
    }
    forall u: set<nat> ensures !Stuck(lines, u) {
      if u != {} && forall k {:trigger k in u} :: k in u ==> Listed(lines, k) {
        var k :| k in u;
        var l :| l in lines && l.key == k;
        assert k in entries;
      }
    }
  }

  /** Lines left over after a pass without progress are stuck. */
  lemma {:induction false} StuckLeft(lines: seq<Line>, level2var: seq<nat>, entries: map<nat, Dd>, un: seq<Line>, root: Dd, last: nat)
    requires un != [] && State(lines, level2var, |lines|, entries, un, root, last) && DistinctKeys(lines)
    requires forall l {:trigger l in un} :: l in un ==> Waits(entries, l)
    ensures exists u: set<nat> {:trigger Stuck(lines, u)} :: Stuck(lines, u)
  {
    var u := set l | l in un :: l.key;
    assert un[0] in un && un[0].key in u;
    forall k | k in u ensures Listed(lines, k) {
      var l :| l in un && l.key == k;
      assert l in lines;
    }
    forall l | l in lines && l.key in u ensures Blocked(lines, u, l.low) || Blocked(lines, u, l.high) {
      var l' :| l' in un && l'.key == l.key;
      SameLine(lines, l, l');
      assert Waits(entries, l);
      BlockedLeft(lines, entries, un, u, l.low);
      BlockedLeft(lines, entries, un, u, l.high);
    }
    assert Stuck(lines, u);
  }

  lemma {:induction false} SameLine(lines: seq<Line>, l: Line, l': Line)
    requires DistinctKeys(lines) && l in lines && l' in lines && l.key == l'.key
    ensures l == l'
  {
    var i :| 0 <= i < |lines| && lines[i] == l;
    var j :| 0 <= j < |lines| && lines[j] == l';
  }

  lemma {:induction false} BlockedLeft(lines: seq<Line>, entries: map<nat, Dd>, un: seq<Line>, u: set<nat>, c: int)
    requires Sorted(lines, |lines|, entries, un) && u == (set l | l in un :: l.key)
    ensures Handle(entries, c).None? ==> Blocked(lines, u, c)
  {
    if 2 <= c && c !in entries && Listed(lines, c) {
      var l :| l in lines && l.key == c;
      var i :| 0 <= i < |lines| && lines[i] == l;
      assert l in un;
    }
  }

  /* ---- saving ---- */

  /** The line of node n. */
  ghost predicate LineOf(nodes: seq<Threads.BddNode>, dd: TableState.Trees, level2var: seq<nat>, l: Line) {
    && 2 <= l.key && TableState.Fits(nodes, dd, l.key)
    && nodes[l.key].level < |level2var| && l.v == level2var[nodes[l.key].level]
    && l.low == nodes[l.key].low && l.high == nodes[l.key].high
  }

  /** Every line is the line of its node, all references are to listed nodes, and every node but the root is referred to. */
  ghost predicate Saved(nodes: seq<Threads.BddNode>, dd: TableState.Trees, level2var: seq<nat>, root: nat, lines: seq<Line>) {
    && DistinctKeys(lines) && Listed(lines, root)
    && (forall l {:trigger l in lines} :: l in lines ==>
          && LineOf(nodes, dd, level2var, l)
          && (2 <= l.low ==> Listed(lines, l.low)) && (2 <= l.high ==> Listed(lines, l.high))
          && (l.key == root || Referred(lines, l.key)))
  }

  ghost predicate Referred(lines: seq<Line>, key: nat) {
    exists l {:trigger l in lines} :: l in lines && (l.low == key || l.high == key)
  }

  /** What bdd_save_rec adds: a line for every newly marked node, children before parents. */
  ghost predicate Added(nodes: seq<Threads.BddNode>, dd: TableState.Trees, level2var: seq<nat>, root: nat, marked0: set<nat>, marked: set<nat>, lines: seq<Line>) {
    && marked0 <= marked && (2 <= root ==> root in marked) && DistinctKeys(lines)
    && (forall k {:trigger k in marked} :: k in marked && k !in marked0 ==> Listed(lines, k))
    && (forall l {:trigger l in lines} :: l in lines ==>
          && LineOf(nodes, dd, level2var, l) && l.key in marked && l.key !in marked0
          && (2 <= l.low ==> l.low in marked) && (2 <= l.high ==> l.high in marked)
          && (l.key == root || Referred(lines, l.key)))
  }

  /** What the table and the order owe a save. */
  ghost predicate Savable(nodes: seq<Threads.BddNode>, dd: TableState.Trees, level2var: seq<nat>) {
    && TableState.Canon(dd) && TableState.Recorded(nodes, dd)
    && forall n {:trigger dd[n]} :: n in dd && dd[n].Node? ==> dd[n].level < |level2var|
  }

  /** bdd_save_rec; `marked` are the nodes with their mark set. */
  method SaveRec(nodes: seq<Threads.BddNode>, ghost dd: TableState.Trees, level2var: seq<nat>, root: nat, marked0: set<nat>)
    returns (marked: set<nat>, lines: seq<Line>)
    requires Savable(nodes, dd, level2var) && root in dd
    ensures Added(nodes, dd, level2var, root, marked0, marked, lines)
    decreases dd[root]
  {
    hide TableState.Canon, Added, TableState.Recorded;
    if root < 2 || root in marked0 {
      NothingAdded(nodes, dd, level2var, root, marked0);
      return marked0, [];
    }
    NodeFacts(nodes, dd, level2var, root);
    var low, high;
    marked, low := SaveRec(nodes, dd, level2var, nodes[root].low, marked0 + {root});
    ghost var marked1 := marked;
    marked, high := SaveRec(nodes, dd, level2var, nodes[root].high, marked);
    lines := low + high + [Line(root, level2var[nodes[root].level], nodes[root].low, nodes[root].high)];
    AddedNode(nodes, dd, level2var, root, marked0, marked1, marked, low, high);
  }

  lemma {:induction false} NothingAdded(nodes: seq<Threads.BddNode>, dd: TableState.Trees, level2var: seq<nat>, root: nat, marked0: set<nat>)
    requires root < 2 || root in marked0
    ensures Added(nodes, dd, level2var, root, marked0, marked0, [])
  {
  }

  lemma {:induction false} NodeFacts(nodes: seq<Threads.BddNode>, dd: TableState.Trees, level2var: seq<nat>, n: nat)
    requires Savable(nodes, dd, level2var) && n in dd && 2 <= n
    ensures TableState.Fits(nodes, dd, n) && n < |nodes| && nodes[n].level < |level2var|
  {
  }

  lemma {:induction false} AddedNode(nodes: seq<Threads.BddNode>, dd: TableState.Trees, level2var: seq<nat>, root: nat,
                                     marked0: set<nat>, marked1: set<nat>, marked: set<nat>, low: seq<Line>, high: seq<Line>)
    requires 2 <= root < |nodes| && root !in marked0 && TableState.Fits(nodes, dd, root) && nodes[root].level < |level2var|
    requires Added(nodes, dd, level2var, nodes[root].low, marked0 + {root}, marked1, low)
    requires Added(nodes, dd, level2var, nodes[root].high, marked1, marked, high)
    ensures Added(nodes, dd, level2var, root, marked0, marked, low + high + [Line(root, level2var[nodes[root].level], nodes[root].low, nodes[root].high)])
  {
    hide TableState.Fits;
    var l0 := Line(root, level2var[nodes[root].level], nodes[root].low, nodes[root].high);
    var lines := low + high + [l0];
    assert lines[|low| + |high|] == l0;
    assert LineOf(nodes, dd, level2var, l0);
    forall l ensures l in lines <==> l in low || l in high || l == l0 {
      InThree(low, high, l0, l);
    }
    hide LineOf;
    forall k | k in marked && k !in marked0 ensures Listed(lines, k) {
      if k == root {
        assert l0 in lines;
      } else if k in marked1 {
        var l :| l in low && l.key == k;
        assert l in lines;
      } else {
        var l :| l in high && l.key == k;
        assert l in lines;
      }
    }
    forall l | l in lines ensures l.key == root || Referred(lines, l.key) {
      if l in low {
        ReferredMore(low, lines, l.key, nodes[root].low, l0);
      } else if l in high {
        ReferredMore(high, lines, l.key, nodes[root].high, l0);
      }
    }
    ThreeDistinct(low, high, l0, marked0 + {root}, marked1);
  }

  lemma {:induction false} InThree(low: seq<Line>, high: seq<Line>, l0: Line, l: Line)
    ensures l in low + high + [l0] <==> l in low || l in high || l == l0
  {
  }

  lemma {:induction false} ReferredMore(part: seq<Line>, lines: seq<Line>, key: nat, child: int, l0: Line)
    requires key == child || Referred(part, key)
    requires l0 in lines && (l0.low == child || l0.high == child) && forall l {:trigger l in part} :: l in part ==> l in lines
    ensures Referred(lines, key)
  {
    if key != child {
      var l :| l in part && (l.low == key || l.high == key);
      assert l in lines;
    }
  }

  lemma {:induction false} ThreeDistinct(low: seq<Line>, high: seq<Line>, l0: Line, marked0: set<nat>, marked1: set<nat>)
    requires DistinctKeys(low) && DistinctKeys(high) && l0.key in marked0 && marked0 <= marked1
    requires forall l {:trigger l in low} :: l in low ==> l.key !in marked0 && l.key in marked1
    requires forall l {:trigger l in high} :: l in high ==> l.key !in marked1
    ensures DistinctKeys(low + high + [l0])
  {
    var lines := low + high + [l0];
    forall i, j | 0 <= i < j < |lines| ensures lines[i].key != lines[j].key {
      assert i < |low| ==> lines[i] == low[i] && low[i] in low;
      assert |low| <= i < |low| + |high| ==> lines[i] == high[i - |low|] && high[i - |low|] in high;
      assert j < |low| ==> lines[j] == low[j];
      assert |low| <= j < |low| + |high| ==> lines[j] == high[j - |low|] && high[j - |low|] in high;
    }
  }

  /** bdd_save of a node that is no constant. */
  method Save(nodes: seq<Threads.BddNode>, ghost dd: TableState.Trees, level2var: seq<nat>, root: nat) returns (lines: seq<Line>)
    requires Savable(nodes, dd, level2var) && root in dd && 2 <= root
    ensures Saved(nodes, dd, level2var, root, lines)
  {
    var marked;
    marked, lines := SaveRec(nodes, dd, level2var, root, {});
  }

  /* ---- the round trip ---- */

  /** A diagram as a function of the variables. */
  function AsVars(d: Dd, level2var: seq<nat>): VarTree {
    match d
    case Leaf(v) => VarLeaf(v)
    case Node(l, lo, hi) => VarNode(if l < |level2var| then level2var[l] else 0, AsVars(lo, level2var), AsVars(hi, level2var))
  }

  /** Every test is at a level of the order. */
  predicate Within(d: Dd, n: nat) { d.Node? ==> d.level < n && Within(d.lo, n) && Within(d.hi, n) }

  lemma {:induction false} AsVarsEval(d: Dd, level2var: seq<nat>, b: VarAssign)
    requires Within(d, |level2var|)
    ensures VarEval(AsVars(d, level2var), b) == Eval(d, Levels(level2var, b))
  {
    if d.Node? {
      AsVarsEval(d.lo, level2var, b);
      AsVarsEval(d.hi, level2var, b);
    }
  }

  ghost function MeaningOf(dd: TableState.Trees, level2var: seq<nat>): Meaning {
    map n | n in dd :: AsVars(dd[n], level2var)
  }

  /** The saved lines mean what their nodes are, and none of them is stuck. */
  lemma {:induction false} SavedMeans(nodes: seq<Threads.BddNode>, dd: TableState.Trees, level2var: seq<nat>, root: nat, lines: seq<Line>)
    requires Savable(nodes, dd, level2var) && Saved(nodes, dd, level2var, root, lines)
    ensures Means(lines, MeaningOf(dd, level2var))
    ensures forall u: set<nat> {:trigger Stuck(lines, u)} :: !Stuck(lines, u)
  {
    var m := MeaningOf(dd, level2var);
    forall l | l in lines
      ensures 0 <= l.v && l.key in m && Referable(m, l.low) && Referable(m, l.high)
      ensures m[l.key] == VarNode(l.v, Child(m, l.low), Child(m, l.high))
    {
      assert LineOf(nodes, dd, level2var, l);
      ChildMeans(dd, level2var, l.low);
      ChildMeans(dd, level2var, l.high);
    }
    forall u: set<nat> ensures !Stuck(lines, u) {
      NeverStuck(nodes, dd, level2var, root, lines, u);
    }
  }

  lemma {:induction false} ChildMeans(dd: TableState.Trees, level2var: seq<nat>, c: nat)
    requires TableState.Canon(dd) && c in dd
    ensures Child(MeaningOf(dd, level2var), c) == AsVars(dd[c], level2var) && Referable(MeaningOf(dd, level2var), c)
  {
  }

  /** In a set of listed nodes the smallest diagram waits for nothing in the set. */
  lemma {:induction false} NeverStuck(nodes: seq<Threads.BddNode>, dd: TableState.Trees, level2var: seq<nat>, root: nat, lines: seq<Line>, u: set<nat>)
    requires Savable(nodes, dd, level2var) && Saved(nodes, dd, level2var, root, lines)
    ensures !Stuck(lines, u)
  {
    if u != {} && forall k {:trigger k in u} :: k in u ==> Listed(lines, k) {
      var k := Smallest(dd, u, lines, nodes, level2var);
      var l :| l in lines && l.key == k;
      assert LineOf(nodes, dd, level2var, l);
      assert !Blocked(lines, u, l.low) && !Blocked(lines, u, l.high);
    }
  }

  lemma {:induction false} Smallest(dd: TableState.Trees, u: set<nat>, lines: seq<Line>, nodes: seq<Threads.BddNode>, level2var: seq<nat>) returns (k: nat)
    requires u != {} && forall k {:trigger k in u} :: k in u ==> Listed(lines, k)
    requires forall l {:trigger l in lines} :: l in lines ==> LineOf(nodes, dd, level2var, l)
    ensures k in u && k in dd && forall j {:trigger j in u} :: j in u ==> j in dd && Size(dd[k]) <= Size(dd[j])
  {
    k :| k in u;
    var rest := u - {k};
    assert k in dd by { var l :| l in lines && l.key == k; }
    if rest != {} {
      var j := Smallest(dd, rest, lines, nodes, level2var);
      var k0 := k;
      if Size(dd[j]) < Size(dd[k]) { k := j; }
      forall i | i in u ensures i in dd && Size(dd[k]) <= Size(dd[i]) {
        assert i in rest || i == k0;
      }
    } else {
      assert u == {k};
    }
  }

  lemma {:induction false} RootLast(nodes: seq<Threads.BddNode>, dd: TableState.Trees, level2var: seq<nat>, root: nat, lines: seq<Line>,
                                    entries: map<nat, Dd>, d: Dd, last: nat)
    requires Saved(nodes, dd, level2var, root, lines) && Last(lines, entries, d, last)
    requires forall l {:trigger l in lines} :: l in lines ==> l.key in entries
    requires forall k {:trigger k in entries} :: k in entries ==> Listed(lines, k)
    ensures root in entries && d == entries[root]
  {
    assert root in entries by { var l :| l in lines && l.key == root; }
    var l :| l in lines && l.key == last;
    forall l' | l' in lines ensures l'.low != last && l'.high != last {
      assert l'.key in entries;
    }
  }

  lemma {:induction false} Multiplicity(s: seq<Line>, l: Line)
    requires DistinctKeys(s)
    ensures multiset(s)[l] <= 1
  {
    if s != [] {
      var n := |s| - 1;
      assert s == s[..n] + [s[n]];
      Multiplicity(s[..n], l);
      if l == s[n] {
        assert l !in s[..n];
        assert l !in multiset(s[..n]);
      }
    }
  }

  /** Reordered lines are still the saved lines. */
  lemma {:induction false} Shuffled(nodes: seq<Threads.BddNode>, dd: TableState.Trees, level2var: seq<nat>, root: nat, lines: seq<Line>, lines': seq<Line>)
    requires Saved(nodes, dd, level2var, root, lines) && multiset(lines') == multiset(lines)
    ensures Saved(nodes, dd, level2var, root, lines')
  {
    forall l ensures l in lines' <==> l in lines {
      assert l in lines' <==> l in multiset(lines');
      assert l in lines <==> l in multiset(lines);
    }
    forall i, j | 0 <= i < j < |lines'| ensures lines'[i].key != lines'[j].key {
      Multiplicity(lines, lines'[i]);
      TwiceCounted(lines', i, j);
      assert lines'[i] in lines' && lines'[j] in lines';
      var k :| 0 <= k < |lines| && lines[k] == lines'[i];
      var m :| 0 <= m < |lines| && lines[m] == lines'[j];
    }
    assert Listed(lines', root) by { var l :| l in lines && l.key == root; assert l in lines'; }
    forall l | l in lines'
      ensures (2 <= l.low ==> Listed(lines', l.low)) && (2 <= l.high ==> Listed(lines', l.high)) && (l.key == root || Referred(lines', l.key))
    {
      ListedBoth(lines, lines', l.low);
      ListedBoth(lines, lines', l.high);
      if l.key != root {
        var p :| p in lines && (p.low == l.key || p.high == l.key);
        assert p in lines';
      }
    }
  }

  lemma {:induction false} ListedBoth(lines: seq<Line>, lines': seq<Line>, c: int)
    requires forall l {:trigger l in lines} {:trigger l in lines'} :: l in lines' <==> l in lines
    ensures Listed(lines, c) ==> Listed(lines', c)
  {
    if Listed(lines, c) {
      var l :| l in lines && l.key == c;
      assert l in lines';
    }
  }

  lemma {:induction false} TwiceCounted(s: seq<Line>, i: nat, j: nat)
    requires i < j < |s|
    ensures s[i] == s[j] ==> 2 <= multiset(s)[s[i]]
  {
    assert s == s[..j] + s[j..];
    assert s[i] in s[..j] && s[j] in s[j..];
  }

  lemma {:induction false} SavedReadable(nodes: seq<Threads.BddNode>, dd: TableState.Trees, level2var: seq<nat>, root: nat, lines: seq<Line>, var2level: seq<nat>)
    requires Saved(nodes, dd, level2var, root, lines) && forall l {:trigger level2var[l]} :: 0 <= l < |level2var| ==> level2var[l] < |var2level|
    ensures Readable(lines, var2level) && forall l {:trigger l in lines} :: l in lines ==> 0 <= l.v
  {
    hide TableState.Fits;
    forall l | l in lines ensures 2 <= l.key && 0 <= l.v < |var2level| {
      LineVar(nodes, dd, level2var, l);
    }
  }

  lemma {:induction false} LineVar(nodes: seq<Threads.BddNode>, dd: TableState.Trees, level2var: seq<nat>, l: Line)
    requires LineOf(nodes, dd, level2var, l)
    ensures 2 <= l.key && exists i :: 0 <= i < |level2var| && l.v == level2var[i]
  {
  }

  lemma {:induction false} RootMeaning(dd: TableState.Trees, saveOrder: seq<nat>, root: nat, lines: seq<Line>, level2var: seq<nat>, entries: map<nat, Dd>)
    requires root in dd && root in entries && Right(lines, level2var, entries) && Means(lines, MeaningOf(dd, saveOrder))
    ensures Denotes(entries[root], AsVars(dd[root], saveOrder), level2var)
  {
    assert MeaningOf(dd, saveOrder)[root] == AsVars(dd[root], saveOrder);
  }

  /**
    Save, then load the lines in any order under any order of the variables:
    the load succeeds and returns the saved function.
  */
  method LoadSaved(ghost nodes: seq<Threads.BddNode>, ghost dd: TableState.Trees, ghost saveOrder: seq<nat>, ghost root: nat, shuffled: seq<Line>,
                   ghost saved: seq<Line>, nodenum: nat, var2level: seq<nat>, ghost level2var: seq<nat>) returns (d: Dd)
    requires Savable(nodes, dd, saveOrder) && root in dd && Saved(nodes, dd, saveOrder, root, saved)
    requires multiset(shuffled) == multiset(saved) && Order(level2var, var2level) && |saveOrder| <= |var2level|
    requires forall l {:trigger saveOrder[l]} :: 0 <= l < |saveOrder| ==> saveOrder[l] < |var2level|
    requires Within(dd[root], |saveOrder|)
    ensures Robdd(d) && forall b: VarAssign :: Eval(d, Levels(level2var, b)) == Eval(dd[root], Levels(saveOrder, b))
  {
    hide Right, Means, Stuck, Savable, Last, TableState.Canon, TableState.Recorded;
    Shuffled(nodes, dd, saveOrder, root, saved, shuffled);
    SavedReadable(nodes, dd, saveOrder, root, shuffled, var2level);
    SavedMeans(nodes, dd, saveOrder, root, shuffled);
    var h := new LoadHash(nodenum);
    var ok;
    ghost var last;
    ok, d, last := LoadData(h, shuffled, var2level, level2var);
    RootLast(nodes, dd, saveOrder, root, shuffled, h.entries, d, last);
    RootMeaning(dd, saveOrder, root, shuffled, level2var, h.entries);
    forall b: VarAssign ensures Eval(d, Levels(level2var, b)) == Eval(dd[root], Levels(saveOrder, b)) {
      AsVarsEval(dd[root], saveOrder, b);
    }
  }
}
