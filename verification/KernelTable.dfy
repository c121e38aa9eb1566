/**
  kernel.c: the shared node table with its free list, hash chains, reference
  counts and reference stack.
*/
module KernelTable {
  import opened Dd
  import opened Threads
  import opened TableState
  import opened Collect
  import opened OpCaches
  import Prime

  /** kernel.h: the level of the constants before there are variables. */
  const MAXLEVEL: nat := 0x1FFFFF

  /** bdd.h: illegal bdd argument. */
  const BDD_ILLBDD: int := -18
  const BDD_BREAK: int := -9
  const BDD_DECVNUM: int := -15

  /** The constants sit at level n, all tests above it. */
  ghost predicate Levelled(nodes: seq<BddNode>, dd: Trees, n: nat) {
    && 2 <= |nodes| && n <= nodes[0].level == nodes[1].level && (0 < n ==> nodes[0].level == n)
    && LowLevels(dd, n)
  }

  ghost predicate LowLevels(dd: Trees, n: nat) {
    forall m {:trigger dd[m]} :: m in dd ==> DdBelow(dd[m], n)
  }

  predicate DdBelow(d: Dd, n: nat) { d.Node? ==> d.level < n }

  /** Only `res` may be new. */
  ghost predicate OnlyNew(dd: Trees, dd': Trees, res: nat) {
    forall m {:trigger m in dd'} {:trigger dd'[m]} :: m in dd' && m != res ==> m in dd && dd'[m] == dd[m]
  }

  /** The counters of all slots fit, those of the constants are saturated, and a free slot has level 0. */
  ghost predicate Widths(nodes: seq<BddNode>) {
    Counters(nodes) && forall n {:trigger nodes[n]} :: 2 <= n < |nodes| && nodes[n].low == -1 ==> nodes[n].level == 0
  }

  ghost predicate Counters(nodes: seq<BddNode>) {
    && 2 <= |nodes| && nodes[0].refcou == nodes[1].refcou == MAXREF
    && forall n {:trigger nodes[n]} :: 0 <= n < |nodes| ==> nodes[n].refcou <= MAXREF
  }

  class Kernel {
    var nodes: seq<BddNode>
    var freepos: nat
    var freenum: nat
    var refstack: seq<nat>
    var caches: Caches
    var varnum: nat
    var varset: seq<nat>
    var minfreenodes: nat
    /* The mode variables of bddop.c. */
    var applyop: nat
    var appexop: nat
    var appexid: nat
    var quantid: nat
    var quantvarset: seq<int>
    var quantvarsetID: nat
    var quantlast: nat
    var miscid: nat
    var replaceid: nat
    var replacepair: seq<nat>
    var replacelast: int
    var composelevel: nat
    /** The last pair id given out. */
    var pairsid: nat
    const hash: Hash
    const slot: Slot
    /** The size policy of bdd_noderesize: any larger size. */
    const largerSize: nat -> nat

    ghost var dd: Trees
    ghost var ext: set<nat>
    ghost var lists: Lists
    ghost var place: Places
    ghost var pairs: Pairs

    ghost function Now(): Table
      reads this
    {
      Table(nodes, freepos, freenum, dd, ext, lists, place)
    }

    ghost predicate StackOk()
      reads this
    {
      forall r {:trigger r in refstack} :: r in refstack ==> r in dd
    }

    /** The table, the reference stack and the caches are sound. */
    ghost predicate Held()
      reads this
    {
      && Sound(Now(), hash) && StackOk() && Widths(nodes)
      && CachesOk(caches, dd, pairs, nodes[0].level)
      && Grows(largerSize) && SlotInRange(slot)
    }

    /** ... and all tests are above the constants. */
    ghost predicate Ok()
      reads this
    {
      && Held() && Levelled(nodes, dd, varnum) && |quantvarset| == varnum && Stamped(quantvarset, quantvarsetID)
      && IdsBelow(pairs, pairsid)
    }

    ghost predicate Alive(n: nat)
      reads this
    {
      Live(dd, ext, refstack, n)
    }

    /** bdd_init: only the constants, everything else free. */
    constructor (initnodesize: nat, cs: nat, hash: Hash, slot: Slot, largerSize: nat -> nat)
      requires 2 <= initnodesize && 2 <= cs && InRange(hash) && SlotInRange(slot) && Grows(largerSize)
      ensures Ok() && dd == map[0 := Leaf(false), 1 := Leaf(true)] && ext == {} && refstack == [] && varnum == 0 && pairs == map[]
      ensures this.hash == hash && this.slot == slot && this.largerSize == largerSize
    {
      hide Sound, CachesOk, InRange;
      this.hash, this.slot, this.largerSize := hash, slot, largerSize;
      var rand: nat -> nat := *;
      var size, _ := Prime.PrimeGte(initnodesize, rand);
      nodes := Initial(size);
      freepos := 2;
      freenum := size - 2;
      refstack, varset := [], [];
      varnum := 0;
      minfreenodes := 20;
      rand := *;
      var cachesize, _ := Prime.PrimeGte(cs, rand);
      var empty := Cache(seq(cachesize, _ => Entry(0, 0, 0, 0, 0)), 1);
      caches := Caches(empty, empty, empty, empty, empty, empty);
      quantvarset, quantvarsetID, quantlast := [], 0, 0;
      replacepair := [];
      pairsid := 0;
      dd, ext := map[0 := Leaf(false), 1 := Leaf(true)], {};
      lists, place := InitialLists(size), InitialPlaces(size);
      pairs := map[];
      new;
      InitialSound(size, hash);
      EmptyOk(empty, map[0 := Leaf(false), 1 := Leaf(true)], map[], MAXLEVEL);
    }

    /** The push half of PUSHREF. */
    method Push(n: nat)
      requires Held() && n in dd
      modifies this`refstack
      ensures Held() && refstack == old(refstack) + [n]
      ensures Alive(n) && forall m: nat {:trigger Alive(m)} :: old(Alive(m)) ==> Alive(m)
    {
      hide Sound, CachesOk;
      refstack := refstack + [n];
      assert Root(ext, refstack, n);
      PushLive(dd, ext, old(refstack), n);
    }

    /** POPREF. */
    method Pop(k: nat)
      requires Held() && k <= |refstack|
      modifies this`refstack
      ensures Held() && refstack == old(refstack)[..|old(refstack)| - k]
    {
      hide Sound, CachesOk;
      assert forall r {:trigger r in refstack[..|refstack| - k]} :: r in refstack[..|refstack| - k] ==> r in refstack;
      refstack := refstack[..|refstack| - k];
    }

    /** bdd_addref. */
    method AddRef(root: int) returns (r: int)
      requires Held()
      modifies this`nodes, this`ext
      ensures Held() && nodes[0].level == old(nodes)[0].level && nodes[1].level == old(nodes)[1].level
      ensures r == if root < 2 || root in dd then root else BDD_ILLBDD
      ensures ext == if 2 <= root && root in dd then old(ext) + {root as nat} else old(ext)
      ensures root in dd ==> root < |old(nodes)|
      ensures 2 <= root && root in dd && old(nodes)[root].refcou < MAXREF ==>
                nodes == old(nodes)[root := old(nodes)[root].(refcou := old(nodes)[root].refcou + 1)]
      ensures root < 2 || root !in dd || old(nodes)[root].refcou >= MAXREF ==> nodes == old(nodes)
    {
      hide Sound, CachesOk;
      ghost var t := Now();
      ConstantsAt(t, hash);
      if root < 2 {
        return root;
      }
      if root >= |nodes| {
        NotAt(t, hash, root);
        return BDD_ILLBDD;
      }
      SlotAt(t, hash, root);
      if nodes[root].low == -1 {
        return BDD_ILLBDD;
      }
      RefSound(t, hash, root, Inc(nodes[root].refcou));
      if nodes[root].refcou < MAXREF {
        nodes := nodes[root := nodes[root].(refcou := nodes[root].refcou + 1)];
      }
      ext := ext + {root};
      assert nodes == t.nodes[root := t.nodes[root].(refcou := Inc(t.nodes[root].refcou))];
      return root;
    }

    /**
      bdd_delref: at a count of one the reference is gone; a saturated count
      stays. A node without a reference is reported, but returned all the same.
    */
    method DelRef(root: int) returns (r: int, reported: int)
      requires Held()
      modifies this`nodes, this`ext
      ensures reported == if root < 2 then 0 else if root !in dd then BDD_ILLBDD else if root in old(ext) then 0 else BDD_BREAK
      ensures Held() && nodes[0].level == old(nodes)[0].level && nodes[1].level == old(nodes)[1].level
      ensures r == if root < 2 || root in dd then root else BDD_ILLBDD
      ensures ext == if 2 <= root < |old(nodes)| && root in dd && old(nodes)[root].refcou == 1 then old(ext) - {root as nat} else old(ext)
      ensures root in dd ==> root < |old(nodes)|
      ensures 2 <= root && root in dd && 0 < old(nodes)[root].refcou && old(nodes)[root].refcou != MAXREF ==>
                nodes == old(nodes)[root := old(nodes)[root].(refcou := old(nodes)[root].refcou - 1)]
      ensures root < 2 || root !in dd || old(nodes)[root].refcou == 0 || old(nodes)[root].refcou == MAXREF ==> nodes == old(nodes)
    {
      hide Sound, CachesOk;
      ghost var t := Now();
      ConstantsAt(t, hash);
      if root < 2 {
        return root, 0;
      }
      if root >= |nodes| {
        NotAt(t, hash, root);
        return BDD_ILLBDD, BDD_ILLBDD;
      }
      SlotAt(t, hash, root);
      if nodes[root].low == -1 {
        return BDD_ILLBDD, BDD_ILLBDD;
      }
      reported := 0;
      RefSound(t, hash, root, Dec(nodes[root].refcou));
      if nodes[root].refcou == 0 {
        reported := BDD_BREAK;
      }
      if nodes[root].refcou == 1 {
        ext := ext - {root};
      }
      if nodes[root].refcou != MAXREF && nodes[root].refcou > 0 {
        nodes := nodes[root := nodes[root].(refcou := nodes[root].refcou - 1)];
      }
      assert nodes == t.nodes[root := t.nodes[root].(refcou := Dec(t.nodes[root].refcou))];
      assert ext == if Dec(t.nodes[root].refcou) > 0 then t.ext + {root as nat} else t.ext - {root as nat};
      r := root;
    }

    /** bddvarset: the two literals of every variable, with references. */
    ghost predicate VarsOk()
      reads this
    {
      Literals(varset, varnum, dd, ext)
    }

    /** bddnodes[n].refcou = MAXREF */
    method Saturate(n: nat)
      requires Held() && n in dd && 2 <= n
      modifies this`nodes, this`ext
      ensures Held() && ext == old(ext) + {n}
      ensures 2 <= |nodes| && 2 <= |old(nodes)| && nodes[0].level == old(nodes)[0].level && nodes[1].level == old(nodes)[1].level
    {
      hide Sound, CachesOk;
      NodeAt(Now(), hash, n);
      RefSound(Now(), hash, n, MAXREF);
      nodes := nodes[n := nodes[n].(refcou := MAXREF)];
      ext := ext + {n};
    }

    /** The two literals of variable v. */
    method MakeLiterals(v: nat) returns (p: nat, q: nat)
      requires Held()
      modifies this`nodes, this`freepos, this`freenum, this`caches, this`dd, this`lists, this`place, this`refstack
      ensures Held() && refstack == old(refstack) && ext == old(ext)
      ensures 2 <= p && p in dd && dd[p] == Node(v, Leaf(false), Leaf(true))
      ensures 2 <= q && q in dd && dd[q] == Node(v, Leaf(true), Leaf(false))
      ensures KeepsRefs(old(Now()), Now()) && OnlyVariables(old(dd), dd, v)
      ensures 2 <= |nodes| && 2 <= |old(nodes)| && nodes[0].level == old(nodes)[0].level && nodes[1].level == old(nodes)[1].level
    {
      hide Sound, CachesOk, Live, Keeps, OnlyNew;
      ghost var t := Now();
      ConstantsAlive(t, hash, refstack);
      p := MakeNode(v, 0, 1);
      ghost var t1 := Now();
      Push(p);
      ConstantsAlive(t1, hash, refstack);
      q := MakeNode(v, 1, 0);
      ghost var t2 := Now();
      Pop(1);
      StepTwice(t, old(refstack), t1, p, t2, q);
      LiteralNodes(t2, hash, v, p, q);
    }

    /** One round of the loop of bdd_setvarnum. */
    method NewVariable(v: nat)
      requires Held() && Literals(varset, v, dd, ext)
      modifies this`nodes, this`freepos, this`freenum, this`caches, this`dd, this`lists, this`place, this`refstack, this`ext, this`varset
      ensures Held() && Literals(varset, v + 1, dd, ext)
      ensures KeepsRefs(old(Now()), Now()) && refstack == old(refstack)
      ensures 2 <= |nodes| && 2 <= |old(nodes)| && nodes[0].level == old(nodes)[0].level && nodes[1].level == old(nodes)[1].level
      ensures OnlyVariables(old(dd), dd, v)
    {
      hide Sound, CachesOk, Literals, OnlyVariables, KeepsRefs;
      ghost var t := Now();
      var p, q := MakeLiterals(v);
      ghost var t2 := Now();
      Saturate(p);
      Saturate(q);
      NewLiteral(varset, v, t, t2, p, q);
      MoreRefs(t, t2, Now());
      varset := varset + [p, q];
    }

    /** The loop of bdd_setvarnum. */
    method AddVariables(num: nat)
      requires Held() && VarsOk() && varnum <= num && LowLevels(dd, num)
      modifies this`nodes, this`freepos, this`freenum, this`caches, this`dd, this`lists, this`place, this`refstack, this`ext, this`varset, this`varnum
      ensures Held() && VarsOk() && varnum == num && LowLevels(dd, num)
      ensures KeepsRefs(old(Now()), Now()) && refstack == old(refstack)
    {
      hide Sound, CachesOk, Literals, KeepsRefs, LowLevels, OnlyVariables;
      ghost var t := Now();
      KeepsRefsNothing(t);
      while varnum < num
        invariant Held() && refstack == old(refstack) && varnum <= num && Literals(varset, varnum, dd, ext) && KeepsRefs(t, Now())
        invariant LowLevels(dd, num)
      {
        ghost var t1 := Now();
        NewVariable(varnum);
        KeepsRefsTrans(t, t1, Now());
        VariablesBelow(t1.dd, dd, varnum, num);
        varnum := varnum + 1;
      }
    }

    /** The constants go to their new level; counts cached for the old one are thrown away. */
    method SetLevels(num: nat)
      requires Held() && LowLevels(dd, num) && varnum == num && IdsBelow(pairs, pairsid)
      modifies this`nodes, this`caches, this`quantvarset, this`quantvarsetID
      ensures Ok()
    {
      hide Sound, CachesOk, LowLevels;
      ghost var t := Now();
      LevelSound(t, hash, num);
      nodes := nodes[0 := nodes[0].(level := num)];
      nodes := nodes[1 := nodes[1].(level := num)];
      quantvarset := Zeros(num);
      quantvarsetID := 0;
      LevelCaches(caches, dd, pairs, t.nodes[0].level, num);
      caches := caches.(misc := Reset(caches.misc));
    }

    /** bdd_setvarnum. */
    method SetVarNum(num: int) returns (err: int)
      requires Ok() && VarsOk()
      modifies this
      ensures Ok() && VarsOk()
      ensures err == if 1 <= num < MAXVAR && num < old(varnum) then BDD_DECVNUM else 0
      ensures varnum == if 1 <= num < MAXVAR && num > old(varnum) then num else old(varnum)
      ensures KeepsRefs(old(Now()), Now())
    {
      hide Sound, CachesOk, Literals, KeepsRefs, LowLevels;
      ghost var t := Now();
      KeepsRefsNothing(t);
      if num < 1 || num >= MAXVAR {
        return 0;
      }
      if num < varnum {
        return BDD_DECVNUM;
      }
      if num == varnum {
        return 0;
      }
      refstack := [];
      LevelledBelow(nodes, dd, varnum, num);
      AddVariables(num);
      ghost var t2 := Now();
      SetLevels(num);
      MoreRefs(t, t2, Now());
      return 0;
    }

    /** bdd_mark. */
    method Mark(i: nat)
      requires Canon(dd) && Recorded(nodes, dd) && i in dd
      modifies this`nodes
      ensures Spread(old(nodes), dd, nodes, i)
      ensures i < 2 ==> nodes == old(nodes)
      decreases dd[i]
    {
      hide SameButMarks, Canon;
      if i < 2 {
        SpreadNothing(nodes, dd, i);
        return;
      }
      if nodes[i].mark {
        SpreadNothing(nodes, dd, i);
        return;
      }
      assert Fits(nodes, dd, i);
      ghost var nodes0 := nodes;
      nodes := nodes[i := nodes[i].(mark := true)];
      ghost var nodes1 := nodes;
      MarkedRecords(nodes0, dd, nodes1);
      Mark(nodes[i].low);
      ghost var nodes2 := nodes;
      MarkedRecords(nodes1, dd, nodes2);
      assert nodes2[i] == nodes1[i].(mark := nodes2[i].mark) by { MarksOnly(nodes1, dd, nodes2, nodes1[i].low); }
      Mark(nodes[i].high);
      SpreadNode(nodes0, dd, i, nodes1, nodes2, nodes);
    }

    /** The marking half of bdd_gbc: everything the stack and the references need; all chain heads are zeroed. */
    method MarkRoots()
      requires OnRecord(nodes, dd, ext) && StackOk()
      modifies this`nodes
      ensures Cleared(old(nodes), nodes, |nodes|) && Reached(nodes, dd, ext, refstack) && RootsMarked(nodes, ext, refstack)
    {
      hide OnRecord, Reached, Live, Fits;
      ghost var t := Now();
      ReachStart(t, refstack);
      var r := 0;
      while r < |refstack|
        invariant r <= |refstack| && MarkLoop(t.nodes, nodes, dd, ext, refstack, 0)
        invariant forall i {:trigger refstack[i]} :: 0 <= i < r ==> Marked(nodes, refstack[i])
      {
        ghost var nodes0 := nodes;
        LoopRecords(t, nodes, refstack, 0);
        assert refstack[r] in refstack;
        Mark(refstack[r]);
        LoopMark(t.nodes, nodes0, dd, ext, refstack, 0, refstack[r], nodes);
        r := r + 1;
      }
      var n := 0;
      while n < |nodes|
        invariant n <= |nodes| == |t.nodes| && MarkLoop(t.nodes, nodes, dd, ext, refstack, n)
        invariant forall i {:trigger refstack[i]} :: 0 <= i < |refstack| ==> Marked(nodes, refstack[i])
        invariant forall i: nat {:trigger i in ext} :: i in ext && i < n ==> Marked(nodes, i)
      {
        ghost var nodes0 := nodes;
        LoopRecords(t, nodes, refstack, n);
        LoopExt(t, nodes, refstack, n);
        if nodes[n].refcou > 0 {
          Mark(n);
          if 2 <= n {
            LoopMark(t.nodes, nodes0, dd, ext, refstack, n, n, nodes);
          } else {
            LoopConstant(t.nodes, nodes0, dd, ext, refstack, n, n, nodes);
          }
        }
        LoopClear(t, nodes, ext, refstack, n);
        nodes := nodes[n := nodes[n].(hash := 0)];
        n := n + 1;
      }
      AllRoots(t, nodes, refstack);
    }

    /** One slot of the sweep is kept: unmarked and linked into the chain of its key. */
    method Keep(n: nat, ghost m: seq<BddNode>)
      requires Sweeping(m, dd, hash, nodes, lists, freepos, place, freenum, n + 1) && InRange(hash)
      requires 2 <= n < |m| && n in dd && 0 <= m[n].low && 0 <= m[n].high
      modifies this`nodes, this`lists, this`place
      ensures Sweeping(m, dd, hash, nodes, lists, freepos, place, freenum, n)
    {
      hide Sweeping;
      SweepSize(m, dd, hash, nodes, lists, freepos, place, freenum, n + 1);
      SweepKeep(m, dd, hash, nodes, lists, freepos, place, freenum, n);
      var b := hash(|nodes|, nodes[n].level, nodes[n].low, nodes[n].high);
      nodes := nodes[n := nodes[n].(mark := false)];
      nodes := LinkedNodes(nodes, b, n);
      place := place[n := (Bucket(b), |lists[Bucket(b)]|)];
      lists := Pushed(lists, Bucket(b), n);
    }

    /** One slot of the sweep goes to the free list. */
    method Drop(n: nat, ghost m: seq<BddNode>)
      requires Sweeping(m, dd, hash, nodes, lists, freepos, place, freenum, n + 1)
      requires 2 <= n < |m| && n !in dd && !m[n].mark
      modifies this`nodes, this`lists, this`place, this`freepos, this`freenum
      ensures Sweeping(m, dd, hash, nodes, lists, freepos, place, freenum, n)
    {
      hide Sweeping;
      SweepSize(m, dd, hash, nodes, lists, freepos, place, freenum, n + 1);
      SweepDrop(m, dd, hash, nodes, lists, freepos, place, freenum, n, nodes[n].(low := -1, level := 0, refcou := 0, next := freepos));
      nodes := nodes[n := nodes[n].(low := -1, level := 0, refcou := 0, next := freepos)];
      freepos := n;
      freenum := freenum + 1;
      place := place[n := (Free, |lists[Free]|)];
      lists := Pushed(lists, Free, n);
    }

    /** One empty slot goes to the free list. */
    method Vacate(n: nat, ghost m: seq<BddNode>)
      requires Sweeping(m, dd, hash, nodes, lists, freepos, place, freenum, n + 1)
      requires 2 <= n < |m| && n !in dd && !m[n].mark && m[n].low == -1 && m[n].refcou == 0 && m[n].level == 0
      modifies this`nodes, this`lists, this`place, this`freepos, this`freenum
      ensures Sweeping(m, dd, hash, nodes, lists, freepos, place, freenum, n) && freenum == old(freenum) + 1
    {
      hide Sweeping;
      SweepSize(m, dd, hash, nodes, lists, freepos, place, freenum, n + 1);
      SweepDrop(m, dd, hash, nodes, lists, freepos, place, freenum, n, nodes[n].(next := freepos));
      nodes := nodes[n := nodes[n].(next := freepos)];
      freepos := n;
      freenum := freenum + 1;
      place := place[n := (Free, |lists[Free]|)];
      lists := Pushed(lists, Free, n);
    }

    /** The sweeping half of bdd_gbc: what is marked is linked into its chain, the rest becomes free. */
    method Sweep(ghost m: seq<BddNode>)
      requires Sweeping(m, dd, hash, nodes, lists, freepos, place, freenum, |m|) && InRange(hash) && 2 <= |m|
      requires forall n {:trigger m[n]} :: 2 <= n < |m| ==> (m[n].mark <==> n in dd)
      requires forall n {:trigger m[n]} :: 2 <= n < |m| && m[n].mark ==> 0 <= m[n].low && 0 <= m[n].high
      modifies this`nodes, this`lists, this`place, this`freepos, this`freenum
      ensures Sweeping(m, dd, hash, nodes, lists, freepos, place, freenum, 2)
    {
      hide Sweeping, Keys;
      SweepSize(m, dd, hash, nodes, lists, freepos, place, freenum, |m|);
      var n := |nodes| - 1;
      while n >= 2
        invariant 1 <= n < |m| == |nodes| && Sweeping(m, dd, hash, nodes, lists, freepos, place, freenum, n + 1)
      {
        SweepSize(m, dd, hash, nodes, lists, freepos, place, freenum, n + 1);
        if nodes[n].mark && nodes[n].low != -1 {
          Keep(n, m);
        } else {
          Drop(n, m);
        }
        SweepSize(m, dd, hash, nodes, lists, freepos, place, freenum, n);
        n := n - 1;
      }
    }

    /** bdd_gbc_rehash: every allocated node is linked into its chain, the rest is free. */
    method GbcRehash(ghost m: seq<BddNode>)
      requires Sweeping(m, dd, hash, nodes, lists, freepos, place, freenum, |m|) && InRange(hash) && 2 <= |m|
      requires forall n {:trigger m[n]} :: 2 <= n < |m| ==> (m[n].low != -1 <==> n in dd)
      requires forall n {:trigger m[n]} :: 2 <= n < |m| && n in dd ==> 0 <= m[n].low && 0 <= m[n].high
      requires forall n {:trigger m[n]} :: 2 <= n < |m| ==> !m[n].mark && (n !in dd ==> m[n].refcou == 0 && m[n].level == 0)
      modifies this`nodes, this`lists, this`place, this`freepos, this`freenum
      ensures Sweeping(m, dd, hash, nodes, lists, freepos, place, freenum, 2)
      ensures 2 < |m| && m[|m| - 1].low == -1 ==> freenum > 0
    {
      hide Sweeping, Keys;
      SweepSize(m, dd, hash, nodes, lists, freepos, place, freenum, |m|);
      var n := |nodes| - 1;
      while n >= 2
        invariant 1 <= n < |m| == |nodes| && Sweeping(m, dd, hash, nodes, lists, freepos, place, freenum, n + 1)
        invariant n + 1 < |m| && m[|m| - 1].low == -1 ==> freenum > 0
      {
        SweepSize(m, dd, hash, nodes, lists, freepos, place, freenum, n + 1);
        if nodes[n].low != -1 {
          Keep(n, m);
        } else {
          Vacate(n, m);
        }
        SweepSize(m, dd, hash, nodes, lists, freepos, place, freenum, n);
        n := n - 1;
      }
    }

    /**
      bdd_gbc: exactly the live nodes stay, with their trees, and no cache entry
      survives.
    */
    method Gbc()
      requires Held()
      modifies this`nodes, this`freepos, this`freenum, this`caches, this`dd, this`lists, this`place
      ensures Held() && dd == LiveTrees(old(dd), ext, refstack)
      ensures |nodes| == |old(nodes)| && nodes[0].level == old(nodes)[0].level && nodes[1].level == old(nodes)[1].level
      ensures caches == ResetAll(old(caches)) && SameCounts(old(nodes), ext, nodes)
    {
      hide Sound, CachesOk, OnRecord, LiveTrees;
      SoundStored(Now(), hash);
      Generations(caches, dd, pairs, nodes[0].level);
      ghost var was := nodes;
      Collect();
      CountsKept(was, Now(), hash);
    }

    /**
      The same for records whose lists are not those of the kernel, as
      reorder_done leaves them.
    */
    method Collect()
      requires OnRecord(nodes, dd, ext) && Counters(nodes) && StackOk() && Aged(caches)
      requires InRange(hash) && Grows(largerSize) && SlotInRange(slot)
      modifies this`nodes, this`freepos, this`freenum, this`caches, this`dd, this`lists, this`place
      ensures Held() && dd == LiveTrees(old(dd), ext, refstack)
      ensures |nodes| == |old(nodes)| && nodes[0].level == old(nodes)[0].level && nodes[1].level == old(nodes)[1].level
      ensures forall n {:trigger nodes[n]} :: 2 <= n < |nodes| && n in dd ==> nodes[n].refcou == old(nodes)[n].refcou
      ensures caches == ResetAll(old(caches))
    {
      hide OnRecord, Sound, Sweeping, Sweepable, Reached, RootsMarked, Cleared, CachesOk, Aged, LiveTrees, Keys, Widths, Counters, NoLists, ResetAll;
      ghost var t := Now();
      MarkRoots();
      ghost var m := nodes;
      ClearedFields(t, m);
      ClearedCounters(t.nodes, m);
      MarkedSweepable(t, refstack, m);
      freepos := 0;
      freenum := 0;
      dd, lists, place := LiveTrees(dd, ext, refstack), NoLists(|nodes|), map[];
      SweepStart(m, dd, hash);
      Sweep(m);
      SweepEnd(m, dd, hash, nodes, lists, freepos, place, freenum);
      Swept(m, dd, hash, ext, nodes, lists, freepos, place, freenum);
      SweptWidths(m, dd, hash, ext, nodes, lists, freepos, place, freenum);
      ResetAllOk(caches, dd, pairs, nodes[0].level);
      caches := ResetAll(caches);
      StackKept(t, refstack, Now());
    }

    /** The chain walk of bdd_makenode. */
    method Lookup(level: nat, low: nat, high: nat) returns (res: nat)
      requires Held() && low in dd && high in dd
      ensures res != 0 ==> res in dd && dd[res] == Node(level, dd[low], dd[high])
      ensures res == 0 ==> Missing(dd, Node(level, dd[low], dd[high]))
    {
      hide Sound, CachesOk, Missing, Fits;
      ghost var t := Now();
      ConstantsAt(t, hash);
      var b := hash(|nodes|, level, low, high);
      BucketAt(t, hash, b);
      ghost var c := lists[Bucket(b)];
      res := nodes[b].hash;
      ghost var k: nat := |c|;
      while res != 0
        invariant k <= |c| && res == Prev(c, k)
        invariant forall j {:trigger c[j]} :: k <= j < |c| ==>
                    c[j] < |nodes| && !(nodes[c[j]].level == level && nodes[c[j]].low == low && nodes[c[j]].high == high)
        decreases k
      {
        ChainAt(t, hash, b, k - 1);
        if nodes[res].level == level && nodes[res].low == low && nodes[res].high == high {
          FitsTree(t, res);
          return;
        }
        res := nodes[res].next;
        k := k - 1;
      }
      assert k == 0 by { if k > 0 { ChainAt(t, hash, b, k - 1); } }
      forall n | n in dd && 2 <= n && Fits(nodes, dd, n)
        ensures !(n < |nodes| && nodes[n].level == level && nodes[n].low == low && nodes[n].high == high)
      {
        InChain(t, hash, n);
        assert hash(|nodes|, nodes[n].level, nodes[n].low, nodes[n].high) == b ==> c[place[n].1] == n;
      }
      NotInTable(t, hash, level, low, high);
    }

    /** The end of bdd_makenode: the head of the free list becomes the new node. */
    method Build(level: nat, low: nat, high: nat) returns (res: nat)
      requires Held() && freepos != 0 && low in dd && high in dd && low != high
      requires Under(level, dd[low]) && Under(level, dd[high]) && Missing(dd, Node(level, dd[low], dd[high]))
      modifies this`nodes, this`freepos, this`freenum, this`dd, this`lists, this`place
      ensures Held() && Step(old(Now()), refstack, Now(), res) && Extends(old(dd), dd)
      ensures res in dd && dd[res] == Node(level, old(dd[low]), old(dd[high]))
    {
      hide Sound, CachesOk, Built, Keeps, Widths, Missing, Under, SameCounts;
      ghost var t := Now();
      BuildSound(t, hash, level, low, high);
      BuildWidths(t, hash, level, low, high);
      ghost var b := hash(|nodes|, level, low, high);
      ghost var u := Built(t, level, low, high, b);
      BuildFields(t, level, low, high, b);
      BuiltCounts(t, hash, level, low, high, b);
      res := freepos;
      freepos := nodes[freepos].next;
      freenum := freenum - 1;
      nodes := nodes[res := nodes[res].(level := level, low := low, high := high, refcou := 0, mark := false)];
      nodes := LinkedNodes(nodes, hash(|nodes|, level, low, high), res);
      dd, lists, place := u.dd, u.lists, u.place;
      BuildKeeps(t, refstack, u, res, Node(level, t.dd[low], t.dd[high]));
      CachesGrow(caches, t.dd, pairs, t.nodes[0].level, dd);
    }

    /** bdd_makenode: the node of (level, low, high), found or built, if need be after a collection. */
    method MakeNode(level: nat, low: nat, high: nat) returns (res: nat)
      requires Held() && Alive(low) && Alive(high)
      requires Under(level, dd[low]) && Under(level, dd[high])
      modifies this`nodes, this`freepos, this`freenum, this`caches, this`dd, this`lists, this`place
      ensures Held() && Step(old(Now()), refstack, Now(), res)
      ensures res in dd && dd[res] == Mk(level, old(dd[low]), old(dd[high]))
      ensures NoNews(old(caches).replace, old(dd), caches.replace, dd)
    {
      hide Sound, CachesOk, Live, Keeps, Missing, LiveTrees, OnlyNew, NoNews, AgedCache, SameCounts;
      ghost var t, c := Now(), caches.replace;
      HeldFacts(t, hash, refstack);
      NoNewsGrow(c, dd, dd);
      if low == high {
        StepNothing(t, refstack, low);
        return low;
      }
      SameTree(t, hash, low, high);
      res := Lookup(level, low, high);
      if res != 0 {
        StepNothing(t, refstack, res);
        return;
      }
      if freepos == 0 {
        Generations(caches, dd, pairs, nodes[0].level);
        Gbc();
        NoNewsReset(c, t.dd, dd);
        CollectFacts(t, refstack, hash, low, high, Node(level, t.dd[low], t.dd[high]), Now());
        ghost var t0 := Now();
        if freenum * 100 / |nodes| <= minfreenodes {
          NodeResize();
        }
        KeepsResized(t, refstack, t0, Now());
        FreeFound(Now(), hash);
        StepMade(t, refstack, Now());
      } else {
        StepNothing(t, refstack, 0);
      }
      ghost var t1 := Now();
      HeldFacts(t1, hash, refstack);
      res := Build(level, low, high);
      StepTrans(t, refstack, t1, Now(), res);
      NoNewsGrow(caches.replace, t1.dd, dd);
      NoNewsTrans(c, t.dd, caches.replace, t1.dd, caches.replace, dd);
    }

    /** bdd_noderesize(1): new slots, and every chain is built again for the new size. */
    method NodeResize()
      requires Held()
      modifies this`nodes, this`freepos, this`freenum, this`lists, this`place
      ensures Held() && |old(nodes)| < |nodes| && freepos != 0 && SameCounts(old(nodes), ext, nodes)
      ensures nodes[0].level == old(nodes)[0].level && nodes[1].level == old(nodes)[1].level
    {
      hide Sound, Sweeping, Sweepable, CachesOk, Rebuilding, Keys, SweptSlot, Widths, Counters, Grows, SlotInRange, SameCounts;
      ghost var t := Now();
      ConstantsAt(t, hash);
      Larger(largerSize, |nodes|);
      var oldsize, size := |nodes|, largerSize(|nodes|);
      nodes := Enlarged(nodes, size);
      ghost var m := nodes;
      WidthsSay(t.nodes);
      EnlargedCounters(t.nodes, size);
      GrownSweepable(t, hash, m);
      freepos := 0;
      freenum := 0;
      lists, place := NoLists(|nodes|), map[];
      SweepStart(m, dd, hash);
      GbcRehash(m);
      SweepEnd(m, dd, hash, nodes, lists, freepos, place, freenum);
      Swept(m, dd, hash, ext, nodes, lists, freepos, place, freenum);
      SweptWidths(m, dd, hash, ext, nodes, lists, freepos, place, freenum);
      ResizedCounts(t, hash, size, Now());
      FreeLeft(Now(), hash);
    }
  }

  /** No node has the tree. */
  lemma CollectFacts(t: Table, stack: seq<nat>, hash: Hash, low: nat, high: nat, d: Dd, t': Table)
    requires t'.dd == LiveTrees(t.dd, t.ext, stack) && t'.ext == t.ext && SameCounts(t.nodes, t.ext, t'.nodes) && Missing(t.dd, d)
    requires Live(t.dd, t.ext, stack, low) && Live(t.dd, t.ext, stack, high)
    ensures Keeps(t, stack, t') && Missing(t'.dd, d)
    ensures low in t'.dd && t'.dd[low] == t.dd[low] && high in t'.dd && t'.dd[high] == t.dd[high]
    ensures OnlyNew(t.dd, t'.dd, 0)
  {
    CollectKeeps(t, stack, t');
  }

  lemma KeepsResized(t: Table, stack: seq<nat>, t': Table, t'': Table)
    requires Keeps(t, stack, t') && t''.dd == t'.dd && t''.ext == t'.ext && (t''.nodes == t'.nodes || SameCounts(t'.nodes, t'.ext, t''.nodes))
    ensures Keeps(t, stack, t'')
  {
    hide Live;
  }

  lemma {:induction false} ResizedCounts(t: Table, hash: Hash, size: nat, t': Table)
    requires Sound(t, hash) && |t.nodes| < size && Sweeping(Enlarged(t.nodes, size), t.dd, hash, t'.nodes, t'.lists, t'.freepos, t'.place, t'.freenum, 2)
    ensures SameCounts(t.nodes, t.ext, t'.nodes)
  {
    var m := Enlarged(t.nodes, size);
    hide Heads, Threaded, Keyed, Canon, Recorded, Sweeping;
    SweptSlots(m, t.dd, hash, t'.nodes, t'.lists, t'.freepos, t'.place, t'.freenum);
    forall n | n in t.ext && n < |t.nodes| ensures n < |t'.nodes| && t'.nodes[n].refcou == t.nodes[n].refcou {
      assert SweptSlot(m[n], n in t.dd, t'.nodes[n]);
    }
  }

  lemma {:induction false} BuiltCounts(t: Table, hash: Hash, level: nat, low: nat, high: nat, b: nat)
    requires Sound(t, hash) && t.freepos !in t.dd && t.freepos < |t.nodes| && b < |t.nodes| && low in t.dd && high in t.dd && 0 < t.freenum
    requires Free in t.lists && t.lists[Free] != [] && Bucket(b) in t.lists
    ensures SameCounts(t.nodes, t.ext, Built(t, level, low, high, b).nodes)
  {
    hide Heads, Threaded, Keyed, Canon, Recorded;
  }

  /** A node with a reference is in the table. */
  lemma CountsKept(was: seq<BddNode>, t: Table, hash: Hash)
    requires Sound(t, hash) && |t.nodes| == |was|
    requires forall n {:trigger t.nodes[n]} :: 2 <= n < |t.nodes| && n in t.dd ==> t.nodes[n].refcou == was[n].refcou
    ensures SameCounts(was, t.ext, t.nodes)
  {
    hide Heads, Threaded, Keyed, Canon, Recorded;
  }

  lemma FitsTree(t: Table, n: nat)
    requires Fits(t.nodes, t.dd, n)
    ensures n in t.dd && n < |t.nodes| && 0 <= t.nodes[n].low && 0 <= t.nodes[n].high && t.nodes[n].low in t.dd && t.nodes[n].high in t.dd
    ensures t.dd[n] == Node(t.nodes[n].level, t.dd[t.nodes[n].low], t.dd[t.nodes[n].high])
  {
  }

  lemma HeldFacts(t: Table, hash: Hash, stack: seq<nat>)
    requires Sound(t, hash)
    ensures 0 in t.dd && t.dd[0] == Leaf(false)
    ensures 2 <= |t.nodes| && forall n: nat {:trigger Live(t.dd, t.ext, stack, n)} :: Live(t.dd, t.ext, stack, n) ==> n in t.dd
  {
    hide Heads, Threaded, Keyed;
  }

  lemma SameTree(t: Table, hash: Hash, low: nat, high: nat)
    requires Sound(t, hash) && low in t.dd && high in t.dd && low != high
    ensures t.dd[low] != t.dd[high]
  {
    hide Heads, Threaded, Keyed, Recorded;
  }

  lemma StepNothing(t: Table, stack: seq<nat>, res: nat)
    requires 2 <= |t.nodes|
    ensures Step(t, stack, t, res)
  {
  }

  /** After the collection, and perhaps a resize. */
  lemma StepMade(t: Table, stack: seq<nat>, t': Table)
    requires Keeps(t, stack, t') && OnlyNew(t.dd, t'.dd, 0)
    requires 2 <= |t.nodes| && 2 <= |t'.nodes| && t'.nodes[0].level == t.nodes[0].level && t'.nodes[1].level == t.nodes[1].level
    ensures Step(t, stack, t', 0)
  {
  }

  lemma StepTrans(t: Table, stack: seq<nat>, t': Table, t'': Table, res: nat)
    requires Step(t, stack, t', 0) && Step(t', stack, t'', res) && 0 in t.dd && 0 in t'.dd && t.dd[0] == t'.dd[0]
    ensures Step(t, stack, t'', res)
  {
    hide Live;
    KeepsTrans(t, stack, t', stack, t'');
  }

  /** The percentage test lets a full table grow. */
  lemma FreeFound(t: Table, hash: Hash)
    requires Sound(t, hash)
    ensures 0 < t.freenum ==> t.freepos != 0
    ensures t.freenum == 0 ==> t.freenum * 100 / |t.nodes| == 0
  {
    ConstantsAt(t, hash);
    if 0 < t.freenum { FreeLeft(t, hash); }
  }

  lemma BuildWidths(t: Table, hash: Hash, level: nat, low: nat, high: nat)
    requires Widths(t.nodes) && 2 <= t.freepos < |t.nodes| && low in t.dd && high in t.dd && 0 < t.freenum
    requires var b := hash(|t.nodes|, level, low, high); b < |t.nodes| && Free in t.lists && t.lists[Free] != [] && Bucket(b) in t.lists
    ensures Widths(Built(t, level, low, high, hash(|t.nodes|, level, low, high)).nodes)
  {
  }

  lemma BuildFields(t: Table, level: nat, low: nat, high: nat, b: nat)
    requires t.freepos < |t.nodes| && b < |t.nodes| && low in t.dd && high in t.dd && 0 < t.freenum
    requires Free in t.lists && t.lists[Free] != [] && Bucket(b) in t.lists
    ensures var u := Built(t, level, low, high, b);
            && u.ext == t.ext && u.dd == t.dd[t.freepos := Node(level, t.dd[low], t.dd[high])]
            && u.freepos == t.nodes[t.freepos].next && u.freenum == t.freenum - 1
            && u.nodes == LinkedNodes(BuiltNodes(t, level, low, high), b, t.freepos)
            && |u.nodes| == |t.nodes|
            && (2 <= t.freepos ==> u.nodes[0].level == t.nodes[0].level && u.nodes[1].level == t.nodes[1].level)
  {
  }

  lemma NotInTable(t: Table, hash: Hash, l: nat, low: nat, high: nat)
    requires Sound(t, hash) && low in t.dd && high in t.dd
    requires forall n: nat {:trigger Fits(t.nodes, t.dd, n)} :: n in t.dd && 2 <= n && Fits(t.nodes, t.dd, n) ==>
               !(n < |t.nodes| && t.nodes[n].level == l && t.nodes[n].low == low && t.nodes[n].high == high)
    ensures Missing(t.dd, Node(l, t.dd[low], t.dd[high]))
  {
    hide Sound, Fits;
    forall n | n in t.dd ensures t.dd[n] != Node(l, t.dd[low], t.dd[high]) {
      if t.dd[n] == Node(l, t.dd[low], t.dd[high]) {
        SameKey(t, hash, n, l, low, high);
      }
    }
  }

  lemma LevelledStep(nodes: seq<BddNode>, dd: Trees, n: nat, nodes': seq<BddNode>, dd': Trees, res: nat)
    requires Levelled(nodes, dd, n) && OnlyNew(dd, dd', res) && 2 <= |nodes'|
    requires nodes'[0].level == nodes[0].level && nodes'[1].level == nodes[1].level
    requires res in dd' ==> DdBelow(dd'[res], n)
    ensures Levelled(nodes', dd', n)
  {
    forall m | m in dd' ensures DdBelow(dd'[m], n) {
      if m != res { assert DdBelow(dd[m], n); }
    }
  }

  /** The larger array: old heads zeroed, new slots empty. */
  function Enlarged(nodes: seq<BddNode>, size: nat): (r: seq<BddNode>)
    requires |nodes| < size
    ensures |r| == size
    ensures forall n {:trigger r[n]} :: 0 <= n < |nodes| ==> r[n] == nodes[n].(hash := 0)
    ensures forall n {:trigger r[n]} :: |nodes| <= n < size ==> r[n] == EmptySlot(n + 1)
  {
    seq(size, n requires 0 <= n < size => if n < |nodes| then nodes[n].(hash := 0) else EmptySlot(n + 1))
  }

  lemma Larger(largerSize: nat -> nat, n: nat)
    requires Grows(largerSize)
    ensures n < largerSize(n)
  {
  }

  lemma WidthsSay(nodes: seq<BddNode>)
    requires Widths(nodes)
    ensures Counters(nodes) && forall n {:trigger nodes[n]} :: 2 <= n < |nodes| && nodes[n].low == -1 ==> nodes[n].level == 0
  {
  }

  lemma EnlargedCounters(nodes: seq<BddNode>, size: nat)
    requires Counters(nodes) && |nodes| < size
    ensures Counters(Enlarged(nodes, size))
  {
    var m := Enlarged(nodes, size);
    forall n | 0 <= n < size ensures m[n].refcou <= MAXREF {}
  }

  /** What the slots before the sweep's position still are. */
  lemma SweepSize(m: seq<BddNode>, keep: Trees, hash: Hash, nodes: seq<BddNode>, lists: Lists, freepos: nat, place: Places, freenum: nat, n: nat)
    requires Sweeping(m, keep, hash, nodes, lists, freepos, place, freenum, n)
    ensures |nodes| == |m| && 2 <= n <= |m| && Free in lists
    ensures forall k {:trigger nodes[k]} :: 0 <= k < n ==> nodes[k] == m[k].(hash := nodes[k].hash, next := nodes[k].next)
    ensures n < |m| && n !in keep ==> freenum > 0
  {
    hide Heads, Threaded;
    RebuildRange(nodes, lists, freepos, place, Keys(m, keep, hash), n);
    if n < |m| && n !in keep {
      PlacedSomewhere(nodes, lists, freepos, place, Keys(m, keep, hash), n);
    }
  }

  lemma PlacedSomewhere(nodes: seq<BddNode>, lists: Lists, freepos: nat, place: Places, keys: seq<Key>, n: nat)
    requires Rebuilding(nodes, lists, freepos, place, keys, n) && n < |nodes|
    ensures keys[n] in lists && 0 < |lists[keys[n]]|
  {
    hide Heads;
    assert n in place;
  }

  lemma SweepEnd(m: seq<BddNode>, keep: Trees, hash: Hash, nodes: seq<BddNode>, lists: Lists, freepos: nat, place: Places, freenum: nat)
    requires Sweeping(m, keep, hash, nodes, lists, freepos, place, freenum, 2)
    ensures |nodes| == |m| && 2 <= |m| && nodes[0].level == m[0].level && nodes[1].level == m[1].level
  {
    SweepSize(m, keep, hash, nodes, lists, freepos, place, freenum, 2);
    hide Sweeping;
    assert nodes[0] == nodes[0] && nodes[1] == nodes[1];
  }

  lemma ClearedFields(t: Table, m: seq<BddNode>)
    requires OnRecord(t.nodes, t.dd, t.ext) && Cleared(t.nodes, m, |m|)
    ensures |m| == |t.nodes| && 2 <= |m|
    ensures forall n {:trigger m[n]} :: 0 <= n < |m| ==> m[n] == t.nodes[n].(mark := m[n].mark, hash := 0)
    ensures m[0].level == t.nodes[0].level && m[1].level == t.nodes[1].level
  {
    hide Canon;
    assert m[0] == m[0] && m[1] == m[1];
  }

  lemma ClearedCounters(nodes: seq<BddNode>, m: seq<BddNode>)
    requires Cleared(nodes, m, |m|) && Counters(nodes)
    ensures Counters(m) && |m| == |nodes| && forall n {:trigger m[n]} :: 0 <= n < |m| ==> m[n].refcou == nodes[n].refcou
  {
  }

  lemma SoundStored(t: Table, hash: Hash)
    requires Sound(t, hash)
    ensures OnRecord(t.nodes, t.dd, t.ext) && InRange(hash) && 2 <= |t.nodes|
  {
    hide Heads, Threaded, Keyed, Canon, Referenced, Unmarked;
  }

  /** What the sweep leaves has the widths again. */
  lemma SweptWidths(m: seq<BddNode>, keep: Trees, hash: Hash, ext: set<nat>, nodes: seq<BddNode>, lists: Lists, freepos: nat, place: Places, freenum: nat)
    requires Sweeping(m, keep, hash, nodes, lists, freepos, place, freenum, 2) && Counters(m) && Sweepable(m, keep, ext)
    ensures Widths(nodes) && |nodes| == |m| && forall n {:trigger nodes[n]} :: 2 <= n < |nodes| && n in keep ==> nodes[n].refcou == m[n].refcou
  {
    SweptSlots(m, keep, hash, nodes, lists, freepos, place, freenum);
    SweepSize(m, keep, hash, nodes, lists, freepos, place, freenum, 2);
    hide Sweeping, Canon;
    forall n | 0 <= n < |nodes|
      ensures nodes[n].refcou <= MAXREF && (2 <= n && nodes[n].low == -1 ==> nodes[n].level == 0)
    {
      assert m[n].refcou <= MAXREF;
      if 2 <= n {
        assert SweptSlot(m[n], n in keep, nodes[n]);
        assert n in keep ==> Fits(m, keep, n);
      } else {
        assert nodes[n] == m[n].(hash := nodes[n].hash, next := nodes[n].next);
      }
    }
    assert nodes[0] == m[0].(hash := nodes[0].hash, next := nodes[0].next) && nodes[1] == m[1].(hash := nodes[1].hash, next := nodes[1].next);
  }

  lemma StackKept(t: Table, stack: seq<nat>, t': Table)
    requires t'.dd == LiveTrees(t.dd, t.ext, stack) && forall r {:trigger r in stack} :: r in stack ==> r in t.dd
    ensures forall r {:trigger r in stack} :: r in stack ==> r in t'.dd
  {
    forall r | r in stack ensures r in t'.dd {
      RootLive(t.dd, t.ext, stack, r);
    }
  }

  lemma FreeLeft(t: Table, hash: Hash)
    requires Sound(t, hash) && 0 < t.freenum
    ensures t.freepos != 0
  {
    ConstantsAt(t, hash);
    EntryPlace(t.nodes, t.lists, t.place, Free, |t.lists[Free]| - 1);
  }

  ghost predicate IdsBelow(pairs: Pairs, id: nat) {
    forall m {:trigger m in pairs} :: m in pairs ==> m <= id
  }

  /** No entry of quantvarset carries a stamp that is not yet used. */
  ghost predicate Stamped(quantvarset: seq<int>, id: nat) {
    forall l {:trigger quantvarset[l]} :: 0 <= l < |quantvarset| ==> 0 - id <= quantvarset[l] <= id
  }

  /** kernel.h: bdd_setvarnum takes fewer variables than this. */
  const MAXVAR: nat := 0x1FFFFF

  function Zeros(n: nat): (r: seq<int>)
    ensures |r| == n && forall i {:trigger r[i]} :: 0 <= i < n ==> r[i] == 0
  {
    seq(n, _ => 0)
  }

  ghost predicate Literals(varset: seq<nat>, n: nat, dd: Trees, ext: set<nat>) {
    && |varset| == 2 * n
    && forall v {:trigger varset[2 * v]} {:trigger varset[2 * v + 1]} :: 0 <= v < n ==>
         && varset[2 * v] in ext && varset[2 * v] in dd && dd[varset[2 * v]] == Node(v, Leaf(false), Leaf(true))
         && varset[2 * v + 1] in ext && varset[2 * v + 1] in dd && dd[varset[2 * v + 1]] == Node(v, Leaf(true), Leaf(false))
  }

  /** What has a reference keeps it and its tree. */
  ghost predicate KeepsRefs(t: Table, t': Table) {
    && t.ext <= t'.ext
    && forall n {:trigger n in t'.dd} {:trigger t'.dd[n]} :: Live(t.dd, t.ext, [], n) ==> n in t'.dd && t'.dd[n] == t.dd[n]
  }

  lemma KeepsRefsNothing(t: Table)
    ensures KeepsRefs(t, t)
  {
  }

  lemma MoreRefs(t: Table, t2: Table, t': Table)
    requires KeepsRefs(t, t2) && t'.dd == t2.dd && t2.ext <= t'.ext
    ensures KeepsRefs(t, t')
  {
  }

  lemma KeepsRefsTrans(t: Table, t': Table, t'': Table)
    requires KeepsRefs(t, t') && KeepsRefs(t', t'')
    ensures KeepsRefs(t, t'')
  {
    forall n | Live(t.dd, t.ext, [], n) ensures n in t''.dd && t''.dd[n] == t.dd[n] {
      if 2 <= n {
        var r :| Root(t.ext, [], r) && r in t.dd && Subtree(t.dd[n], t.dd[r]);
        assert Live(t.dd, t.ext, [], r);
        assert r in t'.dd && Root(t'.ext, [], r);
      }
      assert n in t'.dd && Live(t'.dd, t'.ext, [], n);
    }
  }

  /** New nodes are tests of variable v over constants, or constants. */
  ghost predicate OnlyVariables(dd: Trees, dd': Trees, v: nat) {
    forall m {:trigger m in dd'} {:trigger dd'[m]} :: m in dd' ==>
      (m in dd && dd'[m] == dd[m]) || (dd'[m].Node? && dd'[m].level == v)
  }

  lemma LevelledBelow(nodes: seq<BddNode>, dd: Trees, n: nat, num: nat)
    requires Levelled(nodes, dd, n) && n < num
    ensures LowLevels(dd, num) && 2 <= |nodes|
  {
  }

  lemma VariablesBelow(dd: Trees, dd': Trees, v: nat, num: nat)
    requires OnlyVariables(dd, dd', v) && LowLevels(dd, num) && v < num
    ensures LowLevels(dd', num)
  {
    forall m | m in dd' ensures DdBelow(dd'[m], num) {
      if m in dd { assert DdBelow(dd[m], num); }
    }
  }

  lemma ConstantsAlive(t: Table, hash: Hash, stack: seq<nat>)
    requires Sound(t, hash)
    ensures Live(t.dd, t.ext, stack, 0) && Live(t.dd, t.ext, stack, 1)
    ensures 0 in t.dd && 1 in t.dd && t.dd[0] == Leaf(false) && t.dd[1] == Leaf(true)
  {
    ConstantsAt(t, hash);
  }

  lemma StepTwice(t: Table, stack: seq<nat>, t1: Table, p: nat, t2: Table, q: nat)
    requires Step(t, stack, t1, p) && Step(t1, stack + [p], t2, q) && p in t1.dd && q in t2.dd
    ensures KeepsRefs(t, t2) && t2.ext == t.ext && p in t2.dd && t2.dd[p] == t1.dd[p]
    ensures forall v: nat {:trigger OnlyVariables(t.dd, t2.dd, v)} ::
              t1.dd[p].Node? && t1.dd[p].level == v && t2.dd[q].Node? && t2.dd[q].level == v ==> OnlyVariables(t.dd, t2.dd, v)
  {
    KeepsTrans(t, stack, t1, stack + [p], t2);
    RootLive(t1.dd, t1.ext, stack + [p], p);
    forall n: nat | Live(t.dd, t.ext, [], n) ensures n in t2.dd && t2.dd[n] == t.dd[n] {
      LiveMore(t.dd, t.ext, [], stack, n);
    }
  }

  lemma LiteralNodes(t: Table, hash: Hash, v: nat, p: nat, q: nat)
    requires Sound(t, hash) && p in t.dd && q in t.dd
    requires t.dd[p] == Node(v, Leaf(false), Leaf(true)) && t.dd[q] == Node(v, Leaf(true), Leaf(false))
    ensures 2 <= p < |t.nodes| && 2 <= q < |t.nodes| && p != q
  {
    NodeAt(t, hash, p);
    NodeAt(t, hash, q);
  }

  lemma NewLiteral(varset: seq<nat>, v: nat, t: Table, t2: Table, p: nat, q: nat)
    requires Literals(varset, v, t.dd, t.ext) && KeepsRefs(t, t2) && t2.ext == t.ext && p in t2.dd && q in t2.dd
    requires t2.dd[p] == Node(v, Leaf(false), Leaf(true)) && t2.dd[q] == Node(v, Leaf(true), Leaf(false))
    ensures Literals(varset + [p, q], v + 1, t2.dd, t.ext + {p} + {q})
  {
    var varset' := varset + [p, q];
    forall n | n in t.ext && n in t.dd ensures n in t2.dd && t2.dd[n] == t.dd[n] {
      RootLive(t.dd, t.ext, [], n);
    }
    forall k | 0 <= k < v + 1
      ensures varset'[2 * k] in t.ext + {p} + {q} && varset'[2 * k] in t2.dd && t2.dd[varset'[2 * k]] == Node(k, Leaf(false), Leaf(true))
      ensures varset'[2 * k + 1] in t.ext + {p} + {q} && varset'[2 * k + 1] in t2.dd && t2.dd[varset'[2 * k + 1]] == Node(k, Leaf(true), Leaf(false))
    {
      if k < v {
        assert varset'[2 * k] == varset[2 * k] && varset'[2 * k + 1] == varset[2 * k + 1];
      }
    }
  }

  /** The level of the constants is no part of the chains. */
  lemma LevelSound(t: Table, hash: Hash, num: nat)
    requires Sound(t, hash)
    ensures 2 <= |t.nodes|
    ensures var nodes1 := t.nodes[0 := t.nodes[0].(level := num)];
            Sound(t.(nodes := nodes1[1 := nodes1[1].(level := num)]), hash)
  {
    ConstantsAt(t, hash);
    hide Heads, Threaded, Recorded, Keyed, Canon, Fits;
    var nodes1 := t.nodes[0 := t.nodes[0].(level := num)];
    var nodes' := nodes1[1 := nodes1[1].(level := num)];
    HeadsKeep(t.nodes, t.lists, t.freepos, nodes', t.lists, t.freepos);
    Relabel(t.nodes, t.lists, t.place, nodes');
    LevelRecorded(t, hash, nodes');
  }

  lemma LevelRecorded(t: Table, hash: Hash, nodes': seq<BddNode>)
    requires Recorded(t.nodes, t.dd) && Keyed(t.nodes, t.dd, hash, t.place) && |nodes'| == |t.nodes|
    requires forall n {:trigger nodes'[n]} :: 2 <= n < |nodes'| ==> nodes'[n] == t.nodes[n]
    ensures Recorded(nodes', t.dd) && Keyed(nodes', t.dd, hash, t.place)
  {
    forall k | k in t.dd && 2 <= k ensures k < |nodes'| && Fits(nodes', t.dd, k) {
      assert Fits(t.nodes, t.dd, k);
    }
    forall k | k in t.place ensures t.place[k].0 == KeyOf(nodes', t.dd, hash, k) {
      assert t.place[k].0 == KeyOf(t.nodes, t.dd, hash, k);
    }
  }

  /** Only the counts in the misc cache depend on the number of variables, and that cache is reset. */
  lemma LevelCaches(c: Caches, dd: Trees, pairs: Pairs, n: nat, n': nat)
    requires CachesOk(c, dd, pairs, n)
    ensures CachesOk(c.(misc := Reset(c.misc)), dd, pairs, n')
  {
    LevelCache(ApplyKind, c.apply, dd, pairs, n, n');
    LevelCache(IteKind, c.ite, dd, pairs, n, n');
    LevelCache(QuantKind, c.quant, dd, pairs, n, n');
    LevelCache(AppexKind, c.appex, dd, pairs, n, n');
    LevelCache(ReplaceKind, c.replace, dd, pairs, n, n');
    Generations(c, dd, pairs, n);
    ResetOk(MiscKind, c.misc, dd, pairs, n');
  }

  lemma LevelCache(kind: Kind, c: Cache, dd: Trees, pairs: Pairs, n: nat, n': nat)
    requires CacheOk(kind, c, dd, pairs, n) && kind != MiscKind
    ensures CacheOk(kind, c, dd, pairs, n')
  {
    hide ApplyEntry, IteEntry, QuantEntry, AppexEntry, ReplaceEntry;
  }

  /** The table of bdd_init. */
  function Initial(size: nat): (r: seq<BddNode>)
    requires 2 < size
    ensures |r| == size
    ensures r[0] == BddNode(MAXLEVEL, 0, 0, MAXREF, false, 0, 1) && r[1] == BddNode(MAXLEVEL, 1, 1, MAXREF, false, 0, 2)
    ensures forall n {:trigger r[n]} :: 2 <= n < size ==> r[n] == BddNode(0, -1, 0, 0, false, 0, if n == size - 1 then 0 else n + 1)
  {
    [BddNode(MAXLEVEL, 0, 0, MAXREF, false, 0, 1), BddNode(MAXLEVEL, 1, 1, MAXREF, false, 0, 2)]
    + seq(size - 2, i requires 0 <= i => BddNode(0, -1, 0, 0, false, 0, if i + 2 == size - 1 then 0 else i + 3))
  }

  function FreeEntry(size: nat, i: nat): nat
    requires i < size
  {
    size - 1 - i
  }

  ghost function InitialLists(size: nat): Lists
    requires 2 < size
  {
    NoLists(size)[Free := seq(size - 2, i requires 0 <= i < size - 2 => FreeEntry(size, i))]
  }

  function FreePlace(size: nat, n: nat): (Key, nat)
    requires n < size
  {
    (Free, size - 1 - n)
  }

  ghost function InitialPlaces(size: nat): Places {
    map n: nat | 2 <= n < size :: FreePlace(size, n)
  }

  lemma InitialThreaded(size: nat)
    requires 2 < size
    ensures Threaded(Initial(size), InitialLists(size), InitialPlaces(size))
  {
    hide Initial;
    var nodes, lists, place := Initial(size), InitialLists(size), InitialPlaces(size);
    InitialPlaced(size);
    forall n | 0 <= n < |nodes| && n in place ensures nodes[n].next == Prev(lists[place[n].0], place[n].1) {
      InitialNext(size, n);
    }
  }

  lemma InitialNext(size: nat, n: nat)
    requires 2 <= n < size
    ensures n in InitialPlaces(size) && InitialPlaces(size)[n] == (Free, size - 1 - n)
    ensures Initial(size)[n].next == Prev(InitialLists(size)[Free], size - 1 - n)
  {
    var c := InitialLists(size)[Free];
    assert InitialPlaces(size)[n] == FreePlace(size, n);
    if n < size - 1 { assert c[size - 2 - n] == FreeEntry(size, size - 2 - n); }
  }

  lemma InitialPlaced(size: nat)
    requires 2 < size
    ensures Placed(size, InitialLists(size), InitialPlaces(size))
  {
    var lists, place := InitialLists(size), InitialPlaces(size);
    var c := lists[Free];
    forall k, i | k in lists && 0 <= i < |lists[k]|
      ensures 2 <= lists[k][i] < size && lists[k][i] in place && place[lists[k][i]] == (k, i)
    {
      assert k == Free && c[i] == FreeEntry(size, i);
    }
    forall n | n in place
      ensures place[n].0 in lists && place[n].1 < |lists[place[n].0]| && lists[place[n].0][place[n].1] == n
    {
      assert place[n] == FreePlace(size, n) && c[size - 1 - n] == FreeEntry(size, size - 1 - n);
    }
  }

  lemma InitialHeads(size: nat)
    requires 2 < size
    ensures Heads(Initial(size), InitialLists(size), 2)
  {
    hide Initial;
    var nodes, lists := Initial(size), InitialLists(size);
    assert lists[Free][size - 3] == FreeEntry(size, size - 3);
    forall b: nat | b < |nodes| ensures Bucket(b) in lists && nodes[b].hash == Head(lists, Bucket(b)) {
      assert lists[Bucket(b)] == [];
    }
  }

  lemma {:induction false} InitialSound(size: nat, hash: Hash)
    requires 2 < size && InRange(hash)
    ensures Sound(Table(Initial(size), 2, size - 2, map[0 := Leaf(false), 1 := Leaf(true)], {}, InitialLists(size), InitialPlaces(size)), hash)
  {
    InitialThreaded(size);
    InitialHeads(size);
    hide Heads, Threaded, Initial;
    var nodes, place, dd := Initial(size), InitialPlaces(size), map[0 := Leaf(false), 1 := Leaf(true)];
    forall n | n in place ensures place[n].0 == KeyOf(nodes, dd, hash, n) {
      assert place[n] == FreePlace(size, n);
    }
  }

  lemma EmptyOk(c: Cache, dd: Trees, pairs: Pairs, n: nat)
    requires 0 < |c.table| && c.generation == 1 && forall i {:trigger c.table[i]} :: 0 <= i < |c.table| ==> c.table[i].generation == 0
    ensures CachesOk(Caches(c, c, c, c, c, c), dd, pairs, n)
  {
    hide EntryOk;
  }

  lemma PushLive(dd: Trees, ext: set<nat>, stack: seq<nat>, n: nat)
    ensures forall m: nat {:trigger Live(dd, ext, stack, m)} :: Live(dd, ext, stack, m) ==> Live(dd, ext, stack + [n], m)
  {
    forall m: nat | Live(dd, ext, stack, m) ensures Live(dd, ext, stack + [n], m) {
      LiveMore(dd, ext, stack, stack + [n], m);
    }
  }

  lemma NotAt(t: Table, hash: Hash, n: nat)
    requires Sound(t, hash) && |t.nodes| <= n
    ensures n !in t.dd
  {
    hide Heads, Threaded, Keyed, Canon;
  }

  /** Changing one reference count. */
  lemma RefSound(t: Table, hash: Hash, n: nat, c: nat)
    requires Sound(t, hash) && 2 <= n < |t.nodes| && n in t.dd
    ensures var nodes' := t.nodes[n := t.nodes[n].(refcou := c)];
            Sound(t.(nodes := nodes', ext := if c > 0 then t.ext + {n} else t.ext - {n}), hash)
    ensures n in t.ext <==> 0 < t.nodes[n].refcou
  {
    hide Heads, Threaded, Recorded, Keyed, Canon, Fits;
    var nodes' := t.nodes[n := t.nodes[n].(refcou := c)];
    ConstantsAt(t, hash);
    HeadsKeep(t.nodes, t.lists, t.freepos, nodes', t.lists, t.freepos);
    Relabel(t.nodes, t.lists, t.place, nodes');
    RefRecorded(t, n, c);
    RefKeyed(t, hash, n, c);
  }

  lemma RefRecorded(t: Table, n: nat, c: nat)
    requires Recorded(t.nodes, t.dd) && 2 <= n < |t.nodes| && n in t.dd
    ensures Recorded(t.nodes[n := t.nodes[n].(refcou := c)], t.dd)
  {
    var nodes' := t.nodes[n := t.nodes[n].(refcou := c)];
    forall k | k in t.dd && 2 <= k ensures k < |nodes'| && Fits(nodes', t.dd, k) {
      assert Fits(t.nodes, t.dd, k);
    }
  }

  lemma RefKeyed(t: Table, hash: Hash, n: nat, c: nat)
    requires Keyed(t.nodes, t.dd, hash, t.place) && n < |t.nodes|
    ensures Keyed(t.nodes[n := t.nodes[n].(refcou := c)], t.dd, hash, t.place)
  {
    forall k | k in t.place ensures t.place[k].0 == KeyOf(t.nodes[n := t.nodes[n].(refcou := c)], t.dd, hash, k) {
      assert t.place[k].0 == KeyOf(t.nodes, t.dd, hash, k);
    }
  }

  /** What a step of the kernel leaves as it was, beside the live nodes. */
  ghost predicate Step(t: Table, stack: seq<nat>, t': Table, res: nat) {
    && Keeps(t, stack, t') && OnlyNew(t.dd, t'.dd, res)
    && 2 <= |t.nodes| && 2 <= |t'.nodes| && t'.nodes[0].level == t.nodes[0].level && t'.nodes[1].level == t.nodes[1].level
  }

  /** mark and, below slot n, hash are the only fields that may differ; the heads below n are zero. */
  ghost predicate Cleared(nodes: seq<BddNode>, nodes': seq<BddNode>, n: nat) {
    && |nodes'| == |nodes|
    && forall k {:trigger nodes'[k]} :: 0 <= k < |nodes| ==>
         nodes'[k] == nodes[k].(mark := nodes'[k].mark, hash := if k < n then 0 else nodes[k].hash)
  }

  ghost predicate MarkLoop(nodes: seq<BddNode>, nodes': seq<BddNode>, dd: Trees, ext: set<nat>, stack: seq<nat>, n: nat) {
    Cleared(nodes, nodes', n) && Reached(nodes', dd, ext, stack)
  }

  lemma ReachStart(t: Table, stack: seq<nat>)
    requires OnRecord(t.nodes, t.dd, t.ext)
    ensures MarkLoop(t.nodes, t.nodes, t.dd, t.ext, stack, 0)
  {
    hide Canon;
  }

  lemma LoopRecords(t: Table, nodes: seq<BddNode>, stack: seq<nat>, n: nat)
    requires OnRecord(t.nodes, t.dd, t.ext) && MarkLoop(t.nodes, nodes, t.dd, t.ext, stack, n)
    ensures Canon(t.dd) && Recorded(nodes, t.dd) && |nodes| == |t.nodes| && 0 in t.dd && 1 in t.dd
  {
    hide Reached;
    forall k | k in t.dd && 2 <= k ensures k < |nodes| && Fits(nodes, t.dd, k) {
      assert Fits(t.nodes, t.dd, k) && nodes[k] == nodes[k];
    }
  }

  lemma LoopExt(t: Table, nodes: seq<BddNode>, stack: seq<nat>, n: nat)
    requires OnRecord(t.nodes, t.dd, t.ext) && MarkLoop(t.nodes, nodes, t.dd, t.ext, stack, n) && n < |nodes|
    ensures 0 < nodes[n].refcou ==> n in t.dd && (2 <= n ==> n in t.ext)
    ensures n in t.ext ==> 0 < nodes[n].refcou && 2 <= n
  {
    hide Fits, Reached;
    assert 0 in t.dd && 1 in t.dd;
  }

  lemma LoopMark(nodes: seq<BddNode>, nodes1: seq<BddNode>, dd: Trees, ext: set<nat>, stack: seq<nat>, n: nat, i: nat, nodes2: seq<BddNode>)
    requires MarkLoop(nodes, nodes1, dd, ext, stack, n) && Spread(nodes1, dd, nodes2, i) && Root(ext, stack, i)
    ensures MarkLoop(nodes, nodes2, dd, ext, stack, n) && Marked(nodes2, i)
    ensures forall k: nat {:trigger Marked(nodes2, k)} :: Marked(nodes1, k) ==> Marked(nodes2, k)
  {
    ReachRoot(nodes1, dd, ext, stack, i, nodes2);
    hide Reached, Live;
    forall k | 0 <= k < |nodes| ensures nodes2[k] == nodes[k].(mark := nodes2[k].mark, hash := if k < n then 0 else nodes[k].hash) {
      assert nodes1[k] == nodes1[k];
    }
  }

  lemma LoopConstant(nodes: seq<BddNode>, nodes1: seq<BddNode>, dd: Trees, ext: set<nat>, stack: seq<nat>, n: nat, i: nat, nodes2: seq<BddNode>)
    requires MarkLoop(nodes, nodes1, dd, ext, stack, n) && nodes2 == nodes1
    ensures MarkLoop(nodes, nodes2, dd, ext, stack, n)
    ensures forall k: nat {:trigger Marked(nodes2, k)} :: Marked(nodes1, k) ==> Marked(nodes2, k)
  {
  }

  lemma LoopClear(t: Table, nodes: seq<BddNode>, ext: set<nat>, stack: seq<nat>, n: nat)
    requires MarkLoop(t.nodes, nodes, t.dd, ext, stack, n) && n < |nodes|
    ensures MarkLoop(t.nodes, nodes[n := nodes[n].(hash := 0)], t.dd, ext, stack, n + 1)
    ensures forall k: nat {:trigger Marked(nodes[n := nodes[n].(hash := 0)], k)} :: Marked(nodes, k) ==> Marked(nodes[n := nodes[n].(hash := 0)], k)
  {
    hide Live;
    var nodes' := nodes[n := nodes[n].(hash := 0)];
    forall k | 0 <= k < |nodes'| && nodes'[k].mark
      ensures 2 <= k && Live(t.dd, ext, stack, k) && ChildrenMarked(nodes', k)
    {
      assert nodes[k].mark && ChildrenMarked(nodes, k);
    }
  }

  lemma AllRoots(t: Table, nodes: seq<BddNode>, stack: seq<nat>)
    requires OnRecord(t.nodes, t.dd, t.ext) && |nodes| == |t.nodes|
    requires forall i {:trigger stack[i]} :: 0 <= i < |stack| ==> Marked(nodes, stack[i])
    requires forall i: nat {:trigger i in t.ext} :: i in t.ext && i < |nodes| ==> Marked(nodes, i)
    ensures RootsMarked(nodes, t.ext, stack)
  {
    hide Canon;
  }

  /** bdd_mark leaves constants alone. */
  lemma MarksOnly(nodes: seq<BddNode>, dd: Trees, nodes': seq<BddNode>, i: nat)
    requires Spread(nodes, dd, nodes', i)
    ensures |nodes'| == |nodes| && forall n {:trigger nodes'[n]} :: 0 <= n < |nodes| ==> nodes'[n] == nodes[n].(mark := nodes'[n].mark)
  {
  }

  lemma MarkedRecords(nodes: seq<BddNode>, dd: Trees, nodes': seq<BddNode>)
    requires Recorded(nodes, dd) && SameButMarks(nodes, nodes')
    ensures Recorded(nodes', dd)
  {
    forall n | n in dd && 2 <= n ensures n < |nodes'| && Fits(nodes', dd, n) {
      assert Fits(nodes, dd, n) && nodes'[n] == nodes'[n];
    }
  }

  /**
    Any run of references added (true) and taken back (false) on one node: as
    long as the counter neither saturates nor is taken below zero, it is the one
    it was with the first added and the second subtracted, and the node has a
    reference exactly as long as that is not zero.
  */
  method References(k: Kernel, n: nat, run: seq<bool>)
    requires k.Held() && 2 <= n && n in k.dd && n < |k.nodes|
    requires forall i {:trigger run[..i]} :: 0 <= i <= |run| ==>
               0 <= k.nodes[n].refcou + multiset(run[..i])[true] - multiset(run[..i])[false] < MAXREF
    modifies k`nodes, k`ext
    ensures k.Held() && n in k.dd && n < |k.nodes|
    ensures k.nodes[n].refcou == old(k.nodes[n].refcou) + multiset(run)[true] - multiset(run)[false]
    ensures n in k.ext <==> multiset(run)[false] < old(k.nodes[n].refcou) + multiset(run)[true]
  {
    hide Kernel.Held;
    var i := 0;
    assert run[..0] == [];
    while i < |run|
      invariant i <= |run| && k.Held() && n in k.dd && n < |k.nodes|
      invariant k.nodes[n].refcou == old(k.nodes[n].refcou) + multiset(run[..i])[true] - multiset(run[..i])[false]
    {
      assert run[..i + 1] == run[..i] + [run[i]];
      if run[i] {
        var r := k.AddRef(n);
      } else {
        var r, reported := k.DelRef(n);
      }
      i := i + 1;
    }
    assert run[..|run|] == run;
    RefCounted(k, n);
  }

  lemma RefCounted(k: Kernel, n: nat)
    requires k.Held() && 2 <= n && n in k.dd && n < |k.nodes|
    ensures n in k.ext <==> 0 < k.nodes[n].refcou
  {
    hide CachesOk, Heads, Threaded, Keyed, Canon, Recorded;
  }
}
