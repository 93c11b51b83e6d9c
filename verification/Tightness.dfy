/** The number of rounds in the convergence theorem cannot be lowered: for every height of at
    least two there is a tree, with sound tables, that needs one round more than its height. */
module Tightness {

  import opened Clusters
  import opened Collections
  import opened RouteTable
  import opened ClusterTree
  import opened Uplinks
  import opened Convergence

  // ----- Reports that arrive at once -----

  function Pairs(ls: seq<Link>): seq<Move> {
    if ls == [] then [] else [Send(ls[0].child), Receive(ls[0])] + Pairs(ls[1..])
  }

  function Delivered(net: Net, l: Link): Net {
    net[l.parent := Report(TableOf(net, l.parent), TableOf(net, l.child).Keys, l.child)]
  }

  function DeliverAll(net: Net, ls: seq<Link>): Net
    decreases ls
  {
    if ls == [] then net else DeliverAll(Delivered(net, ls[0]), ls[1..])
  }

  ghost predicate Idle(w: World) {
    forall c :: Queue(w, c) == []
  }

  lemma {:induction false} PairsDeliver(w: World, root: Name, ls: seq<Link>)
    requires Idle(w)
    ensures RunMoves(w, root, Pairs(ls)).net == DeliverAll(w.net, ls) && Idle(RunMoves(w, root, Pairs(ls)))
    decreases ls
  {
    if ls != [] {
      var l := ls[0];
      var w1 := Do(w, root, Send(l.child));
      var w2 := Do(w1, root, Receive(l));
      assert Queue(w1, l.child) == [SubtreeReport(TableOf(w.net, l.child).Keys, l.child)];
      forall c
        ensures Queue(w2, c) == []
      {
        DoQueue(w, root, Send(l.child), c);
        DoQueue(w1, root, Receive(l), c);
      }
      PairsDeliver(w2, root, ls[1..]);
      RunMovesAppend(w, root, [Send(l.child), Receive(l)], Pairs(ls[1..]));
      TwoMoves(w, root, Send(l.child), Receive(l));
    }
  }

  lemma TwoMoves(w: World, root: Name, a: Move, b: Move)
    ensures RunMoves(w, root, [a, b]) == Do(Do(w, root, a), root, b)
  {
    var both, one := [a, b], [b];
    assert both[1..] == one && one[1..] == [];
    assert RunMoves(Do(w, root, a), root, one) == RunMoves(Do(Do(w, root, a), root, b), root, []);
  }

  lemma {:induction false} PairsHave(ls: seq<Link>, l: Link)
    ensures Send(l.child) in Pairs(ls) || l !in ls
    ensures forall m :: m in Pairs(ls) ==> exists k :: k in ls && (m == Send(k.child) || m == Receive(k))
  {
    if ls != [] {
      PairsHave(ls[1..], l);
      forall m | m in Pairs(ls)
        ensures exists k :: k in ls && (m == Send(k.child) || m == Receive(k))
      {
        if m == Send(ls[0].child) || m == Receive(ls[0]) {
          assert ls[0] in ls;
        } else {
          assert m in Pairs(ls[1..]);
        }
      }
    }
  }

  // ----- A chain -----

  function Chain(ns: seq<Name>): Tree
    requires ns != []
  {
    Tree(ns[0], if |ns| == 1 then [] else [Chain(ns[1..])])
  }

  /** The links of a chain from the top down. */
  function ChainLinks(ns: seq<Name>): seq<Link> {
    if |ns| <= 1 then [] else [Link(ns[0], ns[1])] + ChainLinks(ns[1..])
  }

  lemma OnlyKid(n: Name, s: Tree)
    ensures Below(Tree(n, [s])) == Names(s) && KidNames(Tree(n, [s])) == {s.name}
    ensures Height(Tree(n, [s])) == 1 + Height(s)
    ensures Links(Tree(n, [s])) == {Link(n, s.name)} + Links(s)
  {
    var t := Tree(n, [s]);
    assert t.kids[1..] == [] && t.kids[0] == s;
    assert NamesOf(t.kids) == Names(s) + NamesOf([]);
    forall l
      ensures l in Links(t) <==> l == Link(n, s.name) || l in Links(s)
    {
    }
  }

  lemma {:induction false} ChainShape(ns: seq<Name>)
    requires ns != [] && NoDuplicates(ns)
    ensures Names(Chain(ns)) == Elems(ns) && Distinct(Chain(ns)) && Height(Chain(ns)) == |ns| - 1
    ensures forall l :: l in Links(Chain(ns)) <==> l in ChainLinks(ns)
  {
    if |ns| == 1 {
      LeafNames(Chain(ns));
    } else {
      ChainShape(ns[1..]);
      OnlyKid(ns[0], Chain(ns[1..]));
      assert ns == [ns[0]] + ns[1..];
      assert forall l :: l in ChainLinks(ns) <==> l == Link(ns[0], ns[1]) || l in ChainLinks(ns[1..]);
    }
  }

  // ----- A stale route down the chain -----

  /** Every table of the chain leads to `d` through the next cluster. */
  ghost function StaleNet(ns: seq<Name>, d: Name): Net
    requires ns != []
  {
    if |ns| == 1 then map[ns[0] := map[]]
    else StaleNet(ns[1..], d)[ns[0] := map[ns[1] := ns[1], d := ns[1]]]
  }

  /** The clusters more than `j` above the end of the chain still have the stale route. */
  ghost predicate Stuck(net: Net, ns: seq<Name>, d: Name, j: int) {
    forall i :: 0 <= i < |ns| - 1 && |ns| - 1 - i > j ==>
                  d in TableOf(net, ns[i]) && TableOf(net, ns[i])[d] == ns[i + 1]
  }

  lemma {:induction false} StaleKeys(ns: seq<Name>, d: Name)
    requires ns != []
    ensures StaleNet(ns, d).Keys == Elems(ns)
  {
    if |ns| > 1 {
      StaleKeys(ns[1..], d);
      assert ns == [ns[0]] + ns[1..];
    }
  }

  lemma {:induction false} StaleStuck(ns: seq<Name>, d: Name)
    requires ns != [] && NoDuplicates(ns)
    ensures Stuck(StaleNet(ns, d), ns, d, 0)
  {
    if |ns| > 1 {
      var rest := ns[1..];
      StaleStuck(rest, d);
      StaleKeys(rest, d);
      var net := StaleNet(ns, d);
      forall i | 0 <= i < |ns| - 1
        ensures d in TableOf(net, ns[i]) && TableOf(net, ns[i])[d] == ns[i + 1]
      {
        if i > 0 {
          assert ns[i] == rest[i - 1] && ns[i + 1] == rest[i] && ns[i] != ns[0];
        }
      }
    }
  }

  lemma {:induction false} StaleSound(ns: seq<Name>, d: Name)
    requires ns != [] && NoDuplicates(ns) && d !in ns
    ensures Sound(StaleNet(ns, d), Chain(ns))
  {
    if |ns| > 1 {
      var rest := ns[1..];
      StaleSound(rest, d);
      StaleKeys(rest, d);
      ChainShape(rest);
      TailWithout(ns);
      SoundFrame(StaleNet(rest, d), StaleNet(ns, d), Chain(rest));
      OneKidSound(StaleNet(ns, d), ns[0], Chain(rest), d);
    }
  }

  lemma TailWithout(ns: seq<Name>)
    requires NoDuplicates(ns) && ns != []
    ensures ns[0] !in ns[1..]
  {
    assert forall i :: 0 <= i < |ns[1..]| ==> ns[1..][i] == ns[i + 1];
  }

  lemma OneKidSound(net: Net, n: Name, s: Tree, d: Name)
    requires Sound(net, s) && n in net && net[n] == map[s.name := s.name, d := s.name] && d != s.name
    ensures Sound(net, Tree(n, [s]))
  {
    OnlyKid(n, s);
  }

  lemma {:induction false} SoundFrame(net: Net, net': Net, t: Tree)
    requires Sound(net, t) && forall m :: m in Names(t) && m in net ==> m in net' && net'[m] == net[m]
    ensures Sound(net', t)
    decreases t
  {
    forall i | 0 <= i < |t.kids|
      ensures Sound(net', t.kids[i])
    {
      forall m | m in Names(t.kids[i])
        ensures m in Names(t)
      {
        InKid(t, i, m);
      }
      SoundFrame(net, net', t.kids[i]);
    }
  }

  lemma {:induction false} ChainFrame(net: Net, ns: seq<Name>, m: Name)
    requires m !in ns
    ensures TableOf(DeliverAll(net, ChainLinks(ns)), m) == TableOf(net, m)
    decreases ns
  {
    if |ns| > 1 {
      var links := ChainLinks(ns);
      assert links[1..] == ChainLinks(ns[1..]);
      ChainFrame(Delivered(net, links[0]), ns[1..], m);
    }
  }

  /** A report that names `d`, or that comes from another child, leaves the stale route. */
  lemma StaleStands(t: Table, names: set<Name>, p: Name, d: Name)
    requires d in t && (d in names || t[d] != p)
    ensures d in Report(t, names, p) && Report(t, names, p)[d] == t[d]
  {
  }

  /** One round from the top down takes the stale route from one more cluster only. */
  lemma {:induction false} ChainSheds(net: Net, ns: seq<Name>, d: Name, j: nat)
    requires NoDuplicates(ns) && Stuck(net, ns, d, j)
    ensures Stuck(DeliverAll(net, ChainLinks(ns)), ns, d, j + 1)
    decreases ns
  {
    if |ns| > 1 {
      var rest, l := ns[1..], Link(ns[0], ns[1]);
      var net1 := Delivered(net, l);
      var net' := DeliverAll(net1, ChainLinks(rest));
      assert ChainLinks(ns)[1..] == ChainLinks(rest);
      forall i | 0 <= i < |rest| - 1 && |rest| - 1 - i > j
        ensures d in TableOf(net1, rest[i]) && TableOf(net1, rest[i])[d] == rest[i + 1]
      {
        assert rest[i] == ns[i + 1] && rest[i + 1] == ns[i + 2];
      }
      ChainSheds(net1, rest, d, j);
      if |ns| - 1 > j + 1 {
        assert d in TableOf(net, ns[0]) && d in TableOf(net, ns[1]);
        StaleStands(TableOf(net, ns[0]), TableOf(net, ns[1]).Keys, ns[1], d);
      }
      ChainFrame(net1, rest, ns[0]);
      forall i | 0 <= i < |ns| - 1 && |ns| - 1 - i > j + 1
        ensures d in TableOf(net', ns[i]) && TableOf(net', ns[i])[d] == ns[i + 1]
      {
        if i > 0 {
          assert ns[i] == rest[i - 1] && ns[i + 1] == rest[i];
        }
      }
    }
  }

  // ----- The tree -----

  /** A root above `a` with `d` below it, and beside them a chain. */
  function Fork(r: Name, a: Name, d: Name, ns: seq<Name>): Tree
    requires ns != []
  {
    Tree(r, [Tree(a, [Tree(d, [])]), Chain(ns)])
  }

  /** The route to `d` leads down the chain, where `d` is not. */
  ghost function ForkNet(r: Name, a: Name, d: Name, ns: seq<Name>): Net
    requires ns != []
  {
    StaleNet(ns, d)[a := map[d := d]][d := map[]][r := map[a := a, ns[0] := ns[0], d := ns[0]]]
  }

  /** One round from the top down, `a` before the chain. */
  function ForkRound(r: Name, a: Name, d: Name, ns: seq<Name>): seq<Link> {
    [Link(r, a)] + ChainLinks([r] + ns) + [Link(a, d)]
  }

  predicate Apart(r: Name, a: Name, d: Name, ns: seq<Name>) {
    NoDuplicates([r, a, d] + ns) && ns != []
  }

  lemma ApartNames(r: Name, a: Name, d: Name, ns: seq<Name>)
    requires Apart(r, a, d, ns)
    ensures r != a && r != d && a != d && r !in ns && a !in ns && d !in ns && NoDuplicates(ns) && NoDuplicates([r] + ns)
  {
    var all := [r, a, d] + ns;
    assert all[0] == r && all[1] == a && all[2] == d;
    assert forall i :: 0 <= i < |ns| ==> all[i + 3] == ns[i];
  }

  lemma ForkNames(r: Name, a: Name, d: Name, ns: seq<Name>)
    requires Apart(r, a, d, ns)
    ensures var t := Fork(r, a, d, ns);
            Distinct(t) && KidNames(t) == {a, ns[0]} && Below(t) == {a, d} + Elems(ns)
  {
    var t, leaf := Fork(r, a, d, ns), Tree(d, []);
    ApartNames(r, a, d, ns);
    ChainShape(ns);
    LeafNames(leaf);
    OnlyKid(a, leaf);
    TwoKidNames(t);
    BelowTwo(t.kids[0], t.kids[1]);
    LeftDistinct(a, d);
    ForkDistinct(t);
  }

  lemma LeftDistinct(a: Name, d: Name)
    requires a != d
    ensures Distinct(Tree(a, [Tree(d, [])])) && Names(Tree(a, [Tree(d, [])])) == {a, d}
  {
    LeafNames(Tree(d, []));
    OnlyKid(a, Tree(d, []));
  }

  lemma ForkShape(r: Name, a: Name, d: Name, ns: seq<Name>)
    requires Apart(r, a, d, ns) && |ns| >= 2
    ensures var t := Fork(r, a, d, ns);
            && Distinct(t) && Height(t) == |ns| && KidNames(t) == {a, ns[0]}
            && Below(t) == {a, d} + Elems(ns) && forall l :: l in Links(t) <==> l in ForkRound(r, a, d, ns)
  {
    ApartNames(r, a, d, ns);
    ChainShape(ns);
    ForkNames(r, a, d, ns);
    OnlyKid(a, Tree(d, []));
    ForkHeight(Fork(r, a, d, ns));
    ForkLinks(r, a, d, ns);
  }

  lemma ForkDistinct(t: Tree)
    requires |t.kids| == 2 && Distinct(t.kids[0]) && Distinct(t.kids[1])
    requires t.name !in Below(t) && Names(t.kids[0]) !! Names(t.kids[1])
    ensures Distinct(t)
  {
  }

  lemma ForkHeight(t: Tree)
    requires |t.kids| == 2 && Height(t.kids[0]) == 1 && Height(t.kids[1]) >= 1
    ensures Height(t) == 1 + Height(t.kids[1])
  {
    assert t.kids[1..] == [t.kids[1]];
    assert MaxHeight(t.kids[1..]) == Height(t.kids[1]);
  }

  lemma ForkLinks(r: Name, a: Name, d: Name, ns: seq<Name>)
    requires ns != [] && NoDuplicates(ns)
    ensures forall l :: l in Links(Fork(r, a, d, ns)) <==> l in ForkRound(r, a, d, ns)
  {
    ChainShape(ns);
    LeftLinks(a, d);
    TwoKidLinks(Fork(r, a, d, ns));
    RoundLinks(r, a, d, ns);
  }

  lemma LeftLinks(a: Name, d: Name)
    ensures Links(Tree(a, [Tree(d, [])])) == {Link(a, d)}
  {
    OnlyKid(a, Tree(d, []));
    assert Links(Tree(d, [])) == {};
  }

  lemma RoundLinks(r: Name, a: Name, d: Name, ns: seq<Name>)
    requires ns != []
    ensures forall l :: l in ForkRound(r, a, d, ns) <==>
                        l == Link(r, a) || l == Link(r, ns[0]) || l in ChainLinks(ns) || l == Link(a, d)
  {
    var full := [r] + ns;
    assert full[1..] == ns && full[1] == ns[0];
    assert ChainLinks(full) == [Link(r, ns[0])] + ChainLinks(ns);
  }

  lemma {:induction false} TwoKidLinks(t: Tree)
    requires |t.kids| == 2
    ensures Links(t) ==
            {Link(t.name, t.kids[0].name), Link(t.name, t.kids[1].name)} + Links(t.kids[0]) + Links(t.kids[1])
  {
    var both := {Link(t.name, t.kids[0].name), Link(t.name, t.kids[1].name)} + Links(t.kids[0]) + Links(t.kids[1]);
    forall l | l in Links(t)
      ensures l in both
    {
      if i :| 0 <= i < |t.kids| && l in Links(t.kids[i]) {
        assert i == 0 || i == 1;
      } else {
        var i :| 0 <= i < |t.kids| && l == Link(t.name, t.kids[i].name);
        assert i == 0 || i == 1;
      }
    }
    assert both <= Links(t);
  }

  lemma TwoKidNames(t: Tree)
    requires |t.kids| == 2
    ensures KidNames(t) == {t.kids[0].name, t.kids[1].name}
  {
    assert t.kids == [t.kids[0], t.kids[1]];
  }

  lemma ForkStuck(r: Name, a: Name, d: Name, ns: seq<Name>)
    requires Apart(r, a, d, ns)
    ensures Stuck(ForkNet(r, a, d, ns), [r] + ns, d, 0)
  {
    ApartNames(r, a, d, ns);
    StaleStuck(ns, d);
    var net, full := ForkNet(r, a, d, ns), [r] + ns;
    forall i | 0 <= i < |full| - 1
      ensures d in TableOf(net, full[i]) && TableOf(net, full[i])[d] == full[i + 1]
    {
      if i > 0 {
        assert full[i] == ns[i - 1] && full[i + 1] == ns[i];
        assert TableOf(net, ns[i - 1]) == TableOf(StaleNet(ns, d), ns[i - 1]);
      }
    }
  }

  lemma ForkChainSound(r: Name, a: Name, d: Name, ns: seq<Name>)
    requires Apart(r, a, d, ns)
    ensures Sound(ForkNet(r, a, d, ns), Chain(ns))
  {
    ApartNames(r, a, d, ns);
    StaleSound(ns, d);
    StaleKeys(ns, d);
    ChainShape(ns);
    SoundFrame(StaleNet(ns, d), ForkNet(r, a, d, ns), Chain(ns));
  }

  lemma LeftSound(net: Net, a: Name, d: Name)
    requires a != d && a in net && net[a] == map[d := d] && d in net && net[d] == map[]
    ensures Sound(net, Tree(a, [Tree(d, [])]))
  {
    OnlyKid(a, Tree(d, []));
    assert Sound(net, Tree(d, []));
  }

  lemma ForkSound(r: Name, a: Name, d: Name, ns: seq<Name>)
    requires Apart(r, a, d, ns) && |ns| >= 2
    ensures Sound(ForkNet(r, a, d, ns), Fork(r, a, d, ns))
  {
    var net, t := ForkNet(r, a, d, ns), Fork(r, a, d, ns);
    ApartNames(r, a, d, ns);
    ForkShape(r, a, d, ns);
    ForkChainSound(r, a, d, ns);
    LeftSound(net, a, d);
    assert t.kids[0] == Tree(a, [Tree(d, [])]) && t.kids[1] == Chain(ns);
    assert net[r] == map[a := a, ns[0] := ns[0], d := ns[0]];
  }

  lemma ForkIsRound(w: World, r: Name, a: Name, d: Name, ns: seq<Name>)
    requires Apart(r, a, d, ns) && |ns| >= 2 && Idle(w)
    ensures IsRound(w, Fork(r, a, d, ns), Pairs(ForkRound(r, a, d, ns)))
  {
    var t, ls := Fork(r, a, d, ns), ForkRound(r, a, d, ns);
    ForkShape(r, a, d, ns);
    PairsDeliver(w, r, ls);
    forall m | m in Pairs(ls)
      ensures OfTree(t, m)
    {
      PairsHave(ls, Link(r, a));
      var k :| k in ls && (m == Send(k.child) || m == Receive(k));
      LinkEnds(t, k);
    }
    forall c | c in Below(t)
      ensures Send(c) in Pairs(ls)
    {
      var l := HasLink(t, c);
      PairsHave(ls, l);
    }
  }

  lemma {:induction false} HasLink(t: Tree, c: Name) returns (l: Link)
    requires c in Below(t)
    ensures l in Links(t) && l.child == c
    decreases t
  {
    var i := KidOf(t, c);
    if c == t.kids[i].name {
      l := Link(t.name, c);
    } else {
      l := HasLink(t.kids[i], c);
    }
  }

  /** After `a` was refused the chain's report keeps the stale route at the root or takes it away. */
  lemma ForkRoot(net: Net, r: Name, a: Name, d: Name, ns: seq<Name>)
    requires Apart(r, a, d, ns) && d in TableOf(net, r) && TableOf(net, r)[d] == ns[0]
    ensures var t := TableOf(DeliverAll(Delivered(net, Link(r, a)), ChainLinks([r] + ns)), r);
            d in t ==> t[d] == ns[0]
  {
    ApartNames(r, a, d, ns);
    var full, net1 := [r] + ns, Delivered(net, Link(r, a));
    assert full[0] == r && full[1] == ns[0] && full[1..] == ns;
    StaleStands(TableOf(net, r), TableOf(net, a).Keys, a, d);
    assert ChainLinks(full) == [Link(r, ns[0])] + ChainLinks(ns);
    assert ChainLinks(full)[1..] == ChainLinks(ns);
    ChainFrame(Delivered(net1, Link(r, ns[0])), ns, r);
  }

  lemma {:induction false} ForkChain(net: Net, r: Name, a: Name, d: Name, ns: seq<Name>, j: nat)
    requires Apart(r, a, d, ns) && j < |ns| && Stuck(net, [r] + ns, d, j)
    ensures Stuck(DeliverAll(Delivered(net, Link(r, a)), ChainLinks([r] + ns)), [r] + ns, d, j + 1)
  {
    ApartNames(r, a, d, ns);
    var full, net1 := [r] + ns, Delivered(net, Link(r, a));
    assert full[0] == r && full[1] == ns[0];
    StaleStands(TableOf(net, r), TableOf(net, a).Keys, a, d);
    assert Stuck(net1, full, d, j);
    ChainSheds(net1, full, d, j);
  }

  /** A round keeps the stale route at the root, or takes it away after `a` was refused. */
  lemma ForkStep(net: Net, r: Name, a: Name, d: Name, ns: seq<Name>, j: nat)
    requires Apart(r, a, d, ns) && j < |ns| && Stuck(net, [r] + ns, d, j)
    ensures var net' := DeliverAll(net, ForkRound(r, a, d, ns));
            && Stuck(net', [r] + ns, d, j + 1)
            && (d in TableOf(net', r) ==> TableOf(net', r)[d] == ns[0])
  {
    ApartNames(r, a, d, ns);
    var full := [r] + ns;
    assert full[0] == r && full[1] == ns[0];
    ForkChain(net, r, a, d, ns, j);
    ForkRoot(net, r, a, d, ns);
    ForkLast(net, r, a, d, ns);
  }

  lemma ForkLast(net: Net, r: Name, a: Name, d: Name, ns: seq<Name>)
    requires Apart(r, a, d, ns)
    ensures var net2 := DeliverAll(Delivered(net, Link(r, a)), ChainLinks([r] + ns));
            var net' := DeliverAll(net, ForkRound(r, a, d, ns));
            forall m :: m != a ==> TableOf(net', m) == TableOf(net2, m)
  {
    var chain, last := ChainLinks([r] + ns), [Link(a, d)];
    DeliverAppend(Delivered(net, Link(r, a)), chain, last);
    assert ForkRound(r, a, d, ns)[1..] == chain + last;
    assert last[1..] == [];
  }

  lemma {:induction false} DeliverAppend(net: Net, x: seq<Link>, y: seq<Link>)
    ensures DeliverAll(net, x + y) == DeliverAll(DeliverAll(net, x), y)
    decreases x
  {
    if x == [] {
      assert x + y == y;
    } else {
      DeliverAppend(Delivered(net, x[0]), x[1..], y);
      assert (x + y)[1..] == x[1..] + y;
    }
  }

  /** The same round `k` times. */
  function Repeated(ms: seq<Move>, k: nat): seq<seq<Move>> {
    if k == 0 then [] else Repeated(ms, k - 1) + [ms]
  }

  lemma {:induction false} StaysStuck(w: World, r: Name, a: Name, d: Name, ns: seq<Name>, k: nat)
    requires Apart(r, a, d, ns) && |ns| >= 2 && k <= |ns| && Idle(w) && Stuck(w.net, [r] + ns, d, 0)
    ensures var rounds := Repeated(Pairs(ForkRound(r, a, d, ns)), k);
            var w' := RunRounds(w, r, rounds);
            && |rounds| == k && AreRounds(w, Fork(r, a, d, ns), rounds) && Idle(w') && Stuck(w'.net, [r] + ns, d, k)
            && (k > 0 && d in TableOf(w'.net, r) ==> TableOf(w'.net, r)[d] == ns[0])
  {
    if k > 0 {
      var ls := ForkRound(r, a, d, ns);
      var early := Repeated(Pairs(ls), k - 1);
      StaysStuck(w, r, a, d, ns, k - 1);
      var w1 := RunRounds(w, r, early);
      assert Repeated(Pairs(ls), k)[..k - 1] == early;
      ForkIsRound(w1, r, a, d, ns);
      PairsDeliver(w1, r, ls);
      ForkStep(w1.net, r, a, d, ns, k - 1);
    }
  }

  /** The lower bound: a tree of any height h of at least two, with sound tables and nothing on
      the way, and h rounds after which the tables are not exact. */
  lemma {:induction false} HeightIsNotEnough(r: Name, a: Name, d: Name, ns: seq<Name>)
    returns (t: Tree, w: World, rounds: seq<seq<Move>>)
    requires Apart(r, a, d, ns) && |ns| >= 2
    ensures Distinct(t) && Height(t) == |ns| && Sound(w.net, t) && Drained(w, t)
    ensures AreRounds(w, t, rounds) && |rounds| == Height(t) && !AllExact(RunRounds(w, t.name, rounds).net, t)
  {
    t, w := Fork(r, a, d, ns), World(ForkNet(r, a, d, ns), map[]);
    rounds := Repeated(Pairs(ForkRound(r, a, d, ns)), |ns|);
    ApartNames(r, a, d, ns);
    ForkShape(r, a, d, ns);
    ForkSound(r, a, d, ns);
    ForkStuck(r, a, d, ns);
    StaysStuck(w, r, a, d, ns, |ns|);
    LeafNames(Tree(d, []));
    OnlyKid(a, Tree(d, []));
    assert d in Names(t.kids[0]) && t.kids[0].name == a && a != ns[0];
  }
}
