/** Runs in which clusters connect and close while registrations, unregistrations and reports
    climb hop by hop: one handler is one step, and the steps of different messages interleave. */
module Churn {

  import opened Clusters
  import opened RouteTable
  import opened ClusterTree
  import opened Uplinks
  import opened Convergence
  import opened Membership

  datatype State = State(t: Tree, w: World)

  /** A cluster connects to the one at `path`, with the subtree, the tables and the messages on
      the way that it brings; child `i` of the one at `path` closes; or a cluster reports or
      handles the next message of a child. */
  datatype Step =
    | Connect(path: seq<nat>, s: Tree, sub: World)
    | Close(path: seq<nat>, i: nat)
    | Hop(m: Move)

  ghost predicate Enabled(st: State, step: Step) {
    match step
    case Connect(path, s, sub) =>
      && IsPath(st.t, path) && Distinct(s) && Names(s) !! Names(st.t)
      && sub.net.Keys == Names(s) && sub.up.Keys <= Names(s)
      && PortsSound(sub.net, s) && AllSigned(sub, s)
    case Close(path, i) => IsPath(st.t, path) && i < |NodeAt(st.t, path).kids|
    case Hop(m) => OfTree(st.t, m)
  }

  ghost predicate AllSigned(w: World, t: Tree) {
    forall c :: c in Names(t) ==> Signed(w, c)
  }

  /** The parent raises the registration of a connecting child and the unregistration of a
      closing one itself. What a closed child had on the way is dropped. */
  ghost function Next(st: State, step: Step): State
    requires Enabled(st, step)
  {
    match step
    case Connect(path, s, sub) =>
      State(Graft(st.t, path, s),
            Handled(Joined(st.w, s, sub), st.t.name, Link(NodeAt(st.t, path).name, s.name), Regist(s.name, s.name)))
    case Close(path, i) =>
      var n := NodeAt(st.t, path).kids[i].name;
      State(Prune(st.t, path, i),
            Handled(st.w.(up := st.w.up - {n}), st.t.name, Link(NodeAt(st.t, path).name, n), Unregist(n, n)))
    case Hop(m) => st.(w := Do(st.w, st.t.name, m))
  }

  ghost function Joined(w: World, s: Tree, sub: World): World {
    World(w.net + sub.net, (w.up - Names(s)) + sub.up)
  }

  /** The new parent has no route to the connecting child through another one. */
  ghost predicate Accepted(st: State, step: Step)
    requires Enabled(st, step)
  {
    step.Connect? ==> Accepts(TableOf(st.w.net, NodeAt(st.t, step.path).name), step.s.name, step.s.name)
  }

  /** The connecting subtree has no unregistration on the way of a cluster it is now below. */
  ghost predicate BringsSafe(st: State, step: Step)
    requires Enabled(st, step)
  {
    step.Connect? ==> Safe(step.sub, step.s, PathNames(st.t, step.path))
  }

  // ----- Messages on the way are safe -----

  /** No cluster has an unregistration on the way that names itself or a cluster above it. */
  ghost predicate Safe(w: World, t: Tree, above: set<Name>)
    decreases t
  {
    && SafeQueue(w, t.name, above + {t.name})
    && forall i :: 0 <= i < |t.kids| ==> Safe(w, t.kids[i], above + {t.name})
  }

  ghost predicate SafeQueue(w: World, c: Name, above: set<Name>) {
    forall e :: e in Queue(w, c) ==> SafeEvent(e, c, above)
  }

  predicate SafeEvent(e: Event, c: Name, above: set<Name>) {
    e.client == c && (e.Unregist? ==> e.to !in above)
  }

  /** The clusters on the way from the root to the one at `path`. */
  function PathNames(t: Tree, path: seq<nat>): set<Name>
    requires IsPath(t, path)
    decreases path
  {
    {t.name} + if path == [] then {} else PathNames(t.kids[path[0]], path[1..])
  }

  lemma HandledTable(w: World, root: Name, l: Link, e: Event, p: Name)
    ensures TableOf(Handled(w, root, l, e).net, p) ==
            if p == l.parent then Apply(TableOf(w.net, p), e) else TableOf(w.net, p)
    ensures p in Handled(w, root, l, e).net <==> p in w.net || p == l.parent
  {
  }

  lemma HandledQueue(w: World, root: Name, l: Link, e: Event, c: Name)
    ensures Queue(Handled(w, root, l, e), c) ==
            Queue(w, c) + if c == l.parent && c != root && SendsOn(TableOf(w.net, c), e) then [From(e, c)] else []
  {
  }

  lemma SafeHead(w: World, t: Tree, above: set<Name>, m: Move)
    requires Distinct(t) && Safe(w, t, above) && FitsMove(t, m) && Handles(w, m, t.name)
    ensures SafeEvent(Queue(w, m.l.child)[0], m.l.child, above + {t.name} + {m.l.child})
  {
    RootLinks(t, m.l);
    var i := KidNamed(t, m.l.child);
    assert Safe(w, t.kids[i], above + {t.name});
  }

  lemma {:induction false} SafeStays(w: World, root: Name, m: Move, t: Tree, above: set<Name>)
    requires Distinct(t) && Safe(w, t, above) && FitsMove(t, m)
    ensures Safe(Do(w, root, m), t, above)
    decreases t
  {
    DoQueue(w, root, m, t.name);
    if Handles(w, m, t.name) {
      SafeHead(w, t, above, m);
    }
    forall i | 0 <= i < |t.kids|
      ensures Safe(Do(w, root, m), t.kids[i], above + {t.name})
    {
      if m.Receive? {
        FitsKid(t, m.l, i);
      }
      SafeStays(w, root, m, t.kids[i], above + {t.name});
    }
  }

  lemma {:induction false} SafeLink(w: World, t: Tree, above: set<Name>, l: Link)
    requires Distinct(t) && Safe(w, t, above) && l in Links(t)
    ensures forall e :: e in Queue(w, l.child) ==> Harmless(e, l.child)
    decreases t
  {
    if i :| 0 <= i < |t.kids| && l in Links(t.kids[i]) {
      SafeLink(w, t.kids[i], above + {t.name}, l);
    } else {
      var i :| 0 <= i < |t.kids| && l == Link(t.name, t.kids[i].name);
      assert Safe(w, t.kids[i], above + {t.name});
    }
  }

  ghost predicate SameQueues(w: World, w': World, names: set<Name>) {
    forall c :: c in names ==> Queue(w', c) == Queue(w, c)
  }

  lemma {:induction false} SafeFrame(w: World, w': World, t: Tree, above: set<Name>)
    requires Safe(w, t, above) && SameQueues(w, w', Names(t))
    ensures Safe(w', t, above)
    decreases t
  {
    forall i | 0 <= i < |t.kids|
      ensures Safe(w', t.kids[i], above + {t.name})
    {
      KidInside(t, i);
      SafeFrame(w, w', t.kids[i], above + {t.name});
    }
  }

  /** The cluster `x` has one more message on the way, if any. */
  ghost predicate OneMore(w: World, w': World, names: set<Name>, x: Name, e: Event) {
    && SameQueues(w, w', names - {x})
    && (Queue(w', x) == Queue(w, x) || Queue(w', x) == Queue(w, x) + [e])
  }

  lemma PathInside(t: Tree, path: seq<nat>)
    requires Distinct(t) && IsPath(t, path) && path != []
    ensures NodeAt(t, path).name in Names(t.kids[path[0]]) && NodeAt(t, path).name != t.name
    ensures forall j :: 0 <= j < |t.kids| && j != path[0] ==> NodeAt(t, path).name !in Names(t.kids[j])
  {
    NodeInside(t.kids[path[0]], path[1..]);
    KidInside(t, path[0]);
    forall j | 0 <= j < |t.kids| && j != path[0]
      ensures NodeAt(t, path).name !in Names(t.kids[j])
    {
      KidsApart(t, j, path[0]);
    }
  }

  lemma {:induction false} NodeInside(t: Tree, path: seq<nat>)
    requires IsPath(t, path)
    ensures NodeAt(t, path).name in Names(t) && Below(NodeAt(t, path)) <= Below(t)
    decreases path
  {
    if path != [] {
      NodeInside(t.kids[path[0]], path[1..]);
      KidInside(t, path[0]);
    }
  }

  lemma {:induction false} SafeGraft(w: World, w': World, t: Tree, path: seq<nat>, s: Tree, above: set<Name>)
    requires Distinct(t) && IsPath(t, path) && Safe(w, t, above) && Safe(w', s, above + PathNames(t, path))
    requires OneMore(w, w', Names(t), NodeAt(t, path).name, Regist(s.name, NodeAt(t, path).name))
    ensures Safe(w', Graft(t, path, s), above)
    decreases path
  {
    var t' := Graft(t, path, s);
    if path != [] {
      PathInside(t, path);
    }
    forall j | 0 <= j < |t'.kids|
      ensures Safe(w', t'.kids[j], above + {t.name})
    {
      if j < |t.kids| {
        KidInside(t, j);
      }
      if path != [] && j == path[0] {
        assert above + PathNames(t, path) == above + {t.name} + PathNames(t.kids[j], path[1..]);
        SafeGraft(w, w', t.kids[j], path[1..], s, above + {t.name});
      } else if j < |t.kids| {
        SafeFrame(w, w', t.kids[j], above + {t.name});
      } else {
        assert PathNames(t, path) == {t.name};
      }
    }
  }

  lemma {:induction false} SafePrune(w: World, w': World, t: Tree, path: seq<nat>, i: nat, above: set<Name>)
    requires Distinct(t) && IsPath(t, path) && i < |NodeAt(t, path).kids| && Safe(w, t, above) && above !! Names(t)
    requires var x := NodeAt(t, path);
             OneMore(w, w', Names(t) - {x.kids[i].name}, x.name, Unregist(x.kids[i].name, x.name))
    ensures Safe(w', Prune(t, path, i), above)
    decreases path
  {
    var t', x := Prune(t, path, i), NodeAt(t, path);
    LeavingInside(t, path, i);
    assert x.kids[i].name in Leaving(t, path, i);
    if path != [] {
      PathInside(t, path);
    }
    forall j | 0 <= j < |t'.kids|
      ensures Safe(w', t'.kids[j], above + {t.name})
    {
      if path != [] && j == path[0] {
        KidInside(t, j);
        SafePrune(w, w', t.kids[j], path[1..], i, above + {t.name});
      } else {
        var j' := if path == [] && j >= i then j + 1 else j;
        assert t'.kids[j] == t.kids[j'];
        KidInside(t, j');
        LeftOut(t, path, i, j');
        SafeFrame(w, w', t.kids[j'], above + {t.name});
      }
    }
  }

  /** A leaving cluster is in none of the other subtrees. */
  lemma LeftOut(t: Tree, path: seq<nat>, i: nat, j: nat)
    requires Distinct(t) && IsPath(t, path) && i < |NodeAt(t, path).kids| && j < |t.kids|
    requires if path == [] then j != i else j != path[0]
    ensures NodeAt(t, path).kids[i].name !in Names(t.kids[j]) && NodeAt(t, path).name !in Names(t.kids[j])
  {
    LeavingInside(t, path, i);
    assert NodeAt(t, path).kids[i].name in Leaving(t, path, i);
    KidsApart(t, j, if path == [] then i else path[0]);
    if path == [] {
      KidInside(t, j);
    } else {
      PathInside(t, path);
    }
  }

  // ----- Ports -----

  /** The table of `x` becomes `table`, and no other table of the tree changes. */
  ghost predicate OneTable(net: Net, net': Net, names: set<Name>, x: Name, table: Table) {
    Same(net, net', names - {x}) && x in net' && net'[x] == table
  }

  lemma HandleKeepsPorts(table: Table, e: Event, kids: set<Name>)
    requires e.client in kids && PortsCurrent(table, kids)
    ensures PortsCurrent(Apply(table, e), kids)
  {
  }

  lemma {:induction false} DoKeepsPorts(w: World, root: Name, m: Move, t: Tree)
    requires Distinct(t) && PortsSound(w.net, t) && FitsMove(t, m)
    requires m.Receive? ==> Signed(w, m.l.child)
    ensures PortsSound(Do(w, root, m).net, t)
    decreases t
  {
    DoTable(w, root, m, t.name);
    if Handles(w, m, t.name) {
      RootLinks(t, m.l);
      HandleKeepsPorts(w.net[t.name], Queue(w, m.l.child)[0], KidNames(t));
    }
    forall i | 0 <= i < |t.kids|
      ensures PortsSound(Do(w, root, m).net, t.kids[i])
    {
      if m.Receive? {
        FitsKid(t, m.l, i);
      }
      DoKeepsPorts(w, root, m, t.kids[i]);
    }
  }

  lemma {:induction false} SamePorts(net: Net, net': Net, t: Tree)
    requires Same(net, net', Names(t)) && PortsSound(net, t)
    ensures PortsSound(net', t)
    decreases t
  {
    forall i | 0 <= i < |t.kids|
      ensures PortsSound(net', t.kids[i])
    {
      KidInside(t, i);
      SamePorts(net, net', t.kids[i]);
    }
    assert TableOf(net', t.name) == TableOf(net, t.name);
  }

  lemma {:induction false} GraftPorts(net: Net, net': Net, t: Tree, path: seq<nat>, s: Tree)
    requires Distinct(t) && IsPath(t, path) && PortsSound(net, t) && PortsSound(net', s)
    requires var x := NodeAt(t, path).name;
             OneTable(net, net', Names(t), x, Add(TableOf(net, x), s.name, s.name))
    ensures PortsSound(net', Graft(t, path, s))
    decreases path
  {
    var t' := Graft(t, path, s);
    JoinedNames(t, path, s);
    if path != [] {
      PathInside(t, path);
      assert TableOf(net', t.name) == TableOf(net, t.name);
    }
    forall j | 0 <= j < |t'.kids|
      ensures PortsSound(net', t'.kids[j])
    {
      if j < |t.kids| {
        KidInside(t, j);
        if path != [] && j == path[0] {
          GraftPorts(net, net', t.kids[j], path[1..], s);
        } else {
          assert t'.kids[j] == t.kids[j];
          SamePorts(net, net', t.kids[j]);
        }
      }
    }
  }

  lemma CutPorts(table: Table, kids: set<Name>, n: Name)
    requires PortsCurrent(table, kids)
    ensures PortsCurrent(Del(table, n, n), kids - {n})
  {
  }

  lemma {:induction false} PrunePorts(net: Net, net': Net, t: Tree, path: seq<nat>, i: nat)
    requires Distinct(t) && IsPath(t, path) && i < |NodeAt(t, path).kids| && PortsSound(net, t)
    requires var x := NodeAt(t, path);
             OneTable(net, net', Names(t), x.name, Del(TableOf(net, x.name), x.kids[i].name, x.kids[i].name))
    ensures PortsSound(net', Prune(t, path, i))
    decreases path
  {
    var t' := Prune(t, path, i);
    LeftNames(t, path, i);
    if path == [] {
      CutPorts(net[t.name], KidNames(t), t.kids[i].name);
    } else {
      PathInside(t, path);
      assert TableOf(net', t.name) == TableOf(net, t.name);
    }
    forall j | 0 <= j < |t'.kids|
      ensures PortsSound(net', t'.kids[j])
    {
      if path != [] && j == path[0] {
        KidInside(t, j);
        PrunePorts(net, net', t.kids[j], path[1..], i);
      } else {
        var j' := if path == [] && j >= i then j + 1 else j;
        assert t'.kids[j] == t.kids[j'];
        KidInside(t, j');
        SamePorts(net, net', t.kids[j']);
      }
    }
  }

  lemma HandledOneTable(w: World, root: Name, l: Link, e: Event, names: set<Name>)
    ensures OneTable(w.net, Handled(w, root, l, e).net, names, l.parent, Apply(TableOf(w.net, l.parent), e))
  {
    forall p | p in names - {l.parent}
      ensures (p in Handled(w, root, l, e).net <==> p in w.net)
      ensures TableOf(Handled(w, root, l, e).net, p) == TableOf(w.net, p)
    {
      HandledTable(w, root, l, e, p);
    }
  }

  /** What every run keeps, whatever connects and whatever is on the way: distinct names, current
      ports, and messages that carry their sender. */
  ghost predicate Fine(st: State) {
    Distinct(st.t) && PortsSound(st.w.net, st.t) && AllSigned(st.w, st.t)
  }

  lemma JoinedPorts(net: Net, sub: Net, t: Tree, s: Tree)
    requires PortsSound(net, t) && PortsSound(sub, s) && sub.Keys == Names(s) && Names(s) !! Names(t)
    ensures PortsSound(net + sub, t) && PortsSound(net + sub, s)
    ensures Same(net, net + sub, Names(t)) && Same(sub, net + sub, Names(s))
  {
    assert Same(net, net + sub, Names(t)) && Same(sub, net + sub, Names(s));
    SamePorts(net, net + sub, t);
    SamePorts(sub, net + sub, s);
  }

  /** What a connect does to the tables. */
  lemma ConnectTables(st: State, step: Step)
    requires step.Connect? && Enabled(st, step) && Fine(st)
    ensures var x := NodeAt(st.t, step.path).name;
            var net, net' := st.w.net + step.sub.net, Next(st, step).w.net;
            && PortsSound(net, st.t) && PortsSound(net', step.s)
            && Same(st.w.net, net, Names(st.t)) && Same(step.sub.net, net', Names(step.s))
            && OneTable(net, net', Names(st.t), x, Add(TableOf(net, x), step.s.name, step.s.name))
  {
    var x, n, w1 := NodeAt(st.t, step.path).name, step.s.name, Joined(st.w, step.s, step.sub);
    NodeInside(st.t, step.path);
    JoinedPorts(st.w.net, step.sub.net, st.t, step.s);
    HandledOneTable(w1, st.t.name, Link(x, n), Regist(n, n), Names(st.t));
    HandledOneTable(w1, st.t.name, Link(x, n), Regist(n, n), Names(step.s));
    assert Names(step.s) - {x} == Names(step.s);
    SamePorts(w1.net, Next(st, step).w.net, step.s);
  }

  lemma ConnectKeepsFine(st: State, step: Step)
    requires step.Connect? && Enabled(st, step) && Fine(st)
    ensures Fine(Next(st, step))
  {
    var x, n := NodeAt(st.t, step.path).name, step.s.name;
    GraftNames(st.t, step.path, step.s);
    ConnectTables(st, step);
    GraftPorts(st.w.net + step.sub.net, Next(st, step).w.net, st.t, step.path, step.s);
    forall c | c in Names(Next(st, step).t)
      ensures Signed(Next(st, step).w, c)
    {
      HandledQueue(Joined(st.w, step.s, step.sub), st.t.name, Link(x, n), Regist(n, n), c);
      assert c in Names(st.t) ==> Signed(st.w, c);
    }
  }

  lemma CloseKeepsFine(st: State, step: Step)
    requires step.Close? && Enabled(st, step) && Fine(st)
    ensures Fine(Next(st, step))
  {
    var x := NodeAt(st.t, step.path);
    var n := x.kids[step.i].name;
    var w1 := st.w.(up := st.w.up - {n});
    PruneNames(st.t, step.path, step.i);
    HandledOneTable(w1, st.t.name, Link(x.name, n), Unregist(n, n), Names(st.t));
    PrunePorts(st.w.net, Next(st, step).w.net, st.t, step.path, step.i);
    forall c | c in Names(Next(st, step).t)
      ensures Signed(Next(st, step).w, c)
    {
      HandledQueue(w1, st.t.name, Link(x.name, n), Unregist(n, n), c);
      assert Signed(st.w, c);
    }
  }

  lemma HopKeepsFine(st: State, m: Move)
    requires Fine(st) && OfTree(st.t, m)
    ensures Fine(st.(w := Do(st.w, st.t.name, m)))
  {
    if m.Receive? {
      LinkEnds(st.t, m.l);
    }
    DoKeepsPorts(st.w, st.t.name, m, st.t);
    forall c | c in Names(st.t)
      ensures Signed(Do(st.w, st.t.name, m), c)
    {
      DoKeepsSigned(st.w, st.t.name, m, c);
    }
  }

  /** Every step of any interleaving keeps the next hops current children, also when a connecting
      cluster is refused. */
  lemma NextKeepsFine(st: State, step: Step)
    requires Fine(st) && Enabled(st, step)
    ensures Fine(Next(st, step))
  {
    match step {
      case Connect(_, _, _) => ConnectKeepsFine(st, step);
      case Close(_, _) => CloseKeepsFine(st, step);
      case Hop(m) => HopKeepsFine(st, m);
    }
  }

  lemma {:induction false} KidIsOther(t: Tree, path: seq<nat>, i: nat)
    requires Distinct(t) && IsPath(t, path) && i < |NodeAt(t, path).kids|
    ensures NodeAt(t, path).kids[i].name != NodeAt(t, path).name
    decreases path
  {
    if path == [] {
      KidInside(t, i);
      assert t.kids[i].name in Names(t.kids[i]);
    } else {
      KidIsOther(t.kids[path[0]], path[1..], i);
    }
  }

  // ----- What a connect and a close send up -----

  /** An accepted connect sends one registration up from the new parent, unless that is the root; a
      refused one sends nothing. The subtree keeps what it has on the way, and so do all others. */
  lemma ConnectSendsUp(st: State, step: Step, c: Name)
    requires step.Connect? && Enabled(st, step) && Fine(st) && c in Names(st.t) + Names(step.s)
    ensures var x := NodeAt(st.t, step.path).name;
            Queue(Next(st, step).w, c) ==
            if c in Names(step.s) then Queue(step.sub, c)
            else if c == x != st.t.name && Accepted(st, step) then Queue(st.w, c) + [Regist(step.s.name, x)]
            else Queue(st.w, c)
  {
    var x, n := NodeAt(st.t, step.path).name, step.s.name;
    var w1 := Joined(st.w, step.s, step.sub);
    NodeInside(st.t, step.path);
    JoinedPorts(st.w.net, step.sub.net, st.t, step.s);
    HandledQueue(w1, st.t.name, Link(x, n), Regist(n, n), c);
  }

  /** A close sends one unregistration up from the parent, unless that is the root, and drops what
      the closed child has on the way. */
  lemma CloseSendsUp(st: State, step: Step, c: Name)
    requires step.Close? && Enabled(st, step) && Fine(st)
    ensures var x := NodeAt(st.t, step.path);
            var n := x.kids[step.i].name;
            Queue(Next(st, step).w, c) ==
            if c == n then []
            else if c == x.name != st.t.name then Queue(st.w, c) + [Unregist(n, c)] else Queue(st.w, c)
  {
    var x := NodeAt(st.t, step.path);
    var n := x.kids[step.i].name;
    KidIsOther(st.t, step.path, step.i);
    HandledQueue(st.w.(up := st.w.up - {n}), st.t.name, Link(x.name, n), Unregist(n, n), c);
  }

  // ----- Self-routes -----

  lemma {:induction false} GraftLinks(t: Tree, path: seq<nat>, s: Tree, l: Link)
    requires IsPath(t, path)
    ensures l in Links(Graft(t, path, s)) <==>
            l in Links(t) || l == Link(NodeAt(t, path).name, s.name) || l in Links(s)
    decreases path
  {
    var t' := Graft(t, path, s);
    if path == [] {
      assert t'.kids[|t.kids|] == s;
      assert forall j :: 0 <= j < |t.kids| ==> t'.kids[j] == t.kids[j];
    } else {
      var a := path[0];
      GraftLinks(t.kids[a], path[1..], s, l);
      assert t'.kids[a] == Graft(t.kids[a], path[1..], s) && t'.kids[a].name == t.kids[a].name;
      assert forall j :: 0 <= j < |t.kids| && j != a ==> t'.kids[j] == t.kids[j];
    }
  }

  lemma {:induction false} PruneLinks(t: Tree, path: seq<nat>, i: nat, l: Link)
    requires IsPath(t, path) && i < |NodeAt(t, path).kids| && l in Links(Prune(t, path, i))
    ensures l in Links(t)
    decreases path
  {
    var t' := Prune(t, path, i);
    if path == [] {
      assert forall j :: 0 <= j < |t'.kids| ==> t'.kids[j] == t.kids[if j < i then j else j + 1];
    } else {
      var a := path[0];
      assert t'.kids[a] == Prune(t.kids[a], path[1..], i) && t'.kids[a].name == t.kids[a].name;
      assert forall j :: 0 <= j < |t.kids| && j != a ==> t'.kids[j] == t.kids[j];
      if l in Links(t'.kids[a]) {
        PruneLinks(t.kids[a], path[1..], i, l);
      }
    }
  }

  /** The step has the parent of `l` handle the unregistration of the child through itself. */
  ghost predicate Cuts(st: State, step: Step, l: Link) {
    step == Hop(Receive(l)) && Queue(st.w, l.child) != [] && Queue(st.w, l.child)[0] == Unregist(l.child, l.child)
  }

  /** The message has the parent add a route to its sender. */
  predicate Announces(e: Event, c: Name) {
    match e
    case Regist(to, _) => to == c
    case Unregist(_, _) => false
    case SubtreeReport(names, _) => c in names
  }

  /** The step gives the child of `l` its self-route: it connects and is accepted, it comes along
      with its route in a connecting subtree, or it announces itself where no route to it stands. */
  ghost predicate Gains(st: State, step: Step, l: Link) {
    Enabled(st, step) &&
    match step
    case Connect(path, s, sub) =>
      (l == Link(NodeAt(st.t, path).name, s.name) && Accepted(st, step)) || (l in Links(s) && HasSelfRoute(sub.net, l))
    case Close(_, _) => false
    case Hop(m) =>
      && m == Receive(l) && Queue(st.w, l.child) != []
      && Announces(Queue(st.w, l.child)[0], l.child) && l.child !in TableOf(st.w.net, l.parent)
  }

  lemma HandleSelfRouteIff(table: Table, e: Event, c: Name)
    ensures SelfRouted(Apply(table, e), {c}) <==>
            || (e.client == c && Announces(e, c) && c !in table)
            || (SelfRouted(table, {c}) && e != Unregist(c, c))
  {
    match e {
      case Regist(_, _) =>
      case Unregist(_, _) =>
      case SubtreeReport(_, _) =>
    }
  }

  /** The connecting cluster has its self-route afterwards if and only if its parent accepts. */
  lemma ConnectRoutesIff(st: State, step: Step)
    requires step.Connect? && Enabled(st, step) && Fine(st)
    ensures HasSelfRoute(Next(st, step).w.net, Link(NodeAt(st.t, step.path).name, step.s.name)) <==> Accepted(st, step)
  {
    NodeInside(st.t, step.path);
    ConnectTables(st, step);
  }

  /** A connect leaves the self-routes of both trees as they are. */
  lemma ConnectLeavesRoutes(st: State, step: Step, l: Link)
    requires step.Connect? && Fine(st) && Enabled(st, step)
    ensures l in Links(st.t) ==> (HasSelfRoute(Next(st, step).w.net, l) <==> HasSelfRoute(st.w.net, l))
    ensures l in Links(step.s) ==> (HasSelfRoute(Next(st, step).w.net, l) <==> HasSelfRoute(step.sub.net, l))
  {
    ConnectTables(st, step);
    if l in Links(st.t) {
      LinkEnds(st.t, l);
    }
    if l in Links(step.s) {
      LinkEnds(step.s, l);
    }
  }

  /** The link of the connecting cluster is in neither tree, and the two have none in common. */
  lemma OwnIsNew(st: State, step: Step, l: Link)
    requires step.Connect? && Enabled(st, step)
    ensures l in Links(st.t) ==> l != Link(NodeAt(st.t, step.path).name, step.s.name) && l !in Links(step.s)
    ensures l in Links(step.s) ==> l != Link(NodeAt(st.t, step.path).name, step.s.name)
  {
    NodeInside(st.t, step.path);
    if l in Links(st.t) {
      LinkEnds(st.t, l);
    }
    if l in Links(step.s) {
      LinkEnds(step.s, l);
    }
  }

  lemma ConnectSelfRouteIff(st: State, step: Step, l: Link)
    requires step.Connect? && Fine(st) && Enabled(st, step) && l in Links(Next(st, step).t)
    ensures HasSelfRoute(Next(st, step).w.net, l) <==>
            Gains(st, step, l) || (l in Links(st.t) && HasSelfRoute(st.w.net, l))
  {
    ConnectRoutesIff(st, step);
    ConnectLeavesRoutes(st, step, l);
    OwnIsNew(st, step, l);
    GraftLinks(st.t, step.path, step.s, l);
  }

  lemma CloseSelfRouteIff(st: State, step: Step, l: Link)
    requires step.Close? && Fine(st) && Enabled(st, step) && l in Links(Next(st, step).t)
    ensures HasSelfRoute(Next(st, step).w.net, l) <==> l in Links(st.t) && HasSelfRoute(st.w.net, l)
  {
    var x := NodeAt(st.t, step.path);
    var n := x.kids[step.i].name;
    PruneLinks(st.t, step.path, step.i, l);
    PruneNames(st.t, step.path, step.i);
    LinkEnds(Prune(st.t, step.path, step.i), l);
    assert n in Leaving(st.t, step.path, step.i);
    HandledTable(st.w.(up := st.w.up - {n}), st.t.name, Link(x.name, n), Unregist(n, n), l.parent);
    HandleSelfRouteIff(TableOf(st.w.net, l.parent), Unregist(n, n), l.child);
  }

  lemma HopSelfRouteIff(st: State, m: Move, l: Link)
    requires Fine(st) && OfTree(st.t, m) && l in Links(st.t)
    ensures HasSelfRoute(Do(st.w, st.t.name, m).net, l) <==>
            Gains(st, Hop(m), l) || (HasSelfRoute(st.w.net, l) && !Cuts(st, Hop(m), l))
  {
    DoTable(st.w, st.t.name, m, l.parent);
    if Handles(st.w, m, l.parent) {
      LinkEnds(st.t, m.l);
      var e := Queue(st.w, m.l.child)[0];
      assert Signed(st.w, m.l.child) && e in Queue(st.w, m.l.child);
      HandleSelfRouteIff(TableOf(st.w.net, l.parent), e, l.child);
    }
  }

  /** A connected child has its self-route after a step if and only if the step gives it, or it
      had it before and its own unregistration does not come up through itself. */
  lemma StepSelfRouteIff(st: State, step: Step, l: Link)
    requires Fine(st) && Enabled(st, step) && l in Links(Next(st, step).t)
    ensures HasSelfRoute(Next(st, step).w.net, l) <==>
            Gains(st, step, l) || (l in Links(st.t) && HasSelfRoute(st.w.net, l) && !Cuts(st, step, l))
  {
    match step {
      case Connect(_, _, _) => ConnectSelfRouteIff(st, step, l);
      case Close(_, _) => CloseSelfRouteIff(st, step, l);
      case Hop(m) => HopSelfRouteIff(st, m, l);
    }
  }

  lemma {:induction false} SoundAtLink(net: Net, t: Tree, l: Link)
    requires Sound(net, t) && l in Links(t)
    ensures HasSelfRoute(net, l)
    decreases t
  {
    if i :| 0 <= i < |t.kids| && l in Links(t.kids[i]) {
      SoundAtLink(net, t.kids[i], l);
    }
  }

  lemma {:induction false} SoundIff(net: Net, t: Tree)
    ensures Sound(net, t) <==> PortsSound(net, t) && forall l :: l in Links(t) ==> HasSelfRoute(net, l)
    decreases t
  {
    if Sound(net, t) {
      forall i | 0 <= i < |t.kids|
        ensures PortsSound(net, t.kids[i])
      {
        SoundIff(net, t.kids[i]);
      }
      forall l | l in Links(t)
        ensures HasSelfRoute(net, l)
      {
        SoundAtLink(net, t, l);
      }
    } else if PortsSound(net, t) && forall l :: l in Links(t) ==> HasSelfRoute(net, l) {
      SelfRoutedIsSound(net, t);
    }
  }

  /** A connecting subtree keeps ports current and self-routes, in every table of the grown tree,
      if and only if it has them itself and its new parent accepts it; controllers further up may
      refuse the registration when it reaches them. */
  lemma ConnectKeepsSoundIff(st: State, step: Step)
    requires step.Connect? && Enabled(st, step) && Fine(st) && Sound(st.w.net, st.t)
    ensures Sound(Next(st, step).w.net, Next(st, step).t) <==> Accepted(st, step) && Sound(step.sub.net, step.s)
  {
    var net' := Next(st, step).w.net;
    var own := Link(NodeAt(st.t, step.path).name, step.s.name);
    ConnectKeepsFine(st, step);
    ConnectRoutesIff(st, step);
    SoundIff(net', Next(st, step).t);
    SoundIff(step.sub.net, step.s);
    SoundIff(st.w.net, st.t);
    forall l
      ensures l in Links(Next(st, step).t) <==> l in Links(st.t) || l == own || l in Links(step.s)
      ensures l in Links(st.t) ==> HasSelfRoute(net', l)
      ensures l in Links(step.s) ==> (HasSelfRoute(net', l) <==> HasSelfRoute(step.sub.net, l))
    {
      GraftLinks(st.t, step.path, step.s, l);
      ConnectLeavesRoutes(st, step, l);
    }
  }

  lemma ConnectKeepsSafe(st: State, step: Step)
    requires step.Connect? && Enabled(st, step) && Fine(st) && Safe(st.w, st.t, {}) && BringsSafe(st, step)
    ensures Safe(Next(st, step).w, Next(st, step).t, {})
  {
    var x, n := NodeAt(st.t, step.path).name, step.s.name;
    var w1, w' := Joined(st.w, step.s, step.sub), Next(st, step).w;
    NodeInside(st.t, step.path);
    forall c
      ensures c in Names(st.t) && c != x ==> Queue(w', c) == Queue(st.w, c)
      ensures c in Names(step.s) ==> Queue(w', c) == Queue(step.sub, c)
      ensures c == x ==> Queue(w', c) == Queue(st.w, c) || Queue(w', c) == Queue(st.w, c) + [Regist(n, x)]
    {
      HandledQueue(w1, st.t.name, Link(x, n), Regist(n, n), c);
    }
    SafeFrame(step.sub, w', step.s, PathNames(st.t, step.path));
    assert {} + PathNames(st.t, step.path) == PathNames(st.t, step.path);
    SafeGraft(st.w, w', st.t, step.path, step.s, {});
  }

  /** A closing cluster keeps ports current and self-routes in every table of the remaining tree. */
  lemma CloseKeepsSound(st: State, step: Step)
    requires step.Close? && Enabled(st, step) && Fine(st) && Sound(st.w.net, st.t)
    ensures Sound(Next(st, step).w.net, Next(st, step).t)
  {
    CloseKeepsFine(st, step);
    SoundIff(st.w.net, st.t);
    forall l | l in Links(Next(st, step).t)
      ensures HasSelfRoute(Next(st, step).w.net, l)
    {
      PruneLinks(st.t, step.path, step.i, l);
      CloseSelfRouteIff(st, step, l);
    }
    SoundIff(Next(st, step).w.net, Next(st, step).t);
  }

  lemma CloseKeepsSafe(st: State, step: Step)
    requires step.Close? && Enabled(st, step) && Fine(st) && Safe(st.w, st.t, {})
    ensures Safe(Next(st, step).w, Next(st, step).t, {})
  {
    var x := NodeAt(st.t, step.path);
    var n := x.kids[step.i].name;
    var w1, w' := st.w.(up := st.w.up - {n}), Next(st, step).w;
    forall c
      ensures c != n && c != x.name ==> Queue(w', c) == Queue(st.w, c)
      ensures c != n && c == x.name ==>
                Queue(w', c) == Queue(st.w, c) || Queue(w', c) == Queue(st.w, c) + [Unregist(n, c)]
    {
      HandledQueue(w1, st.t.name, Link(x.name, n), Unregist(n, n), c);
    }
    KidIsOther(st.t, step.path, step.i);
    SafePrune(st.w, w', st.t, step.path, step.i, {});
  }

  /** Handling a message keeps all this if and only if it is not the unregistration of its own
      sender, which would cut off the sender for good. */
  lemma {:induction false} HandlingKeepsSoundIff(w: World, t: Tree, l: Link)
    requires Distinct(t) && Sound(w.net, t) && l in Links(t) && Queue(w, l.child) != []
    requires Queue(w, l.child)[0].client == l.child
    ensures Sound(Do(w, t.name, Receive(l)).net, t) <==> Queue(w, l.child)[0] != Unregist(l.child, l.child)
  {
    var e := Queue(w, l.child)[0];
    if e == Unregist(l.child, l.child) {
      DoTable(w, t.name, Receive(l), l.parent);
      if Sound(Do(w, t.name, Receive(l)).net, t) {
        SoundAtLink(Do(w, t.name, Receive(l)).net, t, l);
      }
    } else {
      DoKeepsSound(w, t.name, Receive(l), t);
    }
  }

  lemma NextKeepsSafe(st: State, step: Step)
    requires Fine(st) && Safe(st.w, st.t, {}) && Enabled(st, step) && BringsSafe(st, step)
    ensures Safe(Next(st, step).w, Next(st, step).t, {})
  {
    match step {
      case Connect(_, _, _) => ConnectKeepsSafe(st, step);
      case Close(_, _) => CloseKeepsSafe(st, step);
      case Hop(m) => SafeStays(st.w, st.t.name, m, st.t, {});
    }
  }

  // ----- Runs -----

  /** Any interleaving of steps. */
  ghost predicate IsRun(sts: seq<State>, steps: seq<Step>) {
    && |sts| == |steps| + 1
    && forall i :: 0 <= i < |steps| ==> Enabled(sts[i], steps[i]) && sts[i + 1] == Next(sts[i], steps[i])
  }

  lemma {:induction false} RunKeepsFine(sts: seq<State>, steps: seq<Step>, n: nat)
    requires IsRun(sts, steps) && Fine(sts[0]) && n <= |steps|
    ensures Fine(sts[n])
  {
    if n > 0 {
      RunKeepsFine(sts, steps, n - 1);
      NextKeepsFine(sts[n - 1], steps[n - 1]);
    }
  }

  /** If no connecting subtree brings an unregistration of a cluster it is now below, none is ever
      on the way to come up through that cluster itself. */
  lemma {:induction false} RunKeepsSafe(sts: seq<State>, steps: seq<Step>, n: nat)
    requires IsRun(sts, steps) && Fine(sts[0]) && Safe(sts[0].w, sts[0].t, {}) && n <= |steps|
    requires forall i :: 0 <= i < n ==> BringsSafe(sts[i], steps[i])
    ensures Safe(sts[n].w, sts[n].t, {})
  {
    if n > 0 {
      RunKeepsSafe(sts, steps, n - 1);
      RunKeepsFine(sts, steps, n - 1);
      NextKeepsSafe(sts[n - 1], steps[n - 1]);
    }
  }

  /** In such a run nobody is cut off. */
  lemma RunNeverCuts(sts: seq<State>, steps: seq<Step>, n: nat, l: Link)
    requires IsRun(sts, steps) && Fine(sts[0]) && Safe(sts[0].w, sts[0].t, {}) && n < |steps|
    requires forall i :: 0 <= i < n ==> BringsSafe(sts[i], steps[i])
    requires l in Links(sts[n].t)
    ensures !Cuts(sts[n], steps[n], l)
  {
    RunKeepsFine(sts, steps, n);
    RunKeepsSafe(sts, steps, n);
    SafeLink(sts[n].w, sts[n].t, {}, l);
    assert Queue(sts[n].w, l.child) != [] ==> Queue(sts[n].w, l.child)[0] in Queue(sts[n].w, l.child);
  }

  /** The child of `l` got its self-route at `i`, or had it at the start if `i` is 0, and has been
      connected and not been cut off since. */
  ghost predicate RoutedFrom(sts: seq<State>, steps: seq<Step>, l: Link, i: nat, n: nat)
    requires n <= |steps| < |sts|
  {
    && i <= n
    && (if i == 0 then HasSelfRoute(sts[0].w.net, l) else Gains(sts[i - 1], steps[i - 1], l))
    && (forall j :: i <= j <= n ==> l in Links(sts[j].t))
    && (forall j :: i <= j < n ==> !Cuts(sts[j], steps[j], l))
  }

  ghost predicate Routed(sts: seq<State>, steps: seq<Step>, l: Link, n: nat)
    requires n <= |steps| < |sts|
  {
    exists i :: RoutedFrom(sts, steps, l, i, n)
  }

  lemma OneStepOn(sts: seq<State>, steps: seq<Step>, l: Link, i: nat, n: nat)
    requires i < n <= |steps| < |sts| && l in Links(sts[n].t)
    ensures RoutedFrom(sts, steps, l, i, n) <==>
            RoutedFrom(sts, steps, l, i, n - 1) && !Cuts(sts[n - 1], steps[n - 1], l)
    ensures RoutedFrom(sts, steps, l, i, n) ==> l in Links(sts[n - 1].t)
  {
  }

  lemma RunSelfRouteIff(sts: seq<State>, steps: seq<Step>, l: Link, n: nat)
    requires IsRun(sts, steps) && Fine(sts[0]) && n < |steps| && l in Links(sts[n + 1].t)
    ensures HasSelfRoute(sts[n + 1].w.net, l) <==>
            || Gains(sts[n], steps[n], l)
            || (l in Links(sts[n].t) && HasSelfRoute(sts[n].w.net, l) && !Cuts(sts[n], steps[n], l))
  {
    RunKeepsFine(sts, steps, n);
    StepSelfRouteIff(sts[n], steps[n], l);
  }

  /** In every run, with connects accepted or refused: a connected child has its self-route if and
      only if it got it at some time while connected and was not cut off since. */
  lemma {:induction false} SelfRouteIff(sts: seq<State>, steps: seq<Step>, l: Link, n: nat)
    requires IsRun(sts, steps) && Fine(sts[0]) && n <= |steps| && l in Links(sts[n].t)
    ensures HasSelfRoute(sts[n].w.net, l) <==> Routed(sts, steps, l, n)
    decreases n
  {
    if n == 0 {
      assert RoutedFrom(sts, steps, l, 0, 0) <==> HasSelfRoute(sts[0].w.net, l);
    } else {
      RunSelfRouteIff(sts, steps, l, n - 1);
      if l in Links(sts[n - 1].t) {
        SelfRouteIff(sts, steps, l, n - 1);
      }
      HistoryStep(sts, steps, l, n);
    }
  }

  lemma HistoryStep(sts: seq<State>, steps: seq<Step>, l: Link, n: nat)
    requires 0 < n <= |steps| < |sts| && l in Links(sts[n].t)
    ensures Routed(sts, steps, l, n) <==>
            || Gains(sts[n - 1], steps[n - 1], l)
            || (l in Links(sts[n - 1].t) && Routed(sts, steps, l, n - 1) && !Cuts(sts[n - 1], steps[n - 1], l))
  {
    assert RoutedFrom(sts, steps, l, n, n) <==> Gains(sts[n - 1], steps[n - 1], l);
    var m: nat := n - 1;
    if i: nat :| RoutedFrom(sts, steps, l, i, n) && i < n {
      OneStepOn(sts, steps, l, i, n);
    }
    if i: nat :| RoutedFrom(sts, steps, l, i, m) {
      OneStepOn(sts, steps, l, i, n);
    }
  }

  /** Distinct names, current ports and self-routes everywhere, and nothing unsafe on the way. */
  ghost predicate Good(st: State) {
    Fine(st) && Sound(st.w.net, st.t) && Safe(st.w, st.t, {})
  }

  lemma HopKeepsGood(st: State, m: Move)
    requires Good(st) && OfTree(st.t, m)
    ensures Good(st.(w := Do(st.w, st.t.name, m)))
  {
    if m.Receive? {
      SafeLink(st.w, st.t, {}, m.l);
    }
    HopKeepsFine(st, m);
    DoKeepsSound(st.w, st.t.name, m, st.t);
    SafeStays(st.w, st.t.name, m, st.t, {});
  }

  /** A connect that is accepted and brings a sound subtree with nothing unsafe on the way. */
  ghost predicate Welcome(st: State, step: Step)
    requires Enabled(st, step)
  {
    Accepted(st, step) && BringsSafe(st, step) && (step.Connect? ==> Sound(step.sub.net, step.s))
  }

  lemma NextKeepsGood(st: State, step: Step)
    requires Good(st) && Enabled(st, step) && Welcome(st, step)
    ensures Good(Next(st, step))
  {
    NextKeepsFine(st, step);
    NextKeepsSafe(st, step);
    match step {
      case Connect(_, _, _) => ConnectKeepsSoundIff(st, step);
      case Close(_, _) => CloseKeepsSound(st, step);
      case Hop(m) => HopKeepsGood(st, m);
    }
  }

  /** If every connect is welcome, every child of the final tree has its self-route from when it
      connected, and was never cut off. */
  lemma {:induction false} RunKeepsGood(sts: seq<State>, steps: seq<Step>, n: nat)
    requires IsRun(sts, steps) && Good(sts[0]) && n <= |steps|
    requires forall i :: 0 <= i < n ==> Welcome(sts[i], steps[i])
    ensures Good(sts[n]) && forall l :: l in Links(sts[n].t) ==> Routed(sts, steps, l, n)
  {
    if n > 0 {
      RunKeepsGood(sts, steps, n - 1);
      NextKeepsGood(sts[n - 1], steps[n - 1]);
    }
    forall l | l in Links(sts[n].t)
      ensures Routed(sts, steps, l, n)
    {
      SoundAtLink(sts[n].w.net, sts[n].t, l);
      SelfRouteIff(sts, steps, l, n);
    }
  }

  lemma {:induction false} MovesKeepGood(st: State, ms: seq<Move>)
    requires Good(st) && forall m :: m in ms ==> OfTree(st.t, m)
    ensures Good(st.(w := RunMoves(st.w, st.t.name, ms)))
    decreases ms
  {
    if ms != [] {
      assert ms[0] in ms;
      HopKeepsGood(st, ms[0]);
      MovesKeepGood(st.(w := Do(st.w, st.t.name, ms[0])), ms[1..]);
    }
  }

  lemma {:induction false} FirstRoundApart(w: World, t: Tree, rounds: seq<seq<Move>>)
    requires AreRounds(w, t, rounds) && rounds != []
    ensures var w1 := RunMoves(w, t.name, rounds[0]);
            && IsRound(w, t, rounds[0]) && AreRounds(w1, t, rounds[1..])
            && RunRounds(w, t.name, rounds) == RunRounds(w1, t.name, rounds[1..])
  {
    var last := |rounds| - 1;
    if last == 0 {
      assert rounds[..0] == [] && rounds[1..] == [];
    } else {
      FirstRoundApart(w, t, rounds[..last]);
      assert rounds[..last][1..] == rounds[1..][..last - 1] && rounds[..last][0] == rounds[0];
    }
  }

  /** After any run of connects, closes and hops in which every child of the final tree got its
      self-route and was not cut off since, and nothing unsafe is on the way in the end: as soon as
      the tree stays as it is, one round lets everything on the way arrive, and as many more as the
      tree needs make every table exact. Children that were refused and closed again do no harm. */
  lemma {:induction false} ConvergesAfterChurn(sts: seq<State>, steps: seq<Step>, rounds: seq<seq<Move>>)
    requires IsRun(sts, steps) && Fine(sts[0])
    requires forall l :: l in Links(sts[|steps|].t) ==> Routed(sts, steps, l, |steps|)
    requires Safe(sts[|steps|].w, sts[|steps|].t, {})
    requires AreRounds(sts[|steps|].w, sts[|steps|].t, rounds) && |rounds| > RoundsFor(sts[|steps|].t)
    ensures var st := sts[|steps|]; AllExact(RunRounds(st.w, st.t.name, rounds).net, st.t)
  {
    var st := sts[|steps|];
    RunKeepsFine(sts, steps, |steps|);
    forall l | l in Links(st.t)
      ensures HasSelfRoute(st.w.net, l)
    {
      SelfRouteIff(sts, steps, l, |steps|);
    }
    SoundIff(st.w.net, st.t);
    FirstRoundApart(st.w, st.t, rounds);
    MovesKeepGood(st, rounds[0]);
    TreeConverges(RunMoves(st.w, st.t.name, rounds[0]), st.t, rounds[1..]);
  }

  /** Where everything on the way has arrived and no table names its own cluster or one above it,
      rounds give exact tables if and only if every child of the tree got its self-route, at its
      last connect or later, and was not cut off since. */
  lemma {:induction false} ConvergesIffAccepted(sts: seq<State>, steps: seq<Step>, rounds: seq<seq<Move>>)
    requires IsRun(sts, steps) && Fine(sts[0])
    requires Drained(sts[|steps|].w, sts[|steps|].t) && Downward(sts[|steps|].w, sts[|steps|].t, {})
    requires AreRounds(sts[|steps|].w, sts[|steps|].t, rounds) && |rounds| >= RoundsFor(sts[|steps|].t)
    ensures var st := sts[|steps|];
            AllExact(RunRounds(st.w, st.t.name, rounds).net, st.t) <==>
            forall l :: l in Links(st.t) ==> Routed(sts, steps, l, |steps|)
  {
    var st := sts[|steps|];
    RunKeepsFine(sts, steps, |steps|);
    forall l | l in Links(st.t)
      ensures HasSelfRoute(st.w.net, l) <==> Routed(sts, steps, l, |steps|)
    {
      SelfRouteIff(sts, steps, l, |steps|);
    }
    ConvergesIffSelfRouted(st.w, st.t, rounds);
  }

  // ----- An undisturbed climb -----

  /** The hops from the cluster at `path` up to `t`. */
  function Hops(t: Tree, path: seq<nat>): seq<Move>
    requires IsPath(t, path)
    decreases path
  {
    if path == [] then []
    else Hops(t.kids[path[0]], path[1..]) + [Receive(Link(t.name, t.kids[path[0]].name))]
  }

  lemma OneMove(w: World, root: Name, m: Move)
    ensures RunMoves(w, root, [m]) == Do(w, root, m)
  {
    assert [m][1..] == [];
  }

  /** Every queue but that of `x` is the same, and `x` has `more` on the way. */
  ghost predicate Grown(w: World, w': World, x: Name, more: seq<Event>) {
    forall c :: Queue(w', c) == if c == x then Queue(w, c) + more else Queue(w, c)
  }

  lemma RaisedQueues(w: World, root: Name, l: Link, e: Event)
    ensures Grown(w, Handled(w, root, l, e), l.parent,
                  if l.parent != root && SendsOn(TableOf(w.net, l.parent), e) then [From(e, l.parent)] else [])
  {
    forall c
      ensures Queue(Handled(w, root, l, e), c) ==
              Queue(w, c) + if c == l.parent && c != root && SendsOn(TableOf(w.net, c), e) then [From(e, c)] else []
    {
      HandledQueue(w, root, l, e, c);
    }
  }

  /** The next hop of a message that is alone on its link. */
  lemma NextHop(w: World, w1: World, root: Name, l: Link, e: Event)
    requires Queue(w, l.child) == [] && Grown(w, w1, l.child, [e]) && l.parent != l.child
    ensures var w2 := Do(w1, root, Receive(l));
            var t := TableOf(w1.net, l.parent);
            && w2.net == w1.net[l.parent := Apply(t, e)]
            && Grown(w, w2, l.parent, if l.parent != root && SendsOn(t, e) then [From(e, l.parent)] else [])
  {
    var w2 := Do(w1, root, Receive(l));
    var more := if l.parent != root && SendsOn(TableOf(w1.net, l.parent), e) then [From(e, l.parent)] else [];
    assert Queue(w1, l.child) == [e];
    forall c
      ensures Queue(w2, c) == Queue(w, c) + if c == l.parent then more else []
    {
      DoQueue(w1, root, Receive(l), c);
    }
  }

  /** The climbing functions are what the hops of one message do when nothing comes between. */
  lemma {:induction false} RegistIsHops(w: World, root: Name, t: Tree, path: seq<nat>, n: Name)
    requires Distinct(t) && IsPath(t, path) && Drained(w, t) && root !in Below(t)
    ensures var w' := RunMoves(Handled(w, root, Link(NodeAt(t, path).name, n), Regist(n, n)), root, Hops(t, path));
            var c := RegistUp(w.net, t, path, n);
            w'.net == c.net && Grown(w, w', t.name, if c.up && t.name != root then [Regist(n, t.name)] else [])
    decreases path
  {
    var w0 := Handled(w, root, Link(NodeAt(t, path).name, n), Regist(n, n));
    if path == [] {
      RaisedQueues(w, root, Link(t.name, n), Regist(n, n));
    } else {
      var kid := t.kids[path[0]];
      var l := Link(t.name, kid.name);
      KidInside(t, path[0]);
      assert kid.name in Names(kid);
      RegistIsHops(w, root, kid, path[1..], n);
      var w1 := RunMoves(w0, root, Hops(kid, path[1..]));
      RunMovesAppend(w0, root, Hops(kid, path[1..]), [Receive(l)]);
      OneMove(w1, root, Receive(l));
      if RegistUp(w.net, kid, path[1..], n).up {
        NextHop(w, w1, root, l, Regist(n, kid.name));
      }
    }
  }

  lemma {:induction false} UnregistIsHops(w: World, root: Name, t: Tree, path: seq<nat>, n: Name)
    requires Distinct(t) && IsPath(t, path) && Drained(w, t) && root !in Below(t)
    ensures var w' := RunMoves(Handled(w, root, Link(NodeAt(t, path).name, n), Unregist(n, n)), root, Hops(t, path));
            && w'.net == UnregistUp(w.net, t, path, n)
            && Grown(w, w', t.name, if t.name != root then [Unregist(n, t.name)] else [])
    decreases path
  {
    var w0 := Handled(w, root, Link(NodeAt(t, path).name, n), Unregist(n, n));
    if path == [] {
      RaisedQueues(w, root, Link(t.name, n), Unregist(n, n));
    } else {
      var kid := t.kids[path[0]];
      var l := Link(t.name, kid.name);
      KidInside(t, path[0]);
      assert kid.name in Names(kid);
      UnregistIsHops(w, root, kid, path[1..], n);
      var w1 := RunMoves(w0, root, Hops(kid, path[1..]));
      RunMovesAppend(w0, root, Hops(kid, path[1..]), [Receive(l)]);
      OneMove(w1, root, Receive(l));
      NextHop(w, w1, root, l, Unregist(n, kid.name));
    }
  }
}
