/** A run in which an unregistration that is late on the way cuts off a cluster that is still
    connected. */
module LateUnregist {

  import opened Clusters
  import opened RouteTable
  import opened ClusterTree
  import opened Uplinks
  import opened Convergence
  import opened Membership
  import opened Churn

  /** `b` comes from elsewhere, where `a` was below it, and connects below `a` while it still has the
      unregistration of `a` on the way. */
  function LateSteps(p: Name, a: Name, b: Name): seq<Step> {
    [Step.Connect([0], Tree(b, []), World(map[b := map[]], map[b := [Unregist(a, b)]])),
     Hop(Receive(Link(p, a))), Hop(Receive(Link(a, b))), Hop(Receive(Link(p, a)))]
  }

  /** The tables of `p`, `a` and `b`, and what they have on the way. */
  ghost predicate Holds(w: World, p: Name, a: Name, b: Name, tp: Table, ta: Table, qa: seq<Event>, qb: seq<Event>) {
    && p in w.net && w.net[p] == tp && a in w.net && w.net[a] == ta && b in w.net && w.net[b] == map[]
    && Queue(w, p) == [] && Queue(w, a) == qa && Queue(w, b) == qb
  }

  lemma UpperHop(w: World, p: Name, a: Name, b: Name, tp: Table, ta: Table, e: Event, qb: seq<Event>)
    requires p != a && p != b && a != b && Holds(w, p, a, b, tp, ta, [e], qb)
    ensures Holds(Do(w, p, Receive(Link(p, a))), p, a, b, Apply(tp, e), ta, [], qb)
  {
    var m := Receive(Link(p, a));
    DoTable(w, p, m, p);
    DoTable(w, p, m, a);
    DoTable(w, p, m, b);
    DoQueue(w, p, m, p);
    DoQueue(w, p, m, a);
    DoQueue(w, p, m, b);
  }

  lemma LowerHop(w: World, p: Name, a: Name, b: Name, tp: Table, ta: Table, e: Event)
    requires p != a && p != b && a != b && SendsOn(ta, e) && Holds(w, p, a, b, tp, ta, [], [e])
    ensures Holds(Do(w, p, Receive(Link(a, b))), p, a, b, tp, Apply(ta, e), [From(e, a)], [])
  {
    var m := Receive(Link(a, b));
    DoTable(w, p, m, p);
    DoTable(w, p, m, a);
    DoTable(w, p, m, b);
    DoQueue(w, p, m, p);
    DoQueue(w, p, m, a);
    DoQueue(w, p, m, b);
  }

  lemma OneKid(n: Name, kid: Tree)
    ensures var t := Tree(n, [kid]);
            && Below(t) == Names(kid) && KidNames(t) == {kid.name}
            && Links(t) == {Link(n, kid.name)} + Links(kid)
            && (n !in Names(kid) && Distinct(kid) ==> Distinct(t))
  {
    var t := Tree(n, [kid]);
    assert t.kids[0] == kid && [kid][1..] == [];
    assert NamesOf([kid]) == Names(kid) + NamesOf([]);
    assert KidNames(t) == {kid.name};
    assert Links(t) == {Link(n, kid.name)} + Links(kid);
  }

  lemma ChainNames(p: Name, a: Name, b: Name)
    requires p != a && p != b && a != b
    ensures var t := Tree(p, [Tree(a, [Tree(b, [])])]);
            && Distinct(t) && Names(t) == {p, a, b} && Below(t) == {a, b}
            && Links(t) == {Link(p, a), Link(a, b)}
  {
    LeafNames(Tree(b, []));
    assert Links(Tree(b, [])) == {};
    OneKid(a, Tree(b, []));
    OneKid(p, Tree(a, [Tree(b, [])]));
  }

  lemma BelowFirst(p: Name, a: Name, s: Tree)
    ensures var t, path := Tree(p, [Tree(a, [])]), [0];
            && IsPath(t, path) && NodeAt(t, path) == Tree(a, [])
            && Graft(t, path, s) == Tree(p, [Tree(a, [s])])
  {
    var t, kid := Tree(p, [Tree(a, [])]), Tree(a, []);
    var path: seq<nat> := [0];
    assert path[1..] == [] && t.kids[0] == kid && kid.kids + [s] == [s];
    assert IsPath(kid, path[1..]) && Graft(kid, path[1..], s) == Tree(a, [s]);
    assert t.kids[0 := Tree(a, [s])] == [Tree(a, [s])];
  }

  function Start(p: Name, a: Name): State {
    State(Tree(p, [Tree(a, [])]), World(map[p := map[a := a], a := map[]], map[]))
  }

  lemma StartIsGood(p: Name, a: Name)
    requires p != a
    ensures Good(Start(p, a)) && Names(Start(p, a).t) == {p, a}
  {
    var st := Start(p, a);
    var kid := st.t.kids[0];
    LeafNames(kid);
    OneKid(p, kid);
    assert PortsSound(st.w.net, kid) && Sound(st.w.net, kid) && Safe(st.w, kid, {} + {p});
  }

  lemma Connected(p: Name, a: Name, b: Name)
    requires p != a && p != b && a != b
    ensures var st, step := Start(p, a), LateSteps(p, a, b)[0];
            && Churn.Enabled(st, step) && Accepted(st, step) && Next(st, step).t == Tree(p, [Tree(a, [Tree(b, [])])])
            && Holds(Next(st, step).w, p, a, b, map[a := a], map[b := b], [Regist(b, a)], [Unregist(a, b)])
  {
    var st, step := Start(p, a), LateSteps(p, a, b)[0];
    StartIsGood(p, a);
    LeafNames(step.s);
    BelowFirst(p, a, step.s);
    var w0 := Joined(st.w, step.s, step.sub);
    HandledTable(w0, p, Link(a, b), Regist(b, b), p);
    HandledTable(w0, p, Link(a, b), Regist(b, b), a);
    HandledTable(w0, p, Link(a, b), Regist(b, b), b);
    HandledQueue(w0, p, Link(a, b), Regist(b, b), p);
    HandledQueue(w0, p, Link(a, b), Regist(b, b), a);
    HandledQueue(w0, p, Link(a, b), Regist(b, b), b);
  }

  /** What is left in the end. */
  lemma Emptied(w1: World, p: Name, a: Name, b: Name, w2: World, w3: World, w4: World)
    requires p != a && p != b && a != b
    requires Holds(w1, p, a, b, map[a := a], map[b := b], [Regist(b, a)], [Unregist(a, b)])
    requires w2 == Do(w1, p, Receive(Link(p, a))) && w3 == Do(w2, p, Receive(Link(a, b)))
    requires w4 == Do(w3, p, Receive(Link(p, a)))
    ensures Queue(w3, a) == [Unregist(a, a)] && Holds(w4, p, a, b, map[], map[b := b], [], [])
  {
    var tp: Table := map[a := a];
    UpperHop(w1, p, a, b, tp, map[b := b], Regist(b, a), [Unregist(a, b)]);
    assert Apply(tp, Regist(b, a)) == tp[b := a];
    LowerHop(w2, p, a, b, tp[b := a], map[b := b], Unregist(a, b));
    UpperHop(w3, p, a, b, tp[b := a], map[b := b], Unregist(a, a), []);
    assert Apply(tp[b := a], Unregist(a, a)) == map[];
  }

  lemma NoRoundsHelp(w: World, p: Name, a: Name, b: Name, rounds: seq<seq<Move>>)
    requires p != a && p != b && a != b && Holds(w, p, a, b, map[], map[b := b], [], [])
    requires AreRounds(w, Tree(p, [Tree(a, [Tree(b, [])])]), rounds)
    ensures !AllExact(RunRounds(w, p, rounds).net, Tree(p, [Tree(a, [Tree(b, [])])]))
  {
    var t := Tree(p, [Tree(a, [Tree(b, [])])]);
    ChainNames(p, a, b);
    assert Downward(w, t.kids[0].kids[0], {} + {p} + {a});
    assert Downward(w, t.kids[0], {} + {p});
    RoundsKeepUnrouted(w, t, rounds, Link(p, a));
    if AllExact(RunRounds(w, p, rounds).net, t) {
      ExactHasSelfRoutes(RunRounds(w, p, rounds).net, t, Link(p, a));
    }
  }

  lemma FirstStep(st: State, step: Step)
    requires Churn.Enabled(st, step)
    ensures Churn.IsRun([st, Next(st, step)], [step])
  {
  }

  lemma OneHopOn(sts: seq<State>, steps: seq<Step>, m: Move) returns (sts': seq<State>, w: World)
    requires Churn.IsRun(sts, steps) && OfTree(sts[|steps|].t, m)
    ensures w == Do(sts[|steps|].w, sts[|steps|].t.name, m)
    ensures sts' == sts + [sts[|steps|].(w := w)] && Churn.IsRun(sts', steps + [Hop(m)])
  {
    w := Do(sts[|steps|].w, sts[|steps|].t.name, m);
    sts' := sts + [sts[|steps|].(w := w)];
  }

  /** The hops of the late run, after any run that leads to its second state. */
  lemma HopsOn(sts: seq<State>, steps: seq<Step>, p: Name, a: Name, b: Name) returns (sts': seq<State>)
    requires p != a && p != b && a != b
    requires Churn.IsRun(sts, steps) && sts[|steps|].t == Tree(p, [Tree(a, [Tree(b, [])])])
    requires Holds(sts[|steps|].w, p, a, b, map[a := a], map[b := b], [Regist(b, a)], [Unregist(a, b)])
    ensures var up, low := Hop(Receive(Link(p, a))), Hop(Receive(Link(a, b)));
            Churn.IsRun(sts', steps + [up] + [low] + [up])
    ensures sts <= sts' && sts'[|steps| + 3].t == sts[|steps|].t && Queue(sts'[|steps| + 2].w, a) == [Unregist(a, a)]
    ensures Holds(sts'[|steps| + 3].w, p, a, b, map[], map[b := b], [], [])
  {
    ChainNames(p, a, b);
    var sts2, w2 := OneHopOn(sts, steps, Receive(Link(p, a)));
    var steps2 := steps + [Hop(Receive(Link(p, a)))];
    var sts3, w3 := OneHopOn(sts2, steps2, Receive(Link(a, b)));
    var steps3 := steps2 + [Hop(Receive(Link(a, b)))];
    var w4;
    sts', w4 := OneHopOn(sts3, steps3, Receive(Link(p, a)));
    Emptied(sts[|steps|].w, p, a, b, w2, w3, w4);
  }

  /** The run, and where it ends. */
  lemma LateRun(p: Name, a: Name, b: Name) returns (sts: seq<State>)
    requires p != a && p != b && a != b
    ensures var steps := LateSteps(p, a, b);
            && Churn.IsRun(sts, steps) && sts[0] == Start(p, a) && Accepted(sts[0], steps[0])
            && Cuts(sts[3], steps[3], Link(p, a)) && sts[4].t == Tree(p, [Tree(a, [Tree(b, [])])])
            && Holds(sts[4].w, p, a, b, map[], map[b := b], [], [])
  {
    var steps, st0 := LateSteps(p, a, b), Start(p, a);
    Connected(p, a, b);
    FirstStep(st0, steps[0]);
    sts := HopsOn([st0, Next(st0, steps[0])], [steps[0]], p, a, b);
    assert steps == [steps[0]] + [steps[1]] + [steps[2]] + [steps[3]];
    assert sts[0] == [st0, Next(st0, steps[0])][0];
  }

  /** A run from a good start with an accepted connect: the late unregistration comes up through
      `a` itself and empties the table of `p`, and no rounds bring the routes back. */
  lemma LateUnregistCutsOff(p: Name, a: Name, b: Name) returns (sts: seq<State>)
    requires p != a && p != b && a != b
    ensures var steps := LateSteps(p, a, b);
            && Churn.IsRun(sts, steps) && Good(sts[0]) && Accepted(sts[0], steps[0])
            && Cuts(sts[3], steps[3], Link(p, a)) && Drained(sts[4].w, sts[4].t) && TableOf(sts[4].w.net, p) == map[]
            && forall rounds :: AreRounds(sts[4].w, sts[4].t, rounds) ==>
                                  !AllExact(RunRounds(sts[4].w, sts[4].t.name, rounds).net, sts[4].t)
  {
    sts := LateRun(p, a, b);
    StartIsGood(p, a);
    ChainNames(p, a, b);
    var w := sts[4].w;
    forall rounds | AreRounds(w, sts[4].t, rounds)
      ensures !AllExact(RunRounds(w, p, rounds).net, sts[4].t)
    {
      NoRoundsHelp(w, p, a, b, rounds);
    }
  }
}
