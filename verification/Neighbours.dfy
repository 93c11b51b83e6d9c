/** Neighbour information: every controller pushes its own children and its neighbours to its
    children, which keep them as their neighbours and their parent's neighbours. */
module Neighbours {

  import opened Clusters
  import opened Options

  type Addr = string
  type Listen = map<Name, Addr>

  /** The part of a router that is exchanged; a map never received is `None`. */
  datatype View = View(childs: Listen, neighbor: Option<Listen>, parentNeighbor: Option<Listen>)

  /** A route message: what a child reads of its parent's router. */
  datatype Msg = Msg(childs: Listen, neighbor: Option<Listen>)

  function MsgOf(v: View): Msg {
    Msg(v.childs, v.neighbor)
  }

  /** UpdateRouter. */
  function Receive(v: View, m: Msg): View {
    v.(neighbor := Some(m.childs), parentNeighbor := m.neighbor)
  }

  /** The children are notified only if the neighbours changed. */
  predicate Notifies(v: View, m: Msg) {
    v.neighbor != Some(m.childs)
  }

  /** All controllers, the undelivered messages of every link in order, and the parent each
      controller is connected to. A parent may still hold a link its child has left. */
  datatype Net = Net(views: map<Name, View>, links: map<Link, seq<Msg>>, parentOf: map<Name, Name>)

  ghost predicate Wf(n: Net) {
    && (forall l :: l in n.links ==> l.parent in n.views && l.child in n.views && l.parent != l.child)
    && (forall l :: l in n.links <==> l.parent in n.views && l.child in n.views[l.parent].childs)
    && (forall c :: c in n.parentOf ==> Link(n.parentOf[c], c) in n.links)
  }

  /** Append a message to every link of `p`. */
  function Broadcast(links: map<Link, seq<Msg>>, p: Name, m: Msg): map<Link, seq<Msg>> {
    map l | l in links :: if l.parent == p then links[l] + [m] else links[l]
  }

  datatype Step =
    | Attach(p: Name, c: Name, addr: Addr)
    | Detach(p: Name, c: Name)
    | Lose(c: Name)
    | Deliver(c: Name)

  predicate Enabled(n: Net, s: Step) {
    match s
    case Attach(p, c, _) => p in n.views && c in n.views && p != c && c !in n.views[p].childs
    case Detach(p, c) => p in n.views && c in n.views[p].childs
    case Lose(c) => c in n.parentOf
    case Deliver(c) => c in n.parentOf && Link(n.parentOf[c], c) in n.links && n.links[Link(n.parentOf[c], c)] != []
  }

  /** Attach runs AddChild, Detach runs DelChild, Deliver runs UpdateRouter at the child. */
  ghost function Next(n: Net, s: Step): Net
    requires Wf(n) && Enabled(n, s)
  {
    match s
    case Attach(p, c, addr) =>
      var v := n.views[p].(childs := n.views[p].childs[c := addr]);
      Net(n.views[p := v], Broadcast(n.links[Link(p, c) := []], p, MsgOf(v)), n.parentOf[c := p])
    case Detach(p, c) =>
      var v := n.views[p].(childs := n.views[p].childs - {c});
      Net(n.views[p := v], Broadcast(n.links - {Link(p, c)}, p, MsgOf(v)),
          if c in n.parentOf && n.parentOf[c] == p then n.parentOf - {c} else n.parentOf)
    case Lose(c) =>
      n.(parentOf := n.parentOf - {c})
    case Deliver(c) =>
      var l := Link(n.parentOf[c], c);
      var m := n.links[l][0];
      var v := Receive(n.views[c], m);
      var rest := n.links[l := n.links[l][1..]];
      Net(n.views[c := v], if Notifies(n.views[c], m) then Broadcast(rest, c, MsgOf(v)) else rest, n.parentOf)
  }

  /** A child's view of its parent is current once everything on the link has arrived. */
  ghost predicate Synced(n: Net, c: Name)
    requires Wf(n) && c in n.parentOf
  {
    var p := n.parentOf[c];
    var queue := n.links[Link(p, c)];
    if queue == [] then
      n.views[c].neighbor == Some(n.views[p].childs) && n.views[c].parentNeighbor == n.views[p].neighbor
    else
      queue[|queue| - 1] == MsgOf(n.views[p])
  }

  ghost predicate Inv(n: Net) {
    Wf(n) && forall c :: c in n.parentOf ==> Synced(n, c)
  }

  lemma AttachKeepsWf(n: Net, s: Step)
    requires Wf(n) && s.Attach? && Enabled(n, s)
    ensures Wf(Next(n, s))
  {
  }

  lemma DetachKeepsWf(n: Net, s: Step)
    requires Wf(n) && s.Detach? && Enabled(n, s)
    ensures Wf(Next(n, s))
  {
  }

  lemma NextKeepsWf(n: Net, s: Step)
    requires Wf(n) && Enabled(n, s)
    ensures Wf(Next(n, s))
  {
    match s {
      case Attach(_, _, _) => AttachKeepsWf(n, s);
      case Detach(_, _) => DetachKeepsWf(n, s);
      case Lose(_) =>
      case Deliver(_) =>
    }
  }

  /** A change of `p`'s own view is pushed to all its links, and no other link depends on it. */
  lemma PushKeepsSynced(n: Net, n': Net, p: Name, c: Name)
    requires Inv(n) && Wf(n') && p in n.views && p in n'.views && c in n'.parentOf
    requires n'.views == n.views[p := n'.views[p]]
    requires forall l :: l in n'.links && l.parent == p ==>
                           n'.links[l] != [] && n'.links[l][|n'.links[l]| - 1] == MsgOf(n'.views[p])
    requires forall l :: l in n'.links && l.parent != p ==> l in n.links && n'.links[l] == n.links[l]
    requires n'.parentOf[c] != p ==> c in n.parentOf && n.parentOf[c] == n'.parentOf[c]
    requires c == p ==> n'.views[p].neighbor == n.views[p].neighbor
    requires c == p ==> n'.views[p].parentNeighbor == n.views[p].parentNeighbor
    ensures Synced(n', c)
  {
    var l := Link(n'.parentOf[c], c);
    assert l in n'.links;
    if l.parent != p {
      assert Synced(n, c);
    }
  }

  /** A delivery takes one message off its link. It is passed on, with the children and the new
      neighbours, exactly if it changes the neighbours; no other link is touched. */
  lemma DeliverLink(n: Net, d: Name, l: Link)
    requires Wf(n) && Enabled(n, Deliver(d)) && l in n.links
    ensures l in Next(n, Deliver(d)).links
    ensures var own := Link(n.parentOf[d], d);
            var m := n.links[own][0];
            Next(n, Deliver(d)).links[l] ==
            if l == own then n.links[l][1..]
            else if l.parent == d && n.views[d].neighbor != Some(m.childs)
            then n.links[l] + [Msg(n.views[d].childs, Some(m.childs))] else n.links[l]
  {
  }

  lemma DeliverKeepsSynced(n: Net, d: Name, c: Name)
    requires Inv(n) && Enabled(n, Deliver(d))
    requires Wf(Next(n, Deliver(d))) && c in Next(n, Deliver(d)).parentOf
    ensures Synced(Next(n, Deliver(d)), c)
  {
    var l, n' := Link(n.parentOf[c], c), Next(n, Deliver(d));
    assert l in n.links && l.parent != l.child;
    DeliverLink(n, d, l);
    assert Synced(n, c);
    if c == d {
      assert n'.views[l.parent] == n.views[l.parent] && n'.links[l] == n.links[l][1..];
    } else {
      assert n'.views[c] == n.views[c] && l != Link(n.parentOf[d], d);
    }
  }

  lemma AttachKeepsSynced(n: Net, s: Step, c: Name)
    requires Inv(n) && s.Attach? && Enabled(n, s)
    requires Wf(Next(n, s)) && c in Next(n, s).parentOf
    ensures Synced(Next(n, s), c)
  {
    PushKeepsSynced(n, Next(n, s), s.p, c);
  }

  lemma DetachKeepsSynced(n: Net, s: Step, c: Name)
    requires Inv(n) && s.Detach? && Enabled(n, s)
    requires Wf(Next(n, s)) && c in Next(n, s).parentOf
    ensures Synced(Next(n, s), c)
  {
    PushKeepsSynced(n, Next(n, s), s.p, c);
  }

  lemma {:induction false} NextKeepsSynced(n: Net, s: Step, c: Name)
    requires Inv(n) && Enabled(n, s)
    requires Wf(Next(n, s)) && c in Next(n, s).parentOf
    ensures Synced(Next(n, s), c)
  {
    match s {
      case Attach(_, _, _) => AttachKeepsSynced(n, s, c);
      case Detach(_, _) => DetachKeepsSynced(n, s, c);
      case Lose(_) => assert Synced(n, c);
      case Deliver(d) => DeliverKeepsSynced(n, d, c);
    }
  }

  ghost predicate IsRun(ns: seq<Net>, steps: seq<Step>) {
    && |ns| == |steps| + 1
    && forall i :: 0 <= i < |steps| ==> Wf(ns[i]) && Enabled(ns[i], steps[i]) && ns[i + 1] == Next(ns[i], steps[i])
  }

  /** In every run from unconnected controllers, the last undelivered message of a live link
      carries the parent's current children and neighbours, and if there is none the child
      holds exactly those. */
  lemma {:induction false} RunKeepsInv(ns: seq<Net>, steps: seq<Step>)
    requires IsRun(ns, steps) && Wf(ns[0]) && ns[0].parentOf == map[]
    ensures Inv(ns[|steps|])
  {
    if steps != [] {
      var last := |steps| - 1;
      RunKeepsInv(ns[..last + 1], steps[..last]);
      var n := ns[last];
      NextKeepsWf(n, steps[last]);
      var n' := ns[last + 1];
      forall c | c in n'.parentOf
        ensures Synced(n', c)
      {
        NextKeepsSynced(n, steps[last], c);
      }
    }
  }

  ghost predicate Quiet(n: Net)
    requires Wf(n)
  {
    forall c :: c in n.parentOf ==> n.links[Link(n.parentOf[c], c)] == []
  }

  /** Once nothing is in flight, at every depth a controller's parent-neighbours are the
      children of its grandparent, itself among its neighbours and its parent among its
      parent-neighbours: the pool it may reconnect to is the real one. */
  lemma QuietMeansGrandparent(ns: seq<Net>, steps: seq<Step>, c: Name)
    requires IsRun(ns, steps) && Wf(ns[0]) && ns[0].parentOf == map[]
    requires Wf(ns[|steps|]) && Quiet(ns[|steps|])
    requires var n := ns[|steps|]; c in n.parentOf && n.parentOf[c] in n.parentOf
    ensures var n := ns[|steps|];
            var p := n.parentOf[c];
            var g := n.parentOf[p];
            && n.views[c].neighbor == Some(n.views[p].childs) && c in n.views[p].childs
            && n.views[c].parentNeighbor == Some(n.views[g].childs) && p in n.views[g].childs
  {
    RunKeepsInv(ns, steps);
    var n := ns[|steps|];
    assert Synced(n, c) && Synced(n, n.parentOf[c]);
  }

  /** A controller that has lost its connection hears nothing more and is not waited for, while its
      parent still lists it, until the parent drops it. */
  lemma LostHearsNothing(n: Net, c: Name)
    requires Wf(n) && Enabled(n, Lose(c))
    ensures var n', p := Next(n, Lose(c)), n.parentOf[c];
            && c !in n'.parentOf && !Enabled(n', Deliver(c)) && n'.views == n.views && n'.links == n.links
            && Enabled(n', Detach(p, c)) && !Enabled(n', Attach(p, c, ""))
  {
  }

  // ----- Quiescence is reached -----

  /** `links` enumerates the links once each, and ranks fall from parent to child. */
  ghost predicate Forest(n: Net, links: seq<Link>, rank: map<Name, nat>) {
    && (forall l :: l in links <==> l in n.links)
    && (forall i, j :: 0 <= i < j < |links| ==> links[i] != links[j])
    && Ranked(links, rank)
  }

  predicate Ranked(links: seq<Link>, rank: map<Name, nat>) {
    forall l :: l in links ==> l.parent in rank && l.child in rank && rank[l.child] < rank[l.parent]
  }

  /** The most deliveries one message to `c` can cause. */
  function Weight(links: seq<Link>, rank: map<Name, nat>, c: Name): nat
    requires Ranked(links, rank) && c in rank
    decreases rank[c], |links| + 1
  {
    1 + KidWeights(links, rank, c, links)
  }

  function KidWeights(links: seq<Link>, rank: map<Name, nat>, c: Name, rest: seq<Link>): nat
    requires Ranked(links, rank) && c in rank
    requires forall l :: l in rest ==> l in links
    decreases rank[c], |rest|
  {
    if rest == [] then 0
    else (if rest[0].parent == c then Weight(links, rank, rest[0].child) else 0)
         + KidWeights(links, rank, c, rest[1..])
  }

  /** The deliveries the messages in flight can still cause. */
  function InFlight(n: Net, links: seq<Link>, rank: map<Name, nat>, rest: seq<Link>): nat
    requires Ranked(links, rank)
    requires forall l :: l in rest ==> l in links && l in n.links
  {
    if rest == [] then 0
    else |n.links[rest[0]]| * Weight(links, rank, rest[0].child) + InFlight(n, links, rank, rest[1..])
  }

  lemma {:induction false} DeliverInFlight(n: Net, c: Name, links: seq<Link>, rank: map<Name, nat>, rest: seq<Link>)
    requires Wf(n) && Enabled(n, Deliver(c)) && Ranked(links, rank) && c in rank
    requires forall l :: l in rest ==> l in links && l in n.links
    requires forall i, j :: 0 <= i < j < |rest| ==> rest[i] != rest[j]
    ensures InFlight(Next(n, Deliver(c)), links, rank, rest)
            + (if Link(n.parentOf[c], c) in rest then Weight(links, rank, c) else 0)
         <= InFlight(n, links, rank, rest) + KidWeights(links, rank, c, rest)
  {
    if rest != [] {
      DeliverInFlight(n, c, links, rank, rest[1..]);
      DeliverLink(n, c, rest[0]);
      var own := Link(n.parentOf[c], c);
      QueueWeight(|n.links[rest[0]]|, |Next(n, Deliver(c)).links[rest[0]]|, Weight(links, rank, rest[0].child));
      assert own == rest[0] ==> own !in rest[1..];
    }
  }

  lemma QueueWeight(k: nat, k': nat, w: nat)
    ensures k' == k - 1 ==> k' * w + w == k * w
    ensures k' <= k + 1 ==> k' * w <= k * w + w
  {
  }

  /** A delivery keeps the links and lowers what is in flight. */
  lemma DeliverLowers(n: Net, c: Name, links: seq<Link>, rank: map<Name, nat>)
    requires Wf(n) && Forest(n, links, rank) && Enabled(n, Deliver(c))
    ensures var n' := Next(n, Deliver(c));
            Wf(n') && Forest(n', links, rank) && InFlight(n', links, rank, links) < InFlight(n, links, rank, links)
  {
    assert Link(n.parentOf[c], c) in links;
    DeliverInFlight(n, c, links, rank, links);
    NextKeepsWf(n, Deliver(c));
    assert Next(n, Deliver(c)).links.Keys == n.links.Keys;
  }

  /** While no controller attaches or detaches, every run of deliveries is bounded, and the
      bound is a function of what is in flight at its start. */
  lemma {:induction false} DeliveriesEnd(ns: seq<Net>, steps: seq<Step>, links: seq<Link>, rank: map<Name, nat>)
    requires IsRun(ns, steps) && Wf(ns[0]) && Forest(ns[0], links, rank)
    requires forall s :: s in steps ==> s.Deliver?
    ensures |steps| <= InFlight(ns[0], links, rank, links)
    decreases |steps|
  {
    if steps != [] {
      assert steps[0] in steps;
      DeliverLowers(ns[0], steps[0].c, links, rank);
      DeliveriesEnd(ns[1..], steps[1..], links, rank);
    }
  }
}
