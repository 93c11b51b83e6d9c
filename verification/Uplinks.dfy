/** The tables of all controllers together with the messages that are on their way up. A child's
    messages to its parent arrive in the order in which they were sent. */
module Uplinks {

  import opened Clusters
  import opened RouteTable

  /** The table of every cluster. */
  type Net = map<Name, Table>

  function TableOf(net: Net, at: Name): Table {
    if at in net then net[at] else map[]
  }

  /** `up` holds what each cluster has sent to its parent and has not arrived yet. */
  datatype World = World(net: Net, up: map<Name, seq<Event>>)

  function Queue(w: World, c: Name): seq<Event> {
    if c in w.up then w.up[c] else []
  }

  function Pushed(w: World, c: Name, e: Event): World {
    w.(up := w.up[c := Queue(w, c) + [e]])
  }

  /** A cluster reports its table to its parent, or a parent handles the next message of a child. */
  datatype Move = Send(c: Name) | Receive(l: Link)

  /** A controller sends on a registration it accepts and every unregistration. */
  predicate SendsOn(t: Table, e: Event) {
    match e
    case Regist(to, client) => Accepts(t, to, client)
    case Unregist(_, _) => true
    case SubtreeReport(_, _) => false
  }

  /** The same message with another sender. */
  function From(e: Event, client: Name): Event {
    match e
    case Regist(to, _) => Regist(to, client)
    case Unregist(to, _) => Unregist(to, client)
    case SubtreeReport(names, _) => SubtreeReport(names, client)
  }

  /** The parent of `l` handles `e`; the root has nobody to send it on to. */
  function Handled(w: World, root: Name, l: Link, e: Event): World {
    var t := TableOf(w.net, l.parent);
    var w1 := w.(net := w.net[l.parent := Apply(t, e)]);
    if l.parent != root && SendsOn(t, e) then Pushed(w1, l.parent, From(e, l.parent)) else w1
  }

  function Do(w: World, root: Name, m: Move): World {
    match m
    case Send(c) => Pushed(w, c, SubtreeReport(TableOf(w.net, c).Keys, c))
    case Receive(l) =>
      var q := Queue(w, l.child);
      if q == [] then w else Handled(w.(up := w.up[l.child := q[1..]]), root, l, q[0])
  }

  function RunMoves(w: World, root: Name, ms: seq<Move>): World
    decreases ms
  {
    if ms == [] then w else RunMoves(Do(w, root, ms[0]), root, ms[1..])
  }

  /** Whether the move has `p` handle a message. */
  predicate Handles(w: World, m: Move, p: Name) {
    m.Receive? && m.l.parent == p && Queue(w, m.l.child) != []
  }

  lemma DoTable(w: World, root: Name, m: Move, p: Name)
    ensures TableOf(Do(w, root, m).net, p) ==
            if Handles(w, m, p) then Apply(TableOf(w.net, p), Queue(w, m.l.child)[0]) else TableOf(w.net, p)
    ensures p in Do(w, root, m).net <==> p in w.net || Handles(w, m, p)
  {
  }

  /** What a move adds to the messages on the way from `c`. */
  function Added(w: World, root: Name, m: Move, c: Name): seq<Event> {
    if m == Send(c) then [SubtreeReport(TableOf(w.net, c).Keys, c)]
    else if Handles(w, m, c) && c != root && SendsOn(TableOf(w.net, c), Queue(w, m.l.child)[0])
    then [From(Queue(w, m.l.child)[0], c)]
    else []
  }

  lemma DoQueue(w: World, root: Name, m: Move, c: Name)
    ensures Queue(Do(w, root, m), c) ==
            (if m.Receive? && m.l.child == c && Queue(w, c) != [] then Queue(w, c)[1..] else Queue(w, c))
            + Added(w, root, m, c)
  {
  }

  lemma {:induction false} RunMovesAppend(w: World, root: Name, a: seq<Move>, b: seq<Move>)
    ensures RunMoves(w, root, a + b) == RunMoves(RunMoves(w, root, a), root, b)
    decreases a
  {
    if a == [] {
      assert a + b == b;
    } else {
      RunMovesAppend(Do(w, root, a[0]), root, a[1..], b);
      assert (a + b)[1..] == a[1..] + b;
    }
  }

  // ----- What a controller hears -----

  /** The messages that `p` handles during the moves. */
  function Heard(w: World, root: Name, p: Name, ms: seq<Move>): seq<Event>
    decreases ms
  {
    if ms == [] then []
    else
      (if Handles(w, ms[0], p) then [Queue(w, ms[0].l.child)[0]] else [])
      + Heard(Do(w, root, ms[0]), root, p, ms[1..])
  }

  /** A table changes by what its controller hears, and by nothing else. */
  lemma {:induction false} TableIsHeard(w: World, root: Name, p: Name, ms: seq<Move>)
    ensures TableOf(RunMoves(w, root, ms).net, p) == Run(TableOf(w.net, p), Heard(w, root, p, ms))
    ensures p in w.net ==> p in RunMoves(w, root, ms).net
    decreases ms
  {
    if ms != [] {
      var w1 := Do(w, root, ms[0]);
      DoTable(w, root, ms[0], p);
      TableIsHeard(w1, root, p, ms[1..]);
      var rest := Heard(w1, root, p, ms[1..]);
      if Handles(w, ms[0], p) {
        assert ([Queue(w, ms[0].l.child)[0]] + rest)[1..] == rest;
      } else {
        assert [] + rest == rest;
      }
    }
  }

  /** What a cluster has on its way carries its own name. */
  ghost predicate Signed(w: World, c: Name) {
    forall e :: e in Queue(w, c) ==> e.client == c
  }

  lemma DoKeepsSigned(w: World, root: Name, m: Move, c: Name)
    requires Signed(w, c)
    ensures Signed(Do(w, root, m), c)
  {
    DoQueue(w, root, m, c);
  }

  /** A message that is on its way from `c`, or sent during the moves, has been heard by the
      parent if nothing is left on the way in the end. */
  lemma {:induction false} SentIsHeard(w: World, root: Name, ms: seq<Move>, p: Name, c: Name)
    requires Signed(w, c) && (Queue(w, c) != [] || Send(c) in ms)
    requires forall m :: m in ms && m.Receive? && m.l.child == c ==> m.l.parent == p
    requires Queue(RunMoves(w, root, ms), c) == []
    ensures c in Clients(Heard(w, root, p, ms))
    decreases ms
  {
    var m, w1 := ms[0], Do(w, root, ms[0]);
    assert m in ms;
    if m == Receive(Link(p, c)) && Queue(w, c) != [] {
      assert Queue(w, c)[0] in Heard(w, root, p, ms);
    } else {
      DoQueue(w, root, m, c);
      assert Queue(w1, c) != [] || Send(c) in ms[1..];
      DoKeepsSigned(w, root, m, c);
      SentIsHeard(w1, root, ms[1..], p, c);
    }
  }
}
