/** The subtree route table of one cluster controller: what AddRoute, DelRoute and a subtree
    report do to it, and what any run of them keeps. */
module RouteTable {

  import opened Clusters
  import opened Collections

  /** destination in the subtree -> child that leads to it */
  type Table = map<Name, Name>

  /** AddRoute: an existing entry is never overwritten. */
  function Add(t: Table, to: Name, port: Name): Table {
    if to in t then t else t[to := port]
  }

  /** AddRoute returns no error. */
  predicate Accepts(t: Table, to: Name, port: Name) {
    to in t ==> t[to] == port
  }

  /** DelRoute: removing the route of a child (`to == port`) removes everything behind it. */
  function Del(t: Table, to: Name, port: Name): Table {
    if to == port then
      map k | k in t && k != port && t[k] != port :: t[k]
    else if to in t && t[to] == port then
      t - {to}
    else
      t
  }

  /** A subtree report of child `p` naming `names`: add every name through `p`, then drop the
      other destinations behind `p` that the report does not name. The self-route is kept. */
  function Report(t: Table, names: set<Name>, p: Name): Table {
    map k | k in t.Keys + names && (k in t && t[k] == p ==> k == p || k in names)
      :: if k in t then t[k] else p
  }

  /** A sequence of AddRoute calls through one port. */
  function AddAll(t: Table, names: seq<Name>, p: Name): Table
    decreases names
  {
    if names == [] then t else AddAll(Add(t, names[0], p), names[1..], p)
  }

  /** A sequence of DelRoute calls through one port. */
  function DelAll(t: Table, names: seq<Name>, p: Name): Table
    decreases names
  {
    if names == [] then t else DelAll(Del(t, names[0], p), names[1..], p)
  }

  lemma {:induction false} AddAllIs(t: Table, names: seq<Name>, p: Name)
    ensures AddAll(t, names, p) ==
            map k | k in t.Keys + Elems(names) :: if k in t then t[k] else p
    decreases names
  {
    if names != [] {
      AddAllIs(Add(t, names[0], p), names[1..], p);
    }
  }

  lemma {:induction false} DelAllIs(t: Table, names: seq<Name>, p: Name)
    requires p !in names
    ensures DelAll(t, names, p) == map k | k in t && !(k in names && t[k] == p) :: t[k]
    decreases names
  {
    if names != [] {
      DelAllIs(Del(t, names[0], p), names[1..], p);
    }
  }

  /** Whatever order the two loops of the report handler visit their maps in, the outcome is
      `Report`: `adds` is any enumeration of the reported names, `dels` any enumeration of the
      destinations behind `p` that were not reported. */
  lemma ReportAnyOrder(t: Table, names: set<Name>, p: Name, adds: seq<Name>, dels: seq<Name>)
    requires Elems(adds) == names
    requires var t' := AddAll(t, adds, p);
             Elems(dels) == set k | k in t' && t'[k] == p && k != p && k !in names
    ensures DelAll(AddAll(t, adds, p), dels, p) == Report(t, names, p)
  {
    var t' := AddAll(t, adds, p);
    AddAllIs(t, adds, p);
    assert p !in dels by {
      assert p !in Elems(dels);
    }
    DelAllIs(t', dels, p);
    assert forall n :: n in dels <==> n in Elems(dels);
  }

  // ----- Route ownership over runs -----

  /** The messages that change a table, each with the child it came from. closeChild is
      `Unregist(p, p)`. */
  datatype Event =
    | Regist(to: Name, client: Name)
    | Unregist(to: Name, client: Name)
    | SubtreeReport(names: set<Name>, client: Name)

  function Apply(t: Table, e: Event): Table {
    match e
    case Regist(to, client) => Add(t, to, client)
    case Unregist(to, client) => Del(t, to, client)
    case SubtreeReport(names, client) => Report(t, names, client)
  }

  function Run(t: Table, es: seq<Event>): Table
    decreases es
  {
    if es == [] then t else Run(Apply(t, es[0]), es[1..])
  }

  predicate Announces(e: Event, to: Name) {
    match e
    case Regist(n, _) => n == to
    case Unregist(_, _) => false
    case SubtreeReport(names, _) => to in names
  }

  /** A run that moves a destination to another port passes through a table without it. */
  lemma {:induction false} PortChangesOnlyThroughDeletion(t: Table, es: seq<Event>, k: Name)
    requires k in t && k in Run(t, es) && t[k] != Run(t, es)[k]
    ensures exists i :: 0 < i < |es| && k !in Run(t, es[..i])
    decreases es
  {
    var t1 := Apply(t, es[0]);
    if k in t1 {
      PortChangesOnlyThroughDeletion(t1, es[1..], k);
      var i :| 0 < i < |es| - 1 && k !in Run(t1, es[1..][..i]);
      assert es[..i + 1][1..] == es[1..][..i];
      assert k !in Run(t, es[..i + 1]);
    } else {
      assert es[..1] == [es[0]];
      assert Run(t, es[..1]) == Run(t1, []);
      assert |es| > 1;
      assert k !in Run(t, es[..1]);
    }
  }

  /** Every route of a final table that was not there before was announced by its port. */
  lemma {:induction false} NewRoutesAreAnnounced(t: Table, es: seq<Event>, k: Name)
    requires k in Run(t, es) && !(k in t && t[k] == Run(t, es)[k])
    ensures exists e :: e in es && e.client == Run(t, es)[k] && Announces(e, k)
    decreases es
  {
    var t1 := Apply(t, es[0]);
    if k in t1 && t1[k] == Run(t, es)[k] {
      assert es[0] in es;
    } else {
      NewRoutesAreAnnounced(t1, es[1..], k);
    }
  }

  /** After closeChild(p) and any further run without messages from `p`, nothing is routed
      through `p`, and `p` itself is known only if another child announced it. */
  lemma ClosedPortStaysClosed(t: Table, es: seq<Event>, p: Name)
    requires forall e :: e in es ==> e.client != p
    ensures var t' := Run(Del(t, p, p), es);
            && p !in t'.Values
            && (p in t' ==> exists e :: e in es && e.client == t'[p] && Announces(e, p))
  {
    var t0 := Del(t, p, p);
    var t' := Run(t0, es);
    forall k | k in t'
      ensures t'[k] != p
    {
      if t'[k] == p {
        NewRoutesAreAnnounced(t0, es, k);
      }
    }
    if p in t' {
      NewRoutesAreAnnounced(t0, es, p);
    }
  }

  // ----- Stabilisation of one table -----

  /** Every next hop is a current child. */
  predicate PortsCurrent(t: Table, kids: set<Name>) {
    forall k :: k in t ==> t[k] in kids
  }

  /** Every child has a route to itself. */
  predicate SelfRouted(t: Table, kids: set<Name>) {
    forall c :: c in kids ==> c in t && t[c] == c
  }

  /** Everything behind the ports in `done` is what those children have below them. */
  predicate Clean(t: Table, below: map<Name, set<Name>>, done: set<Name>)
    requires done <= below.Keys
  {
    forall k :: k in t && t[k] in done ==> k == t[k] || k in below[t[k]]
  }

  /** Everything below the children in `done` has its route. */
  predicate Covered(t: Table, below: map<Name, set<Name>>, done: set<Name>)
    requires done <= below.Keys
  {
    forall c, k :: c in done && k in below[c] ==> k in t && t[k] == c
  }

  /** No two children have a common cluster below them, and none has another child below it. */
  predicate Disjoint(below: map<Name, set<Name>>) {
    && (forall c, d :: c in below && d in below && c != d ==> below[c] !! below[d])
    && (forall c :: c in below ==> below[c] !! below.Keys)
  }

  /** The table routes exactly the children and what is below them, each through its child. */
  predicate Exact(t: Table, below: map<Name, set<Name>>) {
    && PortsCurrent(t, below.Keys)
    && SelfRouted(t, below.Keys)
    && Clean(t, below, below.Keys)
    && Covered(t, below, below.Keys)
  }

  /** The children and everything below them. */
  ghost function All(below: map<Name, set<Name>>): set<Name> {
    below.Keys + set c, k | c in below && k in below[c] :: k
  }

  lemma InAll(below: map<Name, set<Name>>, n: Name) returns (c: Name)
    requires n in All(below)
    ensures c in below && (n == c || n in below[c])
  {
    if n in below {
      c := n;
    } else {
      c :| c in below && n in below[c];
    }
  }

  lemma ExactKeys(t: Table, below: map<Name, set<Name>>)
    requires Exact(t, below)
    ensures t.Keys == All(below)
  {
  }

  lemma ExactAt(t: Table, below: map<Name, set<Name>>, c: Name, k: Name)
    requires Exact(t, below) && c in below && (k == c || k in below[c])
    ensures k in t && t[k] == c
  {
  }

  /** One report: other ports and self-routes are untouched, and what is left behind `p` was
      reported. */
  lemma ReportLocal(t: Table, names: set<Name>, p: Name)
    ensures var t' := Report(t, names, p);
            && (forall k :: k in t && (t[k] != p || k == p) ==> k in t' && t'[k] == t[k])
            && (forall k :: k in t' && t'[k] != p ==> k in t && t[k] == t'[k])
            && (forall k :: k in t' && t'[k] == p && k != p ==> k in names)
            && (forall k :: k in names ==> k in t' && (k in t ==> t'[k] == t[k]))
  {
  }

  lemma ReportKeepsSound(t: Table, names: set<Name>, p: Name, kids: set<Name>)
    requires p in kids && PortsCurrent(t, kids)
    ensures PortsCurrent(Report(t, names, p), kids)
    ensures SelfRouted(t, kids) ==> SelfRouted(Report(t, names, p), kids)
  {
  }

  lemma ReportCleans(t: Table, below: map<Name, set<Name>>, names: set<Name>, p: Name, done: set<Name>)
    requires p in below && names <= below[p] && done <= below.Keys && Clean(t, below, done)
    ensures Clean(Report(t, names, p), below, done + {p})
  {
  }

  lemma ReportCovers(t: Table, below: map<Name, set<Name>>, p: Name, done: set<Name>)
    requires Disjoint(below) && p in below && done <= below.Keys
    requires PortsCurrent(t, below.Keys) && Clean(t, below, below.Keys) && Covered(t, below, done)
    ensures Covered(Report(t, below[p], p), below, done + {p})
  {
  }

  /** Reports of children that name nothing but what is below them. */
  predicate Honest(es: seq<Event>, below: map<Name, set<Name>>) {
    forall e :: e in es ==> e.SubtreeReport? && e.client in below && e.names <= below[e.client]
  }

  /** Reports of children that name exactly what is below them. */
  predicate Truthful(es: seq<Event>, below: map<Name, set<Name>>) {
    forall e :: e in es ==> e.SubtreeReport? && e.client in below && e.names == below[e.client]
  }

  function Clients(es: seq<Event>): set<Name> {
    set e | e in es :: e.client
  }

  lemma ClientsStep(es: seq<Event>)
    requires es != []
    ensures Clients(es) == {es[0].client} + Clients(es[1..])
  {
    assert es == [es[0]] + es[1..];
  }

  lemma {:induction false} RunKeepsSound(t: Table, es: seq<Event>, kids: set<Name>)
    requires forall e :: e in es ==> e.SubtreeReport? && e.client in kids
    requires PortsCurrent(t, kids)
    ensures PortsCurrent(Run(t, es), kids)
    ensures SelfRouted(t, kids) ==> SelfRouted(Run(t, es), kids)
    decreases es
  {
    if es != [] {
      ReportKeepsSound(t, es[0].names, es[0].client, kids);
      RunKeepsSound(Apply(t, es[0]), es[1..], kids);
    }
  }

  /** Honest reports leave nothing wrong behind the children that sent one. */
  lemma {:induction false} RunCleans(t: Table, es: seq<Event>, below: map<Name, set<Name>>, done: set<Name>)
    requires Honest(es, below) && done <= below.Keys && Clean(t, below, done)
    ensures Clients(es) <= below.Keys && Clean(Run(t, es), below, done + Clients(es))
    decreases es
  {
    if es == [] {
      assert done + Clients(es) == done;
    } else {
      var p := es[0].client;
      ReportCleans(t, below, es[0].names, p, done);
      RunCleans(Apply(t, es[0]), es[1..], below, done + {p});
      ClientsStep(es);
      assert done + Clients(es) == done + {p} + Clients(es[1..]);
    }
  }

  /** Truthful reports to a table without wrong routes add everything below their senders. */
  lemma {:induction false} RunCovers(t: Table, es: seq<Event>, below: map<Name, set<Name>>, done: set<Name>)
    requires Truthful(es, below) && Disjoint(below) && PortsCurrent(t, below.Keys)
    requires Clean(t, below, below.Keys) && done <= below.Keys && Covered(t, below, done)
    ensures Clients(es) <= below.Keys && Covered(Run(t, es), below, done + Clients(es))
    decreases es
  {
    if es == [] {
      assert done + Clients(es) == done;
    } else {
      var p := es[0].client;
      ReportKeepsSound(t, es[0].names, p, below.Keys);
      ReportCleans(t, below, es[0].names, p, below.Keys);
      assert below.Keys + {p} == below.Keys;
      ReportCovers(t, below, p, done);
      RunCovers(Apply(t, es[0]), es[1..], below, done + {p});
      ClientsStep(es);
      assert done + Clients(es) == done + {p} + Clients(es[1..]);
    }
  }

  /** From any stale table whose ports are current children with self-routes, two rounds of
      reports, each in any order and with any repetition, give the exact table. */
  lemma TwoRoundsGiveExactTable(t: Table, below: map<Name, set<Name>>, first: seq<Event>, second: seq<Event>)
    requires Disjoint(below) && PortsCurrent(t, below.Keys) && SelfRouted(t, below.Keys)
    requires Truthful(first, below) && Clients(first) == below.Keys
    requires Truthful(second, below) && Clients(second) == below.Keys
    ensures Exact(Run(Run(t, first), second), below)
  {
    var t1 := Run(t, first);
    RunKeepsSound(t, first, below.Keys);
    RunCleans(t, first, below, {});
    assert {} + Clients(first) == below.Keys;
    RunKeepsSound(t1, second, below.Keys);
    RunCleans(t1, second, below, below.Keys);
    assert below.Keys + Clients(second) == below.Keys;
    RunCovers(t1, second, below, {});
    assert {} + Clients(second) == below.Keys;
  }

  /** A report of `p` comes before a report of `c`. */
  predicate Before(es: seq<Event>, p: Name, c: Name) {
    exists i, j :: 0 <= i < j < |es| && es[i].client == p && es[j].client == c
  }

  lemma BeforeStep(es: seq<Event>, p: Name, c: Name)
    requires es != []
    ensures Before(es, p, c) <==> (es[0].client == p && c in Clients(es[1..])) || Before(es[1..], p, c)
  {
    var rest := es[1..];
    assert forall j :: 0 < j < |es| ==> es[j] == rest[j - 1];
    if es[0].client == p && c in Clients(rest) {
      var e :| e in rest && e.client == c;
      var j :| 0 <= j < |rest| && rest[j] == e;
      assert es[0].client == p && es[j + 1].client == c;
    }
    if i, j :| 0 <= i < j < |rest| && rest[i].client == p && rest[j].client == c {
      assert es[i + 1].client == p && es[j + 1].client == c;
    }
    if i, j :| 0 <= i < j < |es| && es[i].client == p && es[j].client == c {
      assert rest[j - 1] in rest;
      assert i > 0 ==> rest[i - 1].client == p && rest[j - 1].client == c;
    }
  }

  /** What becomes of one destination below `c`: a route through another child stands until that
      child reports, and only then is the right one accepted. */
  lemma {:induction false} RoutedIff(t: Table, es: seq<Event>, below: map<Name, set<Name>>, c: Name, d: Name)
    requires Truthful(es, below) && Disjoint(below) && PortsCurrent(t, below.Keys)
    requires c in below && d in below[c]
    ensures d in Run(t, es) && Run(t, es)[d] == c <==>
            if d in t then t[d] == c || Before(es, t[d], c) else c in Clients(es)
    decreases es
  {
    if es != [] {
      ReportKeepsSound(t, es[0].names, es[0].client, below.Keys);
      RoutedIff(Apply(t, es[0]), es[1..], below, c, d);
      ClientsStep(es);
      if d in t {
        BeforeStep(es, t[d], c);
      }
    }
  }

  /** If the cluster `d` below `c` is routed through another child, that child reports first. */
  predicate InTurn(t: Table, es: seq<Event>, c: Name, d: Name) {
    d in t && t[d] != c ==> Before(es, t[d], c)
  }

  lemma RoutedInTurn(t: Table, es: seq<Event>, below: map<Name, set<Name>>, c: Name, d: Name)
    requires Truthful(es, below) && Disjoint(below) && PortsCurrent(t, below.Keys) && Clients(es) == below.Keys
    requires c in below && d in below[c]
    ensures d in Run(t, es) && Run(t, es)[d] == c <==> InTurn(t, es, c, d)
  {
    RoutedIff(t, es, below, c, d);
  }

  lemma CoveredWhere(t: Table, below: map<Name, set<Name>>, right: (Name, Name) -> bool)
    requires forall c, d :: c in below && d in below[c] ==> (d in t && t[d] == c <==> right(c, d))
    ensures Covered(t, below, below.Keys) <==> forall c, d :: c in below && d in below[c] ==> right(c, d)
  {
  }

  lemma CoveredIff(t: Table, below: map<Name, set<Name>>, es: seq<Event>)
    requires Disjoint(below) && PortsCurrent(t, below.Keys)
    requires Truthful(es, below) && Clients(es) == below.Keys
    ensures Covered(Run(t, es), below, below.Keys) <==>
            forall c, d :: c in below && d in below[c] ==> InTurn(t, es, c, d)
  {
    var t' := Run(t, es);
    forall c, d | c in below && d in below[c]
      ensures d in t' && t'[d] == c <==> InTurn(t, es, c, d)
    {
      RoutedInTurn(t, es, below, c, d);
    }
    CoveredWhere(t', below, (c, d) => InTurn(t, es, c, d));
  }

  /** One round gives the exact table if and only if every child whose cluster is routed through
      another child reports after that other child. */
  lemma OneRoundIff(t: Table, below: map<Name, set<Name>>, es: seq<Event>)
    requires Disjoint(below) && PortsCurrent(t, below.Keys) && SelfRouted(t, below.Keys)
    requires Truthful(es, below) && Clients(es) == below.Keys
    ensures Exact(Run(t, es), below) <==> forall c, d :: c in below && d in below[c] ==> InTurn(t, es, c, d)
  {
    RunKeepsSound(t, es, below.Keys);
    RunCleans(t, es, below, {});
    assert {} + Clients(es) == below.Keys;
    CoveredIff(t, below, es);
  }

  /** If no child has anything below it, one round is enough. */
  lemma OneRoundGivesExactTable(t: Table, below: map<Name, set<Name>>, es: seq<Event>)
    requires PortsCurrent(t, below.Keys) && SelfRouted(t, below.Keys)
    requires Truthful(es, below) && Clients(es) == below.Keys
    requires forall c :: c in below ==> below[c] == {}
    ensures Exact(Run(t, es), below)
  {
    OneRoundIff(t, below, es);
  }

  /** One round falls short: the true child is refused while the stale route stands. */
  lemma OneRoundFallsShort(t: Table, below: map<Name, set<Name>>, a: Name, b: Name, d: Name)
    requires Disjoint(below) && below.Keys == {a, b} && a != b && d in below[a]
    requires PortsCurrent(t, below.Keys) && SelfRouted(t, below.Keys) && d in t && t[d] == b
    ensures !Exact(Run(t, [SubtreeReport(below[a], a), SubtreeReport(below[b], b)]), below)
  {
    var es := [SubtreeReport(below[a], a), SubtreeReport(below[b], b)];
    assert es[0] in es && es[1] in es;
    OneRoundIff(t, below, es);
    assert !InTurn(t, es, a, d);
  }

  // ----- Children connecting and closing -----

  /** The children of a controller and its table. */
  datatype Node = Node(kids: set<Name>, table: Table)

  /** A child connects, forwards a registration or unregistration from below it, reports its
      subtree, or disconnects. Handlers are atomic. */
  datatype ChildEvent =
    | Connect(c: Name)
    | ForwardRegist(to: Name, c: Name)
    | ForwardUnregist(to: Name, c: Name)
    | ReportFrom(names: set<Name>, c: Name)
    | Close(c: Name)

  /** Only a connected child sends, a connecting one is new, and a child never forwards its own
      registration or unregistration: its parent raises those. */
  predicate Enabled(n: Node, e: ChildEvent) {
    match e
    case Connect(c) => c !in n.kids
    case ForwardRegist(to, c) => c in n.kids && to != c
    case ForwardUnregist(to, c) => c in n.kids && to != c
    case _ => e.c in n.kids
  }

  function Step(n: Node, e: ChildEvent): Node {
    match e
    case Connect(c) => Node(n.kids + {c}, Add(n.table, c, c))
    case ForwardRegist(to, c) => n.(table := Add(n.table, to, c))
    case ForwardUnregist(to, c) => n.(table := Del(n.table, to, c))
    case ReportFrom(names, c) => n.(table := Report(n.table, names, c))
    case Close(c) => Node(n.kids - {c}, Del(n.table, c, c))
  }

  ghost predicate IsRun(ns: seq<Node>, es: seq<ChildEvent>) {
    && |ns| == |es| + 1
    && forall i :: 0 <= i < |es| ==> Enabled(ns[i], es[i]) && ns[i + 1] == Step(ns[i], es[i])
  }

  /** In every run from an empty controller all next hops are current children. */
  lemma {:induction false} RunKeepsPortsCurrent(ns: seq<Node>, es: seq<ChildEvent>)
    requires IsRun(ns, es) && ns[0] == Node({}, map[])
    ensures PortsCurrent(ns[|es|].table, ns[|es|].kids)
  {
    if es != [] {
      var last := |es| - 1;
      RunKeepsPortsCurrent(ns[..last + 1], es[..last]);
    }
  }

  /** A child that connects at step `i` and is not closed afterwards has its self-route at the
      end exactly if no other child's route to it was left in the table when it connected; a
      refused self-route is not made up for, unless the child's own table names the child. */
  lemma {:induction false} SelfRouteIffAcceptedAtConnect(ns: seq<Node>, es: seq<ChildEvent>, i: nat)
    requires IsRun(ns, es) && i < |es| && es[i].Connect?
    requires forall j :: i < j < |es| ==> es[j] != Close(es[i].c)
    requires forall j :: i < j < |es| && es[j].ReportFrom? && es[j].c == es[i].c ==> es[i].c !in es[j].names
    ensures es[i].c in ns[|es|].kids
    ensures SelfRouted(ns[|es|].table, {es[i].c}) <==> Accepts(ns[i].table, es[i].c, es[i].c)
  {
    var last := |es| - 1;
    if i < last {
      SelfRouteIffAcceptedAtConnect(ns[..last + 1], es[..last], i);
    }
  }

  /** A run in which a connecting child is refused: its route through another child still stands. */
  lemma RefusedAtConnect(a: Name, c: Name) returns (ns: seq<Node>, es: seq<ChildEvent>)
    requires a != c
    ensures IsRun(ns, es) && ns[0] == Node({}, map[]) && es == [Connect(a), ForwardRegist(c, a), Connect(c)]
    ensures c in ns[3].kids && !SelfRouted(ns[3].table, {c}) && !Accepts(ns[2].table, c, c)
  {
    es := [Connect(a), ForwardRegist(c, a), Connect(c)];
    var n0 := Node({}, map[]);
    var n1 := Step(n0, es[0]);
    var n2 := Step(n1, es[1]);
    ns := [n0, n1, n2, Step(n2, es[2])];
    assert n2.table[c] == a;
    SelfRouteIffAcceptedAtConnect(ns, es, 2);
  }
}
