/** Periodic subtree reports on a fixed tree: from stale tables everywhere, all tables become
    exact one round after the tree's height. */
module Convergence {

  import opened Clusters
  import opened Options
  import opened RouteTable
  import opened ClusterTree
  import opened Uplinks

  // ----- Tables of a tree -----

  /** Every next hop is a current child and every child has its self-route, in every table. */
  ghost predicate Sound(net: Net, t: Tree) {
    && t.name in net
    && PortsCurrent(net[t.name], KidNames(t)) && SelfRouted(net[t.name], KidNames(t))
    && forall i :: 0 <= i < |t.kids| ==> Sound(net, t.kids[i])
  }

  /** The table maps exactly the clusters below `t`, each to the child it is in. */
  ghost predicate TableExact(table: Table, t: Tree) {
    && table.Keys == Below(t)
    && forall i, d :: 0 <= i < |t.kids| && d in Names(t.kids[i]) ==> d in table && table[d] == t.kids[i].name
  }

  /** Every table of the subtree is exact. */
  ghost predicate AllExact(net: Net, t: Tree) {
    && t.name in net && TableExact(net[t.name], t)
    && forall i :: 0 <= i < |t.kids| ==> AllExact(net, t.kids[i])
  }

  /** The table is sound and holds nothing wrong, and if `full`, nothing is missing. */
  ghost predicate TableOk(table: Table, t: Tree, full: bool) {
    var below := Kids(t);
    && PortsCurrent(table, below.Keys) && SelfRouted(table, below.Keys) && Clean(table, below, below.Keys)
    && (full ==> Covered(table, below, below.Keys))
  }

  ghost predicate NetOk(net: Net, t: Tree, full: bool) {
    && t.name in net && TableOk(net[t.name], t, full)
    && forall i :: 0 <= i < |t.kids| ==> NetOk(net, t.kids[i], full)
  }

  lemma OkKeys(table: Table, t: Tree, full: bool)
    requires Distinct(t) && TableOk(table, t, full)
    ensures table.Keys <= Below(t) && (full ==> table.Keys == Below(t))
  {
    KidsAll(t);
    assert table.Keys <= All(Kids(t));
    if full {
      ExactKeys(table, Kids(t));
    }
  }

  lemma FullIsExact(table: Table, t: Tree)
    requires Distinct(t) && TableOk(table, t, true)
    ensures TableExact(table, t)
  {
    OkKeys(table, t, true);
    forall i, d | 0 <= i < |t.kids| && d in Names(t.kids[i])
      ensures d in table && table[d] == t.kids[i].name
    {
      KidsAt(t, i);
      ExactAt(table, Kids(t), t.kids[i].name, d);
    }
  }

  lemma {:induction false} FullNetIsExact(net: Net, t: Tree)
    requires Distinct(t) && NetOk(net, t, true)
    ensures AllExact(net, t)
  {
    FullIsExact(net[t.name], t);
    forall i | 0 <= i < |t.kids|
      ensures AllExact(net, t.kids[i])
    {
      FullNetIsExact(net, t.kids[i]);
    }
  }

  /** What an exact table holds behind a child is the child and what is below it. */
  lemma BehindKid(table: Table, t: Tree, i: nat, k: Name)
    requires Distinct(t) && TableExact(table, t) && i < |t.kids| && k in table && table[k] == t.kids[i].name
    ensures k == t.kids[i].name || k in Below(t.kids[i])
  {
    var j := KidOf(t, k);
    assert t.kids[i].name in Names(t.kids[i]) && t.kids[j].name in Names(t.kids[j]);
    KidsApart(t, i, j);
  }

  // ----- Soundness is kept -----

  /** A message that cannot take away its sender's self-route. */
  predicate Harmless(e: Event, client: Name) {
    e.client == client && !(e.Unregist? && e.to == client)
  }

  lemma HandleKeepsTable(table: Table, e: Event, kids: set<Name>)
    requires e.client in kids && Harmless(e, e.client) && PortsCurrent(table, kids)
    ensures PortsCurrent(Apply(table, e), kids)
    ensures SelfRouted(table, kids) ==> SelfRouted(Apply(table, e), kids)
  {
    match e {
      case Regist(_, _) =>
      case Unregist(_, _) =>
      case SubtreeReport(names, client) => ReportKeepsSound(table, names, client, kids);
    }
  }

  /** Seen from the subtree `t`, the move stays within a link of its own or touches no table. */
  ghost predicate FitsMove(t: Tree, m: Move) {
    m.Receive? ==> Fits(t, m.l)
  }

  ghost predicate FitAll(t: Tree, ms: seq<Move>) {
    forall m :: m in ms ==> FitsMove(t, m)
  }

  /** The next message on every link into the subtree is harmless. */
  ghost predicate HarmlessMove(w: World, m: Move) {
    m.Receive? && Queue(w, m.l.child) != [] ==> Harmless(Queue(w, m.l.child)[0], m.l.child)
  }

  /** No message, in whatever order it arrives, makes a next hop stale or removes a self-route. */
  lemma {:induction false} DoKeepsSound(w: World, root: Name, m: Move, t: Tree)
    requires Distinct(t) && Sound(w.net, t) && FitsMove(t, m) && HarmlessMove(w, m)
    ensures Sound(Do(w, root, m).net, t)
    decreases t
  {
    DoTable(w, root, m, t.name);
    if Handles(w, m, t.name) {
      RootLinks(t, m.l);
      HandleKeepsTable(w.net[t.name], Queue(w, m.l.child)[0], KidNames(t));
    }
    forall i | 0 <= i < |t.kids|
      ensures Sound(Do(w, root, m).net, t.kids[i])
    {
      if m.Receive? {
        FitsKid(t, m.l, i);
      }
      DoKeepsSound(w, root, m, t.kids[i]);
    }
  }

  // ----- Clean and exact subtrees stay so -----

  /** The reports on their way from a child hold nothing wrong, and if `full`, everything. */
  ghost predicate QueueOk(w: World, kid: Tree, full: bool) {
    forall e :: e in Queue(w, kid.name) ==>
                  e.SubtreeReport? && e.client == kid.name && e.names <= Below(kid) && (full ==> e.names == Below(kid))
  }

  ghost predicate Ok(w: World, t: Tree, full: bool)
    decreases t, 1
  {
    t.name in w.net && TableOk(w.net[t.name], t, full) && KidsOk(w, t, full)
  }

  ghost predicate KidsOk(w: World, t: Tree, full: bool)
    decreases t, 0
  {
    forall i :: 0 <= i < |t.kids| ==> QueueOk(w, t.kids[i], full) && Ok(w, t.kids[i], full)
  }

  lemma OkReport(table: Table, t: Tree, i: nat, names: set<Name>, full: bool)
    requires Distinct(t) && TableOk(table, t, full) && i < |t.kids|
    requires names <= Below(t.kids[i]) && (full ==> names == Below(t.kids[i]))
    ensures TableOk(Report(table, names, t.kids[i].name), t, full)
  {
    var below, p := Kids(t), t.kids[i].name;
    KidsAt(t, i);
    ReportKeepsSound(table, names, p, below.Keys);
    ReportCleans(table, below, names, p, below.Keys);
    assert below.Keys + {p} == below.Keys;
    if full {
      KidsDisjoint(t);
      ReportCovers(table, below, p, below.Keys);
    }
  }

  /** The message a child's parent handles next, if the child's subtree is fine. */
  lemma HeadOk(w: World, t: Tree, m: Move, full: bool) returns (i: nat)
    requires Distinct(t) && KidsOk(w, t, full) && FitsMove(t, m) && Handles(w, m, t.name)
    ensures i < |t.kids| && m.l.child == t.kids[i].name
    ensures var e := Queue(w, m.l.child)[0];
            && e.SubtreeReport? && e.client == t.kids[i].name && e.names <= Below(t.kids[i])
            && (full ==> e.names == Below(t.kids[i]))
  {
    RootLinks(t, m.l);
    i := KidNamed(t, m.l.child);
    assert QueueOk(w, t.kids[i], full);
  }

  lemma OwnTableStays(w: World, root: Name, m: Move, t: Tree, full: bool)
    requires Distinct(t) && Ok(w, t, full) && FitsMove(t, m)
    ensures t.name in Do(w, root, m).net && TableOk(Do(w, root, m).net[t.name], t, full)
  {
    DoTable(w, root, m, t.name);
    if Handles(w, m, t.name) {
      var i := HeadOk(w, t, m, full);
      OkReport(w.net[t.name], t, i, Queue(w, m.l.child)[0].names, full);
    }
  }

  lemma QueueStays(w: World, root: Name, m: Move, kid: Tree, full: bool)
    requires Distinct(kid) && QueueOk(w, kid, full) && Ok(w, kid, full) && FitsMove(kid, m)
    ensures QueueOk(Do(w, root, m), kid, full)
  {
    DoQueue(w, root, m, kid.name);
    if m == Send(kid.name) {
      OkKeys(w.net[kid.name], kid, full);
    } else if Handles(w, m, kid.name) {
      var _ := HeadOk(w, kid, m, full);
    }
  }

  lemma {:induction false} OkStays(w: World, root: Name, m: Move, t: Tree, full: bool)
    requires Distinct(t) && Ok(w, t, full) && FitsMove(t, m)
    ensures Ok(Do(w, root, m), t, full)
    decreases t, 1
  {
    OwnTableStays(w, root, m, t, full);
    KidsStay(w, root, m, t, full);
  }

  lemma {:induction false} KidsStay(w: World, root: Name, m: Move, t: Tree, full: bool)
    requires Distinct(t) && KidsOk(w, t, full) && FitsMove(t, m)
    ensures KidsOk(Do(w, root, m), t, full)
    decreases t, 0
  {
    forall i | 0 <= i < |t.kids|
      ensures QueueOk(Do(w, root, m), t.kids[i], full) && Ok(Do(w, root, m), t.kids[i], full)
    {
      if m.Receive? {
        FitsKid(t, m.l, i);
      }
      QueueStays(w, root, m, t.kids[i], full);
      OkStays(w, root, m, t.kids[i], full);
    }
  }

  /** If the children's subtrees are fine, their parent hears honest reports, and truthful ones
      if they are full. */
  lemma {:induction false} KidsReport(w: World, root: Name, ms: seq<Move>, t: Tree, full: bool)
    requires Distinct(t) && KidsOk(w, t, full) && FitAll(t, ms)
    ensures KidsOk(RunMoves(w, root, ms), t, full)
    ensures Honest(Heard(w, root, t.name, ms), Kids(t))
    ensures full ==> Truthful(Heard(w, root, t.name, ms), Kids(t))
    decreases ms
  {
    if ms != [] {
      assert ms[0] in ms;
      KidsStay(w, root, ms[0], t, full);
      KidsReport(Do(w, root, ms[0]), root, ms[1..], t, full);
      if Handles(w, ms[0], t.name) {
        var i := HeadOk(w, t, ms[0], full);
        KidsAt(t, i);
      }
    }
  }

  // ----- Rounds -----

  ghost predicate OfTree(t: Tree, m: Move) {
    match m
    case Send(c) => c in Below(t)
    case Receive(l) => l in Links(t)
  }

  /** Nothing is on its way. */
  ghost predicate Drained(w: World, t: Tree) {
    forall c :: c in Below(t) ==> Queue(w, c) == []
  }

  /** A round: every cluster below the root reports at least once, and what is sent in the round
      arrives in the round; otherwise sending and arriving interleave in any way. */
  ghost predicate IsRound(w: World, t: Tree, ms: seq<Move>) {
    && (forall m :: m in ms ==> OfTree(t, m))
    && (forall c :: c in Below(t) ==> Send(c) in ms)
    && Drained(RunMoves(w, t.name, ms), t)
  }

  function RunRounds(w: World, root: Name, rounds: seq<seq<Move>>): World {
    if rounds == [] then w
    else RunMoves(RunRounds(w, root, rounds[..|rounds| - 1]), root, rounds[|rounds| - 1])
  }

  ghost predicate AreRounds(w: World, t: Tree, rounds: seq<seq<Move>>) {
    rounds == [] ||
    var last := |rounds| - 1;
    AreRounds(w, t, rounds[..last]) && IsRound(RunRounds(w, t.name, rounds[..last]), t, rounds[last])
  }

  lemma RoundsEndDrained(w: World, t: Tree, rounds: seq<seq<Move>>)
    requires Drained(w, t) && AreRounds(w, t, rounds)
    ensures Drained(RunRounds(w, t.name, rounds), t)
  {
  }

  /** `t` is a subtree of `root`, seen through its links. */
  ghost predicate Within(t: Tree, root: Tree) {
    Links(t) <= Links(root) && Below(t) <= Below(root) && forall l :: l in Links(root) ==> Fits(t, l)
  }

  lemma {:induction false} WithinKid(t: Tree, root: Tree, i: nat)
    requires Distinct(t) && Within(t, root) && i < |t.kids|
    ensures Within(t.kids[i], root)
  {
    forall l | l in Links(root)
      ensures Fits(t.kids[i], l)
    {
      FitsKid(t, l, i);
    }
    forall n | n in Below(t.kids[i])
      ensures n in Below(t)
    {
      InKid(t, i, n);
    }
  }

  lemma {:induction false} DrainedOk(w: World, root: Tree, t: Tree, full: bool)
    requires Distinct(t) && Within(t, root) && Drained(w, root) && NetOk(w.net, t, full)
    ensures Ok(w, t, full)
    decreases t
  {
    forall i | 0 <= i < |t.kids|
      ensures QueueOk(w, t.kids[i], full) && Ok(w, t.kids[i], full)
    {
      WithinKid(t, root, i);
      InKid(t, i, t.kids[i].name);
      DrainedOk(w, root, t.kids[i], full);
    }
  }

  lemma {:induction false} OkNet(w: World, t: Tree, full: bool)
    requires Ok(w, t, full)
    ensures NetOk(w.net, t, full)
    decreases t
  {
    forall i | 0 <= i < |t.kids|
      ensures NetOk(w.net, t.kids[i], full)
    {
      OkNet(w, t.kids[i], full);
    }
  }

  lemma KidDrained(w: World, root: Tree, t: Tree, i: nat)
    requires Within(t, root) && Drained(w, root) && i < |t.kids|
    ensures Queue(w, t.kids[i].name) == []
  {
    assert t.kids[i].name in Names(t.kids[i]);
    InKid(t, i, t.kids[i].name);
  }

  /** In a round a controller hears from each of its children. */
  lemma {:induction false} RoundIsHeard(w: World, root: Tree, t: Tree, ms: seq<Move>)
    requires Distinct(root) && Distinct(t) && Within(t, root) && Drained(w, root) && IsRound(w, root, ms)
    ensures Kids(t).Keys <= Clients(Heard(w, root.name, t.name, ms))
  {
    KidsKeys(t);
    forall c | c in KidNames(t)
      ensures c in Clients(Heard(w, root.name, t.name, ms))
    {
      var i := KidNamed(t, c);
      KidDrained(w, root, t, i);
      KidDrained(RunMoves(w, root.name, ms), root, t, i);
      InKid(t, i, c);
      assert Link(t.name, c) in Links(t);
      forall m | m in ms && m.Receive? && m.l.child == c
        ensures m.l.parent == t.name
      {
        OneParent(root, m.l, Link(t.name, c));
      }
      SentIsHeard(w, root.name, ms, t.name, c);
    }
  }

  lemma RoundFits(w: World, root: Tree, t: Tree, ms: seq<Move>)
    requires Within(t, root) && IsRound(w, root, ms)
    ensures FitAll(t, ms)
  {
  }

  /** A round over clean children leaves nothing wrong in the table of their parent, and a round
      over exact children fills a table with nothing wrong in it. */
  lemma RoundImproves(w: World, root: Tree, t: Tree, ms: seq<Move>, full: bool)
    requires Distinct(root) && Distinct(t) && Within(t, root) && Drained(w, root) && IsRound(w, root, ms)
    requires Sound(w.net, t) && KidsOk(w, t, full) && (full ==> TableOk(w.net[t.name], t, false))
    ensures Ok(RunMoves(w, root.name, ms), t, full)
  {
    var below, es, table := Kids(t), Heard(w, root.name, t.name, ms), w.net[t.name];
    RoundFits(w, root, t, ms);
    KidsReport(w, root.name, ms, t, full);
    RoundIsHeard(w, root, t, ms);
    TableIsHeard(w, root.name, t.name, ms);
    KidsKeys(t);
    assert Clients(es) == below.Keys;
    RunKeepsSound(table, es, below.Keys);
    RunCleans(table, es, below, {});
    assert {} + Clients(es) == below.Keys;
    if full {
      KidsDisjoint(t);
      RunCovers(table, es, below, {});
    }
  }

  lemma {:induction false} MovesKeepSound(w: World, root: Tree, t: Tree, ms: seq<Move>)
    requires Distinct(t) && Sound(w.net, t) && FitAll(t, ms) && OnlyReports(w, root)
    requires forall m :: m in ms ==> OfTree(root, m)
    ensures Sound(RunMoves(w, root.name, ms).net, t)
    decreases ms
  {
    if ms != [] {
      var m := ms[0];
      assert m in ms;
      if m.Receive? {
        LinkEnds(root, m.l);
      }
      DoKeepsSound(w, root.name, m, t);
      DoKeepsReports(w, root, m);
      MovesKeepSound(Do(w, root.name, m), root, t, ms[1..]);
    }
  }

  /** Only reports are on their way. */
  ghost predicate OnlyReports(w: World, t: Tree) {
    forall c, e :: c in Below(t) && e in Queue(w, c) ==> e.SubtreeReport? && e.client == c
  }

  lemma DoKeepsReports(w: World, root: Tree, m: Move)
    requires OnlyReports(w, root) && OfTree(root, m)
    ensures OnlyReports(Do(w, root.name, m), root)
  {
    if m.Receive? {
      LinkEnds(root, m.l);
    }
    forall c | c in Below(root)
      ensures forall e :: e in Queue(Do(w, root.name, m), c) ==> e.SubtreeReport? && e.client == c
    {
      DoQueue(w, root.name, m, c);
    }
  }

  lemma {:induction false} RoundsKeepSound(w: World, root: Tree, t: Tree, rounds: seq<seq<Move>>)
    requires Distinct(t) && Within(t, root) && Drained(w, root) && AreRounds(w, root, rounds) && Sound(w.net, t)
    ensures Sound(RunRounds(w, root.name, rounds).net, t)
  {
    if rounds != [] {
      var last := |rounds| - 1;
      var w1 := RunRounds(w, root.name, rounds[..last]);
      RoundsKeepSound(w, root, t, rounds[..last]);
      RoundsEndDrained(w, root, rounds[..last]);
      RoundFits(w1, root, t, rounds[last]);
      MovesKeepSound(w1, root, t, rounds[last]);
    }
  }

  // ----- The theorem -----

  lemma LeafOk(net: Net, t: Tree, full: bool)
    requires Sound(net, t) && t.kids == []
    ensures NetOk(net, t, full)
  {
    assert Kids(t) == map[];
  }

  /** The children's subtrees before the last round. */
  lemma KidsBefore(w: World, root: Tree, t: Tree, rounds: seq<seq<Move>>, full: bool)
    requires Distinct(t) && Within(t, root) && Drained(w, root) && AreRounds(w, root, rounds)
    requires forall i :: 0 <= i < |t.kids| ==> NetOk(RunRounds(w, root.name, rounds).net, t.kids[i], full)
    ensures KidsOk(RunRounds(w, root.name, rounds), t, full)
  {
    var w1 := RunRounds(w, root.name, rounds);
    RoundsEndDrained(w, root, rounds);
    forall i | 0 <= i < |t.kids|
      ensures QueueOk(w1, t.kids[i], full) && Ok(w1, t.kids[i], full)
    {
      WithinKid(t, root, i);
      KidDrained(w1, root, t, i);
      DrainedOk(w1, root, t.kids[i], full);
    }
  }

  /** After as many rounds as a subtree is high, none of its tables holds anything wrong. */
  lemma {:induction false} SubtreeCleans(w: World, root: Tree, t: Tree, rounds: seq<seq<Move>>)
    requires Distinct(root) && Distinct(t) && Within(t, root) && Drained(w, root)
    requires AreRounds(w, root, rounds) && Sound(w.net, t) && |rounds| >= Height(t)
    ensures NetOk(RunRounds(w, root.name, rounds).net, t, false)
    decreases t
  {
    RoundsKeepSound(w, root, t, rounds);
    if t.kids == [] {
      LeafOk(RunRounds(w, root.name, rounds).net, t, false);
    } else {
      var early := rounds[..|rounds| - 1];
      forall i | 0 <= i < |t.kids|
        ensures NetOk(RunRounds(w, root.name, early).net, t.kids[i], false)
      {
        WithinKid(t, root, i);
        SubtreeCleans(w, root, t.kids[i], early);
      }
      LastRound(w, root, t, rounds, false);
    }
  }

  lemma LastRound(w: World, root: Tree, t: Tree, rounds: seq<seq<Move>>, full: bool)
    requires Distinct(root) && Distinct(t) && Within(t, root) && Drained(w, root)
    requires AreRounds(w, root, rounds) && rounds != [] && Sound(w.net, t)
    requires var net := RunRounds(w, root.name, rounds[..|rounds| - 1]).net;
             && (forall i :: 0 <= i < |t.kids| ==> NetOk(net, t.kids[i], full))
             && (full ==> NetOk(net, t, false))
    ensures NetOk(RunRounds(w, root.name, rounds).net, t, full)
  {
    var last := |rounds| - 1;
    var w1 := RunRounds(w, root.name, rounds[..last]);
    RoundsKeepSound(w, root, t, rounds[..last]);
    RoundsEndDrained(w, root, rounds[..last]);
    KidsBefore(w, root, t, rounds[..last], full);
    RoundImproves(w1, root, t, rounds[last], full);
    OkNet(RunRounds(w, root.name, rounds), t, full);
  }

  /** Rounds after which a subtree is exact. */
  ghost function RoundsFor(t: Tree): nat {
    if Height(t) <= 1 then Height(t) else Height(t) + 1
  }

  lemma {:induction false} SubtreeConverges(w: World, root: Tree, t: Tree, rounds: seq<seq<Move>>)
    requires Distinct(root) && Distinct(t) && Within(t, root) && Drained(w, root)
    requires AreRounds(w, root, rounds) && Sound(w.net, t) && |rounds| >= RoundsFor(t)
    ensures NetOk(RunRounds(w, root.name, rounds).net, t, true)
    decreases t
  {
    RoundsKeepSound(w, root, t, rounds);
    if t.kids == [] {
      LeafOk(RunRounds(w, root.name, rounds).net, t, true);
    } else {
      var early := rounds[..|rounds| - 1];
      forall i | 0 <= i < |t.kids|
        ensures NetOk(RunRounds(w, root.name, early).net, t.kids[i], true)
      {
        WithinKid(t, root, i);
        SubtreeConverges(w, root, t.kids[i], early);
      }
      if Height(t) == 1 {
        SubtreeCleans(w, root, t, rounds);
        FlatIsFull(RunRounds(w, root.name, rounds).net, t);
      } else {
        SubtreeCleans(w, root, t, early);
        LastRound(w, root, t, rounds, true);
      }
    }
  }

  lemma {:induction false} FlatIsFull(net: Net, t: Tree)
    requires Distinct(t) && Height(t) == 1 && NetOk(net, t, false)
    ensures NetOk(net, t, true)
  {
    ChildlessKids(t);
    forall i | 0 <= i < |t.kids|
      ensures NetOk(net, t.kids[i], true)
    {
      assert Height(t.kids[i]) == 0;
      assert Kids(t.kids[i]) == map[];
    }
  }

  /** The theorem: in a tree of height h with distinct names whose ports are current children
      with self-routes, h + 1 rounds make every table exact, whatever else was in them, and one
      round does if no child of the root has children. */
  lemma {:induction false} TreeConverges(w: World, t: Tree, rounds: seq<seq<Move>>)
    requires Distinct(t) && Sound(w.net, t) && Drained(w, t)
    requires AreRounds(w, t, rounds) && |rounds| >= RoundsFor(t)
    ensures AllExact(RunRounds(w, t.name, rounds).net, t)
  {
    SubtreeConverges(w, t, t, rounds);
    FullNetIsExact(RunRounds(w, t.name, rounds).net, t);
  }

  // ----- Exact tables -----

  lemma ExactBehind(table: Table, t: Tree, k: Name)
    requires Distinct(t) && TableExact(table, t) && k in table
    ensures table[k] in Kids(t) && (k == table[k] || k in Kids(t)[table[k]])
  {
    var i := KidOf(t, k);
    KidsAt(t, i);
  }

  lemma ExactKid(table: Table, t: Tree, c: Name)
    requires Distinct(t) && TableExact(table, t) && c in Kids(t)
    ensures c in table && table[c] == c
    ensures forall k :: k in Kids(t)[c] ==> k in table && table[k] == c
  {
    KidsKeys(t);
    var i := KidNamed(t, c);
    KidsAt(t, i);
  }

  lemma ExactIsFull(table: Table, t: Tree)
    requires Distinct(t) && TableExact(table, t)
    ensures TableOk(table, t, true)
  {
    var below := Kids(t);
    forall k | k in table
      ensures table[k] in below && (k == table[k] || k in below[table[k]])
    {
      ExactBehind(table, t, k);
    }
    forall c | c in below
      ensures c in table && table[c] == c
    {
      ExactKid(table, t, c);
    }
    forall c, k | c in below && k in below[c]
      ensures k in table && table[k] == c
    {
      ExactKid(table, t, c);
    }
  }

  lemma {:induction false} ExactNetIsFull(net: Net, t: Tree)
    requires Distinct(t) && AllExact(net, t)
    ensures NetOk(net, t, true)
  {
    ExactIsFull(net[t.name], t);
    forall i | 0 <= i < |t.kids|
      ensures NetOk(net, t.kids[i], true)
    {
      ExactNetIsFull(net, t.kids[i]);
    }
  }

  /** Exact tables stay exact whatever is reported, at every moment and not only after rounds. */
  lemma {:induction false} ExactTablesStay(w: World, t: Tree, ms: seq<Move>)
    requires Distinct(t) && AllExact(w.net, t) && Drained(w, t)
    requires forall m :: m in ms ==> OfTree(t, m)
    ensures AllExact(RunMoves(w, t.name, ms).net, t)
  {
    ExactNetIsFull(w.net, t);
    DrainedOk(w, t, t, true);
    MovesKeepOk(w, t.name, ms, t, true);
    OkNet(RunMoves(w, t.name, ms), t, true);
    FullNetIsExact(RunMoves(w, t.name, ms).net, t);
  }

  lemma {:induction false} MovesKeepOk(w: World, root: Name, ms: seq<Move>, t: Tree, full: bool)
    requires Distinct(t) && Ok(w, t, full) && FitAll(t, ms)
    ensures Ok(RunMoves(w, root, ms), t, full)
    decreases ms
  {
    if ms != [] {
      assert ms[0] in ms;
      OkStays(w, root, ms[0], t, full);
      MovesKeepOk(Do(w, root, ms[0]), root, ms[1..], t, full);
    }
  }

  // ----- Following next hops -----

  /** Where a message for `to` is after `n` hops from `at`, if every hop has a route. */
  function Follow(net: Net, at: Name, to: Name, n: nat): Option<Name>
    decreases n
  {
    if n == 0 then Some(at)
    else if at in net && to in net[at] then Follow(net, net[at][to], to, n - 1)
    else None
  }

  /** How far below the root of `t` a cluster is. */
  ghost function Depth(t: Tree, d: Name): nat
    requires d in Names(t)
    decreases t
  {
    if d == t.name then 0
    else
      assert d in Below(t);
      NamesOfHas(t.kids, d);
      var i :| 0 <= i < |t.kids| && d in Names(t.kids[i]);
      1 + Depth(t.kids[i], d)
  }

  lemma DepthInKid(t: Tree, d: Name) returns (i: nat)
    requires d in Names(t) && d != t.name
    ensures i < |t.kids| && d in Names(t.kids[i]) && Depth(t, d) == 1 + Depth(t.kids[i], d)
  {
    assert d in Below(t);
    NamesOfHas(t.kids, d);
    i :| 0 <= i < |t.kids| && d in Names(t.kids[i]) && Depth(t, d) == 1 + Depth(t.kids[i], d);
  }

  /** With exact tables, next hops lead to every cluster of the subtree in exactly as many hops
      as it is deep, and not earlier. */
  lemma {:induction false} NextHopsReach(net: Net, t: Tree, d: Name, n: nat)
    requires AllExact(net, t) && d in Names(t) && n <= Depth(t, d)
    ensures Follow(net, t.name, d, n).Some?
    ensures Follow(net, t.name, d, n).value == d <==> n == Depth(t, d)
    decreases t
  {
    if d != t.name {
      var i := DepthInKid(t, d);
      if n > 0 {
        NextHopsReach(net, t.kids[i], d, n - 1);
      }
    }
  }

  // ----- The self-route hypothesis is needed -----

  ghost predicate HasSelfRoute(net: Net, l: Link) {
    SelfRouted(TableOf(net, l.parent), {l.child})
  }

  /** The port half of `Sound`. */
  ghost predicate PortsSound(net: Net, t: Tree) {
    && t.name in net && PortsCurrent(net[t.name], KidNames(t))
    && forall i :: 0 <= i < |t.kids| ==> PortsSound(net, t.kids[i])
  }

  /** No table, and no report on its way, names its own cluster or one above it. */
  ghost predicate Downward(w: World, t: Tree, above: set<Name>)
    decreases t
  {
    && t.name in w.net && w.net[t.name].Keys !! above + {t.name}
    && DownwardQueue(w, t.name, above + {t.name})
    && forall i :: 0 <= i < |t.kids| ==> Downward(w, t.kids[i], above + {t.name})
  }

  ghost predicate DownwardQueue(w: World, c: Name, above: set<Name>) {
    forall e :: e in Queue(w, c) ==> e.SubtreeReport? && e.client == c && e.names !! above
  }

  lemma {:induction false} SelfRoutedIsSound(net: Net, t: Tree)
    requires PortsSound(net, t) && forall l :: l in Links(t) ==> HasSelfRoute(net, l)
    ensures Sound(net, t)
  {
    forall c | c in KidNames(t)
      ensures SelfRouted(net[t.name], {c})
    {
      assert Link(t.name, c) in Links(t);
    }
    assert forall c :: c in KidNames(t) ==> c in {c};
    forall i | 0 <= i < |t.kids|
      ensures Sound(net, t.kids[i])
    {
      SelfRoutedIsSound(net, t.kids[i]);
    }
  }

  lemma {:induction false} ExactHasSelfRoutes(net: Net, t: Tree, l: Link)
    requires AllExact(net, t) && l in Links(t)
    ensures HasSelfRoute(net, l)
  {
    if i :| 0 <= i < |t.kids| && l in Links(t.kids[i]) {
      ExactHasSelfRoutes(net, t.kids[i], l);
    } else {
      var i :| 0 <= i < |t.kids| && l == Link(t.name, t.kids[i].name);
      assert l.child in Names(t.kids[i]);
    }
  }

  /** What a downward controller is about to handle. */
  lemma DownwardHead(w: World, t: Tree, above: set<Name>, m: Move)
    requires Distinct(t) && Downward(w, t, above) && FitsMove(t, m) && Handles(w, m, t.name)
    ensures var e := Queue(w, m.l.child)[0];
            e.SubtreeReport? && e.client == m.l.child && e.names !! above + {t.name, m.l.child}
  {
    RootLinks(t, m.l);
    var i := KidNamed(t, m.l.child);
    assert Downward(w, t.kids[i], above + {t.name});
    assert above + {t.name} + {m.l.child} == above + {t.name, m.l.child};
  }

  lemma {:induction false} DoKeepsDownward(w: World, root: Name, m: Move, t: Tree, above: set<Name>)
    requires Distinct(t) && Downward(w, t, above) && FitsMove(t, m)
    ensures Downward(Do(w, root, m), t, above)
    decreases t
  {
    DoTable(w, root, m, t.name);
    DoQueue(w, root, m, t.name);
    if Handles(w, m, t.name) {
      DownwardHead(w, t, above, m);
    }
    forall i | 0 <= i < |t.kids|
      ensures Downward(Do(w, root, m), t.kids[i], above + {t.name})
    {
      if m.Receive? {
        FitsKid(t, m.l, i);
      }
      DoKeepsDownward(w, root, m, t.kids[i], above + {t.name});
    }
  }

  lemma {:induction false} ReportsLeaveOut(w: World, t: Tree, above: set<Name>, l: Link)
    requires Downward(w, t, above) && l in Links(t)
    ensures forall e :: e in Queue(w, l.child) ==> e.SubtreeReport? && e.client == l.child && l.child !in e.names
    decreases t
  {
    if i :| 0 <= i < |t.kids| && l in Links(t.kids[i]) {
      ReportsLeaveOut(w, t.kids[i], above + {t.name}, l);
    } else {
      var i :| 0 <= i < |t.kids| && l == Link(t.name, t.kids[i].name);
      assert Downward(w, t.kids[i], above + {t.name});
    }
  }

  lemma MoveKeepsUnrouted(w: World, t: Tree, m: Move, l: Link)
    requires Distinct(t) && Downward(w, t, {}) && OfTree(t, m) && !HasSelfRoute(w.net, l)
    ensures !HasSelfRoute(Do(w, t.name, m).net, l)
  {
    DoTable(w, t.name, m, l.parent);
    if Handles(w, m, l.parent) {
      ReportsLeaveOut(w, t, {}, m.l);
      var e := Queue(w, m.l.child)[0];
      assert e in Queue(w, m.l.child);
    }
  }

  /** A child refused its self-route stays without it. */
  lemma {:induction false} MovesKeepUnrouted(w: World, t: Tree, ms: seq<Move>, l: Link)
    requires Distinct(t) && Downward(w, t, {}) && (forall m :: m in ms ==> OfTree(t, m))
    requires l in Links(t) && !HasSelfRoute(w.net, l)
    ensures Downward(RunMoves(w, t.name, ms), t, {}) && !HasSelfRoute(RunMoves(w, t.name, ms).net, l)
    decreases ms
  {
    if ms != [] {
      var m := ms[0];
      assert m in ms;
      DoKeepsDownward(w, t.name, m, t, {});
      MoveKeepsUnrouted(w, t, m, l);
      MovesKeepUnrouted(Do(w, t.name, m), t, ms[1..], l);
    }
  }

  lemma {:induction false} RoundsKeepUnrouted(w: World, t: Tree, rounds: seq<seq<Move>>, l: Link)
    requires Distinct(t) && Downward(w, t, {}) && AreRounds(w, t, rounds)
    requires l in Links(t) && !HasSelfRoute(w.net, l)
    ensures Downward(RunRounds(w, t.name, rounds), t, {}) && !HasSelfRoute(RunRounds(w, t.name, rounds).net, l)
  {
    if rounds != [] {
      var last := |rounds| - 1;
      RoundsKeepUnrouted(w, t, rounds[..last], l);
      MovesKeepUnrouted(RunRounds(w, t.name, rounds[..last]), t, rounds[last], l);
    }
  }

  /** When no table names its own cluster or one above it, the rounds give exact tables if and
      only if every child had its self-route to begin with. */
  lemma {:induction false} ConvergesIffSelfRouted(w: World, t: Tree, rounds: seq<seq<Move>>)
    requires Distinct(t) && Drained(w, t) && PortsSound(w.net, t) && Downward(w, t, {})
    requires AreRounds(w, t, rounds) && |rounds| >= RoundsFor(t)
    ensures AllExact(RunRounds(w, t.name, rounds).net, t) <==> forall l :: l in Links(t) ==> HasSelfRoute(w.net, l)
  {
    if forall l :: l in Links(t) ==> HasSelfRoute(w.net, l) {
      SelfRoutedIsSound(w.net, t);
      TreeConverges(w, t, rounds);
    } else {
      var l :| l in Links(t) && !HasSelfRoute(w.net, l);
      RoundsKeepUnrouted(w, t, rounds, l);
      if AllExact(RunRounds(w, t.name, rounds).net, t) {
        ExactHasSelfRoutes(RunRounds(w, t.name, rounds).net, t, l);
      }
    }
  }

  /** A root with children `a` and `c`, where the route to `c` still leads through `a`. */
  function Refused(r: Name, a: Name, c: Name): (Tree, World) {
    (Tree(r, [Tree(a, []), Tree(c, [])]), World(map[r := map[a := a, c := a], a := map[], c := map[]], map[]))
  }

  lemma RefusedShape(r: Name, a: Name, c: Name)
    requires r != a && r != c && a != c
    ensures var (t, _) := Refused(r, a, c);
            Distinct(t) && KidNames(t) == {a, c} && Link(r, c) in Links(t)
  {
    var (t, _) := Refused(r, a, c);
    LeafNames(t.kids[0]);
    LeafNames(t.kids[1]);
    BelowTwo(t.kids[0], t.kids[1]);
  }

  lemma BelowTwo(s: Tree, s': Tree)
    ensures NamesOf([s, s']) == Names(s) + Names(s')
  {
    var both, one := [s, s'], [s'];
    assert both[1..] == one && one[1..] == [];
    assert NamesOf(one) == Names(s') + NamesOf([]);
  }

  lemma LeafDownward(w: World, t: Tree, above: set<Name>)
    requires t.kids == [] && t.name in w.net && w.net[t.name] == map[] && w.up == map[]
    ensures Downward(w, t, above)
  {
  }

  /** There no number of rounds helps. */
  lemma RefusedNeverConverges(r: Name, a: Name, c: Name, rounds: seq<seq<Move>>)
    requires r != a && r != c && a != c
    requires var (t, w) := Refused(r, a, c); AreRounds(w, t, rounds)
    ensures var (t, w) := Refused(r, a, c); !AllExact(RunRounds(w, r, rounds).net, t)
  {
    var (t, w) := Refused(r, a, c);
    RefusedShape(r, a, c);
    LeafDownward(w, t.kids[0], {} + {r});
    LeafDownward(w, t.kids[1], {} + {r});
    RoundsKeepUnrouted(w, t, rounds, Link(r, c));
    if AllExact(RunRounds(w, r, rounds).net, t) {
      ExactHasSelfRoutes(RunRounds(w, r, rounds).net, t, Link(r, c));
    }
  }
}
