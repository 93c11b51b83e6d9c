/** Failover of an edge tunnel: the blacklist of parents that failed, and the choice of the next
    parent. Time is a number of seconds passed in by the caller; map iteration order is open. */
module BlackList {

  import opened Collections
  import opened Options

  type Addr = string

  const BLACKLIST_SECONDS: int := 10

  /** One failed parent and when it was listed. */
  datatype Entry = Entry(addr: Addr, since: int)

  function Addrs(es: seq<Entry>): seq<Addr> {
    if es == [] then [] else [es[0].addr] + Addrs(es[1..])
  }

  /** The blacklist as one sequence of entries, oldest first. */
  predicate Listed(es: seq<Entry>, a: Addr) {
    exists e :: e in es && e.addr == a
  }

  predicate InTime(es: seq<Entry>) {
    forall i, j :: 0 <= i < j < |es| ==> es[i].since <= es[j].since
  }

  predicate Wf(es: seq<Entry>) {
    && InTime(es)
    && (forall i, j :: 0 <= i < j < |es| ==> es[i].addr != es[j].addr)
  }

  function Pushed(es: seq<Entry>, a: Addr, now: int): seq<Entry> {
    if Listed(es, a) then es else es + [Entry(a, now)]
  }

  /** The front entry has been listed for longer than the limit. */
  predicate Ripe(es: seq<Entry>, now: int) {
    es != [] && now - es[0].since > BLACKLIST_SECONDS
  }

  /** The list and the map hold the same addresses, each once in the list. */
  ghost predicate Matching(l: seq<Addr>, m: map<Addr, int>) {
    NoDuplicates(l) && forall a :: a in m <==> a in l
  }

  ghost function EntriesOf(l: seq<Addr>, m: map<Addr, int>): (es: seq<Entry>)
    requires Matching(l, m)
    ensures |es| == |l| && forall i :: 0 <= i < |es| ==> l[i] in l && es[i] == Entry(l[i], m[l[i]])
  {
    seq(|l|, i requires 0 <= i < |l| && Matching(l, m) => assert l[i] in l; Entry(l[i], m[l[i]]))
  }

  lemma ListedIff(l: seq<Addr>, m: map<Addr, int>, a: Addr)
    requires Matching(l, m)
    ensures Listed(EntriesOf(l, m), a) <==> a in m
  {
    var es := EntriesOf(l, m);
    if a in l {
      var i :| 0 <= i < |l| && l[i] == a;
      assert es[i] in es;
    }
  }

  lemma PushEntries(l: seq<Addr>, m: map<Addr, int>, a: Addr, now: int)
    requires Matching(l, m) && a !in m
    ensures Matching(l + [a], m[a := now]) && EntriesOf(l + [a], m[a := now]) == EntriesOf(l, m) + [Entry(a, now)]
  {
  }

  lemma PopEntries(l: seq<Addr>, m: map<Addr, int>)
    requires Matching(l, m) && l != []
    ensures Matching(l[1..], m - {l[0]}) && EntriesOf(l[1..], m - {l[0]}) == EntriesOf(l, m)[1..]
  {
    assert l == [l[0]] + l[1..];
    assert Matching(l[1..], m - {l[0]});
  }

  class CloudBlackList {
    var addrList: seq<Addr>
    var addrMap: map<Addr, int>

    ghost predicate Valid()
      reads this
    {
      Matching(addrList, addrMap)
    }

    ghost function Entries(): seq<Entry>
      requires Valid()
      reads this
    {
      EntriesOf(addrList, addrMap)
    }

    constructor ()
      ensures Valid() && Entries() == []
    {
      addrList, addrMap := [], map[];
    }

    method Push(addr: Addr, now: int)
      requires Valid()
      modifies this
      ensures Valid() && Entries() == Pushed(old(Entries()), addr, now)
      ensures old(addr in addrMap) ==> Entries() == old(Entries())
      ensures old(addr !in addrMap) ==> Entries() == old(Entries()) + [Entry(addr, now)]
    {
      ListedIff(addrList, addrMap, addr);
      if addr in addrMap {
        return;
      }
      PushEntries(addrList, addrMap, addr, now);
      addrList := addrList + [addr];
      addrMap := addrMap[addr := now];
    }

    /** The oldest address, if it has been listed for longer than the limit. */
    method Pop(now: int) returns (addr: Addr)
      requires Valid()
      modifies this
      ensures Valid()
      ensures if old(Entries()) != [] && now - old(Entries())[0].since > BLACKLIST_SECONDS
              then addr == old(Entries())[0].addr && Entries() == old(Entries())[1..]
              else addr == "" && Entries() == old(Entries())
    {
      if |addrList| == 0 {
        return "";
      }
      var first := addrList[0];
      assert first in addrList;
      if now - addrMap[first] <= BLACKLIST_SECONDS {
        return "";
      }
      PopEntries(addrList, addrMap);
      addrList := addrList[1..];
      addrMap := addrMap - {first};
      addr := first;
    }

    predicate Find(key: Addr)
      reads this
    {
      key in addrMap
    }

    method Clear()
      requires Valid()
      modifies this
      ensures Valid() && Entries() == []
    {
      addrList, addrMap := [], map[];
    }
  }

  // ----- Choosing the next parent -----

  type Neighbours = map<string, Addr>

  /** `pick` is what the search for a neighbour outside the blacklist can end with. */
  predicate Picks(es: seq<Entry>, neighbours: Neighbours, pick: Addr) {
    || (pick in neighbours.Values && !Listed(es, pick))
    || (pick == "" && forall a :: a in neighbours.Values ==> Listed(es, a))
  }

  /** The same after the current parent failed. */
  predicate CanPick(es: seq<Entry>, cloud: Addr, neighbours: Neighbours, now: int, pick: Addr) {
    Picks(Pushed(es, cloud, now), neighbours, pick)
  }

  lemma CanPickListed(l: seq<Addr>, m: map<Addr, int>, neighbours: Neighbours, pick: Addr)
    requires Matching(l, m)
    requires || (pick in neighbours.Values && pick !in m)
             || (pick == "" && forall a :: a in neighbours.Values ==> a in m)
    ensures Picks(EntriesOf(l, m), neighbours, pick)
  {
    forall a
      ensures Listed(EntriesOf(l, m), a) <==> a in m
    {
      ListedIff(l, m, a);
    }
  }

  /** The new parent, or none, and the new blacklist. */
  function Chosen(es: seq<Entry>, cloud: Addr, now: int, pick: Addr): (Option<Addr>, seq<Entry>) {
    var es1 := Pushed(es, cloud, now);
    if pick != "" then (Some(pick), es1)
    else if Ripe(es1, now) then (if es1[0].addr == "" then None else Some(es1[0].addr), es1[1..])
    else (None, es1)
  }

  class EdgeTunnel {
    var cloudAddr: Addr
    var originCloudAddr: Addr
    const black: CloudBlackList

    constructor (parent: Addr)
      ensures cloudAddr == parent && originCloudAddr == "" && fresh(black) && black.Valid() && black.Entries() == []
    {
      cloudAddr, originCloudAddr := parent, "";
      black := new CloudBlackList();
    }

    /** The loop over the parent neighbours: the first one not blacklisted, or the empty string. */
    method FirstUnlisted(neighbours: Neighbours) returns (choose: Addr)
      ensures || (choose in neighbours.Values && choose !in black.addrMap)
              || (choose == "" && forall a :: a in neighbours.Values ==> a in black.addrMap)
    {
      var rest := neighbours.Keys;
      while rest != {}
        invariant rest <= neighbours.Keys
        invariant forall n :: n in neighbours && n !in rest ==> neighbours[n] in black.addrMap
        decreases rest
      {
        var name :| name in rest;
        rest := rest - {name};
        if !black.Find(neighbours[name]) {
          return neighbours[name];
        }
      }
      choose := "";
    }

    method ChooseParentNeighbor(neighbours: Neighbours, now: int) returns (switched: bool, ghost pick: Addr)
      requires black.Valid()
      modifies this`cloudAddr, black
      ensures black.Valid()
      ensures CanPick(old(black.Entries()), old(cloudAddr), neighbours, now, pick)
      ensures var (next, es) := Chosen(old(black.Entries()), old(cloudAddr), now, pick);
              && black.Entries() == es && switched == next.Some?
              && cloudAddr == if next.Some? then next.value else old(cloudAddr)
    {
      black.Push(cloudAddr, now);
      var choose := FirstUnlisted(neighbours);
      pick := choose;
      CanPickListed(black.addrList, black.addrMap, neighbours, pick);
      if choose == "" {
        choose := black.Pop(now);
      }
      if choose == "" {
        return false, pick;
      }
      cloudAddr := choose;
      switched := true;
    }

    /** A failed connection attempt: a redirected tunnel first goes back to its own parent. */
    method OnFailure(neighbours: Neighbours, now: int) returns (ghost pick: Option<Addr>)
      requires black.Valid()
      modifies this, black
      ensures black.Valid() && originCloudAddr == ""
      ensures old(originCloudAddr) != "" ==>
                pick == None && cloudAddr == old(originCloudAddr) && black.Entries() == old(black.Entries())
      ensures old(originCloudAddr) == "" ==>
                && pick.Some? && CanPick(old(black.Entries()), old(cloudAddr), neighbours, now, pick.value)
                && var (next, es) := Chosen(old(black.Entries()), old(cloudAddr), now, pick.value);
                black.Entries() == es && cloudAddr == if next.Some? then next.value else old(cloudAddr)
    {
      if originCloudAddr != "" {
        cloudAddr := originCloudAddr;
        originCloudAddr := "";
        return None;
      }
      var _, p := ChooseParentNeighbor(neighbours, now);
      pick := Some(p);
    }
  }

  // ----- Runs -----

  /** The tunnel with, since the last successful connection, the addresses listed and the
      addresses taken off the list again; `clock` is the time of the last attempt. */
  datatype State = State(
    cloud: Addr, origin: Addr, es: seq<Entry>, pushed: seq<Addr>, popped: seq<Addr>, clock: int)

  datatype Step =
    | Redirect(host: Addr)
    | Fail(neighbours: Neighbours, now: int, pick: Addr)
    | Connected

  predicate Enabled(s: State, step: Step) {
    match step
    case Redirect(_) => true
    case Fail(neighbours, now, pick) =>
      s.clock <= now && (s.origin == "" ==> CanPick(s.es, s.cloud, neighbours, now, pick))
    case Connected => true
  }

  /** Whether the step takes an address off the blacklist to retry it. */
  predicate Retries(s: State, step: Step) {
    step.Fail? && s.origin == "" && step.pick == "" && Ripe(Pushed(s.es, s.cloud, step.now), step.now)
  }

  function Next(s: State, step: Step): State {
    match step
    case Redirect(host) => s.(origin := s.cloud, cloud := host)
    case Fail(_, now, pick) =>
      if s.origin != "" then s.(cloud := s.origin, origin := "", clock := now)
      else
        var (next, es) := Chosen(s.es, s.cloud, now, pick);
        State(if next.Some? then next.value else s.cloud, "", es,
              if Listed(s.es, s.cloud) then s.pushed else s.pushed + [s.cloud],
              if Retries(s, step) then s.popped + [Pushed(s.es, s.cloud, now)[0].addr] else s.popped,
              now)
    case Connected => s.(es := [], pushed := [], popped := [])
  }

  /** The list is in order of time without duplicates, nothing in it is from the future, and what
      was taken off it followed by what is on it is what was put on it, in order. */
  predicate Inv(s: State) {
    && Wf(s.es)
    && (forall e :: e in s.es ==> e.since <= s.clock)
    && s.popped + Addrs(s.es) == s.pushed
  }

  lemma {:induction false} AddrsSnoc(es: seq<Entry>, e: Entry)
    ensures Addrs(es + [e]) == Addrs(es) + [e.addr]
  {
    if es != [] {
      AddrsSnoc(es[1..], e);
      assert (es + [e])[1..] == es[1..] + [e];
    }
  }

  lemma SnocKeepsWf(es: seq<Entry>, a: Addr, now: int)
    requires Wf(es) && !Listed(es, a) && forall e :: e in es ==> e.since <= now
    ensures Wf(es + [Entry(a, now)])
  {
    forall i | 0 <= i < |es|
      ensures es[i].since <= now && es[i].addr != a
    {
      assert es[i] in es;
    }
  }

  lemma PushKeepsWf(es: seq<Entry>, a: Addr, now: int)
    requires Wf(es) && forall e :: e in es ==> e.since <= now
    ensures Wf(Pushed(es, a, now)) && Listed(Pushed(es, a, now), a)
    ensures Addrs(Pushed(es, a, now)) == if Listed(es, a) then Addrs(es) else Addrs(es) + [a]
    ensures forall e :: e in Pushed(es, a, now) ==> e.since <= now
  {
    if !Listed(es, a) {
      SnocKeepsWf(es, a, now);
      AddrsSnoc(es, Entry(a, now));
      assert Entry(a, now) in Pushed(es, a, now);
    }
  }

  lemma PopKeepsWf(es: seq<Entry>, popped: seq<Addr>)
    requires Wf(es) && es != []
    ensures Wf(es[1..]) && forall e :: e in es[1..] ==> e in es
    ensures popped + Addrs(es) == (popped + [es[0].addr]) + Addrs(es[1..])
  {
  }

  lemma NextKeepsInv(s: State, step: Step)
    requires Inv(s) && Enabled(s, step)
    ensures Inv(Next(s, step))
  {
    if step.Fail? && s.origin == "" {
      PushKeepsWf(s.es, s.cloud, step.now);
      var es1 := Pushed(s.es, s.cloud, step.now);
      assert s.popped + Addrs(es1) == Next(s, step).pushed by {
        assert s.popped + (Addrs(s.es) + [s.cloud]) == (s.popped + Addrs(s.es)) + [s.cloud];
      }
      if Retries(s, step) {
        PopKeepsWf(es1, s.popped);
      }
    }
  }

  ghost predicate IsRun(ss: seq<State>, steps: seq<Step>) {
    && |ss| == |steps| + 1
    && ss[0].es == [] && ss[0].pushed == [] && ss[0].popped == []
    && forall i :: 0 <= i < |steps| ==> Enabled(ss[i], steps[i]) && ss[i + 1] == Next(ss[i], steps[i])
  }

  /** In every run with a monotone clock the blacklist is duplicate-free and sorted by time, and
      failed parents leave it in the order in which they failed. */
  lemma {:induction false} RunKeepsOrder(ss: seq<State>, steps: seq<Step>, n: nat)
    requires IsRun(ss, steps) && n <= |steps|
    ensures Inv(ss[n]) && ss[n].popped <= ss[n].pushed
  {
    if n > 0 {
      RunKeepsOrder(ss, steps, n - 1);
      NextKeepsInv(ss[n - 1], steps[n - 1]);
    }
  }

  /** The attempt at `i` put the address on the list, and no connection has succeeded since. */
  ghost predicate ListedSince(ss: seq<State>, steps: seq<Step>, e: Entry, i: nat, n: nat)
    requires i < n <= |steps| < |ss|
  {
    && steps[i].Fail? && ss[i].origin == "" && ss[i].cloud == e.addr && steps[i].now == e.since
    && forall j :: i <= j < n ==> steps[j] != Connected
  }

  /** In every run an entry of the blacklist is a parent that failed, at that time and not after a
      redirect, since the last successful connection. */
  lemma {:induction false} EntryFailedSince(ss: seq<State>, steps: seq<Step>, n: nat, e: Entry)
    requires IsRun(ss, steps) && n <= |steps| && e in ss[n].es
    ensures exists i :: 0 <= i < n && ListedSince(ss, steps, e, i, n)
  {
    if n > 0 {
      var m := n - 1;
      if e in ss[m].es {
        EntryFailedSince(ss, steps, m, e);
        var i :| 0 <= i < m && ListedSince(ss, steps, e, i, m);
        assert ListedSince(ss, steps, e, i, n);
      } else {
        assert ListedSince(ss, steps, e, m, n);
      }
    }
  }

  /** A redirected tunnel that fails goes back to where it was redirected from, which is not listed
      for that; its next failure is an ordinary one. */
  lemma RedirectReturns(s: State, host: Addr, f: Step)
    requires f.Fail? && s.cloud != "" && Enabled(Next(s, Redirect(host)), f)
    ensures var s1 := Next(s, Redirect(host));
            s1.cloud == host && Next(s1, f).cloud == s.cloud && Next(s1, f).origin == "" && Next(s1, f).es == s.es
  {
  }

  /** What a failed attempt does in a run: it moves to a neighbour other than the failed parent
      as long as one is not blacklisted; only when all are, it goes to the longest-listed address
      and takes it off the list, and only if that one was listed for longer than the limit; and it
      stays put only if no address at all was. Neighbours announce non-empty addresses. */
  lemma FailoverRules(ss: seq<State>, steps: seq<Step>, n: nat)
    requires IsRun(ss, steps) && n < |steps| && steps[n].Fail? && ss[n].origin == ""
    requires ss[n].cloud != "" && "" !in steps[n].neighbours.Values
    ensures var s, s', f := ss[n], ss[n + 1], steps[n];
            var es1 := Pushed(s.es, s.cloud, f.now);
            && Listed(es1, s.cloud)
            && (f.pick != "" ==>
                  s'.cloud == f.pick && s'.cloud != s.cloud && f.pick in f.neighbours.Values && s'.es == es1)
            && (Retries(s, f) ==>
                  && (forall a :: a in f.neighbours.Values ==> Listed(es1, a))
                  && es1[0].since + BLACKLIST_SECONDS < f.now
                  && (forall e :: e in es1 ==> es1[0].since <= e.since)
                  && s'.popped == s.popped + [es1[0].addr] && s'.es == es1[1..]
                  && s'.cloud == if es1[0].addr != "" then es1[0].addr else s.cloud)
            && (f.pick == "" && !Retries(s, f) ==>
                  s'.cloud == s.cloud && forall e :: e in es1 ==> f.now - e.since <= BLACKLIST_SECONDS)
  {
    RunKeepsOrder(ss, steps, n);
    var s, f := ss[n], steps[n];
    PushKeepsWf(s.es, s.cloud, f.now);
    var es1 := Pushed(s.es, s.cloud, f.now);
    assert es1 != [];
    forall e | e in es1
      ensures es1[0].since <= e.since
    {
      var i :| 0 <= i < |es1| && es1[i] == e;
    }
  }
}
