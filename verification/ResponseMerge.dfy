/** Control responses merged into the requests held by the API server: per cluster, the response
    with the newest timestamp is kept. */
module ResponseMerge {

  datatype Status = Status(timestamp: int, code: int, body: string)

  type StatusMap = map<string, Status>

  /** Whether a new status replaces what is stored. */
  predicate Newer(m: StatusMap, c: string, s: Status) {
    c !in m || m[c].timestamp < s.timestamp
  }

  function Merged(m: StatusMap, update: StatusMap): StatusMap {
    m + map c | c in update && Newer(m, c, update[c]) :: update[c]
  }

  lemma MergedStep(m: StatusMap, u: StatusMap, c: string, s: Status)
    requires c !in u
    ensures Merged(m, u[c := s]) == if Newer(m, c, s) then Merged(m, u)[c := s] else Merged(m, u)
  {
  }

  function MergeAll(m: StatusMap, updates: seq<StatusMap>): StatusMap {
    if updates == [] then m
    else Merged(MergeAll(m, updates[..|updates| - 1]), updates[|updates| - 1])
  }

  /** The stored requests by name, with their status maps; a nil map reads as empty. */
  class ControllerRequests {
    var requests: map<string, StatusMap>

    /** mergeToApiserver: each entry is compared with the status as it was read; a response to a
        request that does not exist is ignored. */
    method MergeToApiserver(name: string, update: StatusMap)
      modifies this
      ensures requests == if name in old(requests)
                          then old(requests)[name := Merged(old(requests)[name], update)] else old(requests)
    {
      if name in requests {
        var origin := requests[name];
        var latest := origin;
        var rest := update.Keys;
        ghost var seen: StatusMap := map[];
        while rest != {}
          invariant rest <= update.Keys
          invariant seen.Keys == update.Keys - rest && forall c :: c in seen ==> seen[c] == update[c]
          invariant latest == Merged(origin, seen) && requests == old(requests)
          decreases rest
        {
          var cn :| cn in rest;
          rest := rest - {cn};
          if cn !in origin {
            latest := latest[cn := update[cn]];
          } else if origin[cn].timestamp < update[cn].timestamp {
            latest := latest[cn := update[cn]];
          }
          MergedStep(origin, seen, cn, update[cn]);
          seen := seen[cn := update[cn]];
        }
        assert seen == update;
        requests := requests[name := latest];
      }
    }
  }

  // ----- Any sequence of responses -----

  /** What has arrived for a cluster, the stored status first. */
  function Arrivals(m: StatusMap, updates: seq<StatusMap>, c: string): seq<Status> {
    if updates == [] then
      if c in m then [m[c]] else []
    else
      var n := |updates| - 1;
      Arrivals(m, updates[..n], c) + if c in updates[n] then [updates[n][c]] else []
  }

  /** The newest entry, and of those the one that came first. */
  ghost predicate Wins(ss: seq<Status>, s: Status) {
    exists i :: 0 <= i < |ss| && ss[i] == s
                && (forall j :: 0 <= j < |ss| ==> ss[j].timestamp <= s.timestamp)
                && (forall j :: 0 <= j < i ==> ss[j].timestamp < s.timestamp)
  }

  lemma WinsAppend(ss: seq<Status>, w: Status, s: Status)
    requires Wins(ss, w)
    ensures Wins(ss + [s], if w.timestamp < s.timestamp then s else w)
  {
    var i :| 0 <= i < |ss| && ss[i] == w
             && (forall j :: 0 <= j < |ss| ==> ss[j].timestamp <= w.timestamp)
             && (forall j :: 0 <= j < i ==> ss[j].timestamp < w.timestamp);
    var t := ss + [s];
    assert t[i] == w && t[|ss|] == s;
    assert forall j :: 0 <= j < |ss| ==> t[j] == ss[j];
  }

  lemma WinsAlone(s: Status)
    ensures Wins([s], s)
  {
    assert [s][0] == s;
  }

  lemma MergedAt(m: StatusMap, u: StatusMap, c: string)
    ensures c in Merged(m, u) <==> c in m || c in u
    ensures c in Merged(m, u) ==> Merged(m, u)[c] == if c in u && Newer(m, c, u[c]) then u[c] else m[c]
  {
  }

  /** After any sequence of responses every cluster that ever answered has its newest answer, the
      first to arrive among equals, and no cluster is dropped. */
  lemma {:induction false} NewestWins(m: StatusMap, updates: seq<StatusMap>, c: string)
    ensures c in MergeAll(m, updates) <==> Arrivals(m, updates, c) != []
    ensures c in MergeAll(m, updates) ==> Wins(Arrivals(m, updates, c), MergeAll(m, updates)[c])
  {
    if updates == [] {
      if c in m {
        WinsAlone(m[c]);
      }
    } else {
      var n := |updates| - 1;
      var before, ss := MergeAll(m, updates[..n]), Arrivals(m, updates[..n], c);
      NewestWins(m, updates[..n], c);
      MergedAt(before, updates[n], c);
      if c !in updates[n] {
        assert Arrivals(m, updates, c) == ss;
      } else if c in before {
        WinsAppend(ss, before[c], updates[n][c]);
      } else {
        WinsAlone(updates[n][c]);
        assert Arrivals(m, updates, c) == [updates[n][c]];
      }
    }
  }

  lemma {:induction false} ArrivalsElems(m: StatusMap, updates: seq<StatusMap>, c: string, s: Status)
    ensures s in Arrivals(m, updates, c) <==> (c in m && m[c] == s) || exists u :: u in updates && c in u && u[c] == s
  {
    if updates != [] {
      var n := |updates| - 1;
      ArrivalsElems(m, updates[..n], c, s);
      assert updates == updates[..n] + [updates[n]];
    }
  }

  /** Different answers of one cluster, the stored one included, have different timestamps. */
  ghost predicate DistinctTimes(m: StatusMap, updates: seq<StatusMap>) {
    forall c, s, s' :: s in Arrivals(m, updates, c) && s' in Arrivals(m, updates, c) && s.timestamp == s'.timestamp ==>
                         s == s'
  }

  /** If the timestamps of each cluster are distinct, the result depends neither on the order in
      which the responses arrive nor on how often each one does. */
  lemma OrderDoesNotMatter(m: StatusMap, updates: seq<StatusMap>, updates': seq<StatusMap>)
    requires DistinctTimes(m, updates) && forall u :: u in updates <==> u in updates'
    ensures MergeAll(m, updates) == MergeAll(m, updates')
  {
    var a, b := MergeAll(m, updates), MergeAll(m, updates');
    forall c
      ensures c in a <==> c in b
      ensures c in a && c in b ==> a[c] == b[c]
    {
      NewestWins(m, updates, c);
      NewestWins(m, updates', c);
      var ss, ss' := Arrivals(m, updates, c), Arrivals(m, updates', c);
      forall s
        ensures s in ss <==> s in ss'
      {
        ArrivalsElems(m, updates, c, s);
        ArrivalsElems(m, updates', c, s);
      }
      if ss != [] {
        assert ss[0] in ss';
      }
      if ss' != [] {
        assert ss'[0] in ss;
      }
      if c in a && c in b {
        SameNewest(ss, ss', a[c], b[c]);
      }
    }
  }

  lemma SameNewest(ss: seq<Status>, ss': seq<Status>, w: Status, w': Status)
    requires Wins(ss, w) && Wins(ss', w')
    requires forall s :: s in ss <==> s in ss'
    ensures w in ss && w' in ss && w.timestamp == w'.timestamp
  {
    assert w in ss' && w' in ss;
  }

  /** With equal timestamps the order does matter: whichever came first stays. */
  lemma FirstOfEqualsStays(c: string, s: Status, s': Status)
    requires s.timestamp == s'.timestamp && s != s'
    ensures MergeAll(map[], [map[c := s], map[c := s']]) != MergeAll(map[], [map[c := s'], map[c := s]])
  {
    OneAnswerStays(c, s, s');
    OneAnswerStays(c, s', s);
    assert map[c := s][c] != map[c := s'][c];
  }

  lemma OneAnswerStays(c: string, s: Status, s': Status)
    requires s.timestamp == s'.timestamp
    ensures MergeAll(map[], [map[c := s], map[c := s']]) == map[c := s]
  {
    var us: seq<StatusMap> := [map[c := s], map[c := s']];
    assert us[..1] == [us[0]] && us[..1][..0] == [];
    assert MergeAll(map[], us[..1]) == map[c := s];
  }
}
