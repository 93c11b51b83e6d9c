/** The load balancer's server list and its rotation. */
module LoadBalancer {

  import opened Collections
  import opened Options

  type Addr = string

  // ----- The sorted, de-duplicated list -----

  /** Byte order of strings, as used by sort.Strings. */
  predicate Less(a: Addr, b: Addr) {
    if b == "" then false
    else if a == "" then true
    else a[0] < b[0] || (a[0] == b[0] && Less(a[1..], b[1..]))
  }

  lemma {:induction false} LessTotal(a: Addr, b: Addr)
    ensures a == b || Less(a, b) || Less(b, a)
    ensures !(Less(a, b) && Less(b, a)) && !Less(a, a)
  {
    if a != "" && b != "" {
      LessTotal(a[1..], b[1..]);
      assert a == [a[0]] + a[1..] && b == [b[0]] + b[1..];
    }
    if a != "" {
      LessTotal(a[1..], a[1..]);
    }
  }

  lemma {:induction false} LessTransitive(a: Addr, b: Addr, c: Addr)
    requires Less(a, b) && Less(b, c)
    ensures Less(a, c)
  {
    if a != "" && a[0] == b[0] && b[0] == c[0] {
      LessTransitive(a[1..], b[1..], c[1..]);
    }
  }

  predicate Sorted(s: seq<Addr>) {
    forall i, j :: 0 <= i < j < |s| ==> Less(s[i], s[j])
  }

  /** Strictly sorted lists with the same elements are the same list. */
  lemma {:induction false} SortedUnique(s: seq<Addr>, t: seq<Addr>)
    requires Sorted(s) && Sorted(t) && Elems(s) == Elems(t)
    ensures s == t
  {
    assert t != [] ==> t[0] in Elems(t);
    if s != [] {
      assert s[0] in Elems(s);
      SameFirst(s, t);
      forall a
        ensures a in Elems(s[1..]) <==> a in Elems(t[1..])
      {
        RestElems(s, a);
        RestElems(t, a);
      }
      SortedUnique(s[1..], t[1..]);
      assert s == [s[0]] + s[1..] && t == [t[0]] + t[1..];
    }
  }

  lemma SameFirst(s: seq<Addr>, t: seq<Addr>)
    requires Sorted(s) && Sorted(t) && s != [] && t != [] && s[0] in t && t[0] in s
    ensures s[0] == t[0]
  {
    var i :| 0 <= i < |t| && t[i] == s[0];
    var j :| 0 <= j < |s| && s[j] == t[0];
    LessTotal(s[0], t[0]);
  }

  lemma RestElems(s: seq<Addr>, a: Addr)
    requires Sorted(s) && s != []
    ensures a in Elems(s[1..]) <==> a in Elems(s) && a != s[0]
  {
    LessTotal(s[0], s[0]);
    if a in Elems(s) && a != s[0] {
      var i :| 0 <= i < |s| && s[i] == a;
      assert s[1..][i - 1] == a;
    }
  }

  /** Insert an address that is not there yet, keeping the order. */
  function Insert(s: seq<Addr>, a: Addr): seq<Addr> {
    if s == [] || Less(a, s[0]) then [a] + s else [s[0]] + Insert(s[1..], a)
  }

  lemma {:induction false} InsertElems(s: seq<Addr>, a: Addr)
    ensures forall b :: b in Insert(s, a) <==> b in s || b == a
  {
    if s != [] && !Less(a, s[0]) {
      InsertElems(s[1..], a);
      assert s == [s[0]] + s[1..];
    }
  }

  lemma {:induction false} InsertSorts(s: seq<Addr>, a: Addr)
    requires Sorted(s) && a !in s
    ensures Sorted(Insert(s, a))
  {
    if s != [] && !Less(a, s[0]) {
      InsertSorts(s[1..], a);
      InsertElems(s[1..], a);
      LessTotal(a, s[0]);
      assert forall b :: b in Insert(s[1..], a) ==> Less(s[0], b);
    } else if s != [] {
      forall i | 0 < i < |s|
        ensures Less(a, s[i])
      {
        LessTransitive(a, s[0], s[i]);
      }
    }
  }

  /** sort.Strings. */
  function Sort(s: seq<Addr>): seq<Addr> {
    if s == [] then [] else Insert(Sort(s[1..]), s[0])
  }

  lemma {:induction false} SortSorts(s: seq<Addr>)
    requires NoDuplicates(s)
    ensures Sorted(Sort(s)) && Elems(Sort(s)) == Elems(s)
  {
    if s != [] {
      SortSorts(s[1..]);
      var t := Sort(s[1..]);
      assert forall b :: b in t <==> b in Elems(t);
      assert s == [s[0]] + s[1..];
      InsertSorts(t, s[0]);
      InsertElems(t, s[0]);
    }
  }

  /** sortServers: drop blanks and duplicates and sort; `found` tells whether `search` is listed. */
  method SortServers(input: seq<Addr>, search: Addr) returns (result: seq<Addr>, found: bool)
    ensures Sorted(result) && Elems(result) == Elems(input) - {""}
    ensures found <==> search in input && search != ""
  {
    result, found := [], false;
    var skip := {""};
    for i := 0 to |input|
      invariant NoDuplicates(result) && Elems(result) == Elems(input[..i]) - {""}
      invariant skip == Elems(result) + {""}
      invariant found <==> search in input[..i] && search != ""
    {
      var entry := input[i];
      assert input[..i + 1] == input[..i] + [entry];
      assert Elems(input[..i + 1]) == Elems(input[..i]) + {entry};
      if entry !in skip {
        assert entry !in Elems(result);
        if search == entry {
          found := true;
        }
        skip := skip + {entry};
        assert Elems(result + [entry]) == Elems(result) + {entry};
        result := result + [entry];
      } else if entry != "" {
        assert entry in Elems(input[..i]);
      }
    }
    assert input[..|input|] == input;
    SortSorts(result);
    result := Sort(result);
  }

  /** rand.Shuffle: swaps chosen by `rnd`. */
  method Shuffle(s: seq<Addr>, rnd: nat -> nat) returns (r: seq<Addr>)
    requires NoDuplicates(s)
    ensures |r| == |s| && NoDuplicates(r) && Elems(r) == Elems(s)
  {
    r := s;
    if |r| == 0 {
      return;
    }
    var i := |r| - 1;
    while i > 0
      invariant 0 <= i < |r| == |s| && NoDuplicates(r) && Elems(r) == Elems(s)
    {
      var j := rnd(i) % (i + 1);
      ghost var before := r;
      r := r[i := r[j]][j := r[i]];
      assert forall k :: 0 <= k < |r| ==> r[k] == before[if k == i then j else if k == j then i else k];
      assert forall k :: 0 <= k < |r| ==> before[k] == r[if k == i then j else if k == j then i else k];
      SameElems(before, r);
      i := i - 1;
    }
  }

  lemma SameElems(s: seq<Addr>, t: seq<Addr>)
    requires forall k :: 0 <= k < |s| ==> s[k] in t
    requires forall k :: 0 <= k < |t| ==> t[k] in s
    ensures Elems(s) == Elems(t)
  {
  }

  // ----- Rotation -----

  type Usable = Addr -> bool

  /** The cursor after one step round a list of `n` servers. */
  function Step(n: nat, p: nat): nat {
    if p + 1 >= n then 0 else p + 1
  }

  function Walk(n: nat, p: nat, m: nat): nat
    decreases m
  {
    if m == 0 then p else Walk(n, Step(n, p), m - 1)
  }

  /** The outcome of a scan: the server, the cursor afterwards, and how many were looked at. */
  datatype Hit = Hit(addr: Addr, cursor: nat, steps: nat)

  /** Look at up to `left` servers from the cursor on and stop behind the first usable one. */
  function Scan(rs: seq<Addr>, usable: Usable, p: nat, left: nat): (o: Option<Hit>)
    requires p < |rs|
    ensures o.Some? ==> o.value.cursor < |rs|
    decreases left
  {
    if left == 0 then None
    else if usable(rs[p]) then Some(Hit(rs[p], Step(|rs|, p), 1))
    else match Scan(rs, usable, Step(|rs|, p), left - 1)
         case None => None
         case Some(h) => Some(h.(steps := h.steps + 1))
  }

  /** Healthy at the last check and dialable now. */
  function Reachable(health: map<Addr, bool>, dialable: Usable): Usable {
    (a: Addr) => a in health && health[a] && dialable(a)
  }

  /** A server of the list that was healthy at the last check and can be dialled now. */
  predicate Available(a: Addr, rs: seq<Addr>, health: map<Addr, bool>, dialable: Usable) {
    a in rs && a in health && health[a] && dialable(a)
  }

  class Balancer {
    const original: Addr
    var serverAddresses: seq<Addr>
    var randomServers: seq<Addr>
    var currentServerAddress: Addr
    var nextServerIndex: nat
    var health: map<Addr, bool>

    ghost predicate Valid()
      reads this
    {
      && Sorted(serverAddresses) && NoDuplicates(randomServers)
      && (randomServers != [] ==>
            && 1 <= nextServerIndex <= |randomServers|
            && currentServerAddress == randomServers[nextServerIndex - 1])
    }

    /** Where the rotation stands. */
    ghost function Cursor(): nat
      requires Valid() && randomServers != []
      reads this
    {
      nextServerIndex - 1
    }

    constructor (original: Addr)
      ensures Valid() && this.original == original && randomServers == [] && serverAddresses == [] && health == map[]
    {
      this.original := original;
      serverAddresses, randomServers, currentServerAddress, nextServerIndex, health := [], [], "", 0, map[];
    }

    /** The list is replaced and the rotation restarted exactly if the non-blank addresses are
        not empty and differ, as a set, from the current ones. The new rotation has each of them
        and the original server once, the original last if it is not one of them. */
    method SetServers(addresses: seq<Addr>, rnd: nat -> nat) returns (changed: bool)
      requires Valid()
      modifies this`serverAddresses, this`randomServers, this`currentServerAddress, this`nextServerIndex
      ensures Valid()
      ensures changed <==> Elems(addresses) - {""} != {} && Elems(addresses) - {""} != old(Elems(serverAddresses))
      ensures changed ==> Elems(serverAddresses) == Elems(addresses) - {""}
      ensures changed ==> Elems(randomServers) == Elems(addresses) - {""} + {original}
      ensures changed ==> randomServers != [] && Cursor() == 0
      ensures changed && original !in Elems(addresses) - {""} ==> randomServers[|randomServers| - 1] == original
      ensures !changed ==> serverAddresses == old(serverAddresses) && randomServers == old(randomServers) &&
                           currentServerAddress == old(currentServerAddress) && nextServerIndex == old(nextServerIndex)
    {
      var sorted, hasOriginal := SortServers(addresses, original);
      if |sorted| == 0 {
        return false;
      }
      assert sorted[0] in Elems(sorted);
      if sorted == serverAddresses {
        return false;
      }
      if Elems(sorted) == Elems(serverAddresses) {
        SortedUnique(sorted, serverAddresses);
      }
      SortedDistinct(sorted);
      var shuffled := Shuffle(sorted, rnd);
      if !hasOriginal {
        assert original !in Elems(shuffled);
        shuffled := shuffled + [original];
      }
      serverAddresses, randomServers := sorted, shuffled;
      currentServerAddress := randomServers[0];
      nextServerIndex := 1;
      changed := true;
    }

    /** Move on from the current server; any other server leaves the rotation where it is. */
    method NextServer(failed: Addr) returns (server: Option<Addr>)
      requires Valid()
      modifies this`currentServerAddress, this`nextServerIndex
      ensures Valid()
      ensures randomServers == [] ==> server == None && nextServerIndex == old(nextServerIndex) &&
                                      currentServerAddress == old(currentServerAddress)
      ensures randomServers != [] ==>
                && server == Some(currentServerAddress)
                && Cursor() ==
                   if failed == old(currentServerAddress) then Step(|randomServers|, old(Cursor())) else old(Cursor())
    {
      if |randomServers| == 0 {
        return None;
      }
      if |randomServers| == 1 || failed != currentServerAddress {
        return Some(currentServerAddress);
      }
      if nextServerIndex >= |randomServers| {
        nextServerIndex := 0;
      }
      currentServerAddress := randomServers[nextServerIndex];
      nextServerIndex := nextServerIndex + 1;
      server := Some(currentServerAddress);
    }

    predicate Healthy(a: Addr)
      reads this
    {
      a in health && health[a]
    }

    /** The first server from the cursor on that is healthy and can be dialled, looking at each
        at most once; the rotation then stands behind it, and where it stood if there is none. */
    method GetAvailableBackend(dialable: Usable) returns (target: Option<Addr>)
      requires Valid()
      modifies this`currentServerAddress, this`nextServerIndex
      ensures Valid()
      ensures randomServers == [] ==> target == None
      ensures randomServers != [] ==>
                match Scan(randomServers, Reachable(health, dialable), old(Cursor()), |randomServers|)
                case Some(h) => target == Some(h.addr) && Cursor() == h.cursor
                case None => target == None && Cursor() == old(Cursor())
      ensures target.Some? ==> Available(target.value, randomServers, health, dialable)
      ensures target.None? ==> forall a :: !Available(a, randomServers, health, dialable)
    {
      var startIndex := 0;
      ghost var n := |randomServers|;
      ghost var usable := Reachable(health, dialable);
      ghost var o := None;
      if n > 0 {
        FullTurn(n, Cursor());
        ScanFinds(randomServers, health, dialable, Cursor());
        o := Scan(randomServers, usable, Cursor(), n);
      }
      while startIndex < |randomServers|
        invariant Valid() && startIndex <= n
        invariant n > 0 ==> Walk(n, Cursor(), n - startIndex) == old(Cursor())
        invariant n > 0 ==> After(Scan(randomServers, usable, Cursor(), n - startIndex), startIndex) == o
        decreases n - startIndex
      {
        startIndex := startIndex + 1;
        var targetServer := currentServerAddress;
        if !Healthy(targetServer) {
          var _ := NextServer(targetServer);
        } else if dialable(targetServer) {
          var _ := NextServer(targetServer);
          return Some(targetServer);
        } else {
          var _ := NextServer(targetServer);
        }
      }
      target := None;
    }
  }

  /** The same outcome after `m` servers more. */
  function After(o: Option<Hit>, m: nat): Option<Hit> {
    match o
    case None => None
    case Some(h) => Some(h.(steps := h.steps + m))
  }

  lemma SortedDistinct(s: seq<Addr>)
    requires Sorted(s)
    ensures NoDuplicates(s)
  {
    forall i, j | 0 <= i < j < |s|
      ensures s[i] != s[j]
    {
      LessTotal(s[i], s[j]);
    }
  }

  // ----- The scan -----

  lemma {:induction false} WalkForward(n: nat, p: nat, m: nat)
    requires p + m < n
    ensures Walk(n, p, m) == p + m
    decreases m
  {
    if m > 0 {
      WalkForward(n, p + 1, m - 1);
    }
  }

  lemma {:induction false} WalkAdd(n: nat, p: nat, a: nat, b: nat)
    ensures Walk(n, p, a + b) == Walk(n, Walk(n, p, a), b)
    decreases a
  {
    if a > 0 {
      WalkAdd(n, Step(n, p), a - 1, b);
    }
  }

  /** A full turn ends where it began. */
  lemma FullTurn(n: nat, p: nat)
    requires p < n
    ensures Walk(n, p, n) == p
  {
    WalkForward(n, p, n - 1 - p);
    WalkAdd(n, p, n - 1 - p, 1);
    assert Walk(n, n - 1, 1) == Walk(n, 0, 0);
    WalkAdd(n, p, n - p, p);
    WalkForward(n, 0, p);
  }

  /** A turn of `n` steps reaches every server. */
  lemma TurnReaches(n: nat, p: nat, i: nat) returns (d: nat)
    requires p < n && i < n
    ensures d < n && Walk(n, p, d) == i
  {
    if p <= i {
      d := i - p;
      WalkForward(n, p, d);
    } else {
      d := n - p + i;
      WalkForward(n, p, n - 1 - p);
      WalkAdd(n, p, n - 1 - p, 1);
      assert Walk(n, n - 1, 1) == Walk(n, 0, 0);
      WalkAdd(n, p, n - p, i);
      WalkForward(n, 0, i);
    }
  }

  lemma {:induction false} ScanSkips(rs: seq<Addr>, usable: Usable, p: nat, left: nat, d: nat)
    requires p < |rs|
    ensures var o := Scan(rs, usable, p, left);
            match o
            case None => d < left ==> !usable(rs[WalkIn(|rs|, p, d)])
            case Some(h) =>
              && 1 <= h.steps <= left
              && (d < h.steps - 1 ==> !usable(rs[WalkIn(|rs|, p, d)]))
              && rs[WalkIn(|rs|, p, h.steps - 1)] == h.addr && usable(h.addr)
              && h.cursor == Walk(|rs|, p, h.steps)
    decreases left
  {
    if left > 0 && !usable(rs[p]) {
      ScanSkips(rs, usable, Step(|rs|, p), left - 1, if d > 0 then d - 1 else 0);
    }
  }

  /** `Walk` from a position of the list stays in the list. */
  function WalkIn(n: nat, p: nat, m: nat): (q: nat)
    requires p < n
    ensures q == Walk(n, p, m) && q < n
    decreases m
  {
    if m == 0 then p else WalkIn(n, Step(n, p), m - 1)
  }

  /** A scan finds an available server, or there is none. */
  lemma ScanFinds(rs: seq<Addr>, health: map<Addr, bool>, dialable: Usable, p: nat)
    requires p < |rs|
    ensures var o := Scan(rs, Reachable(health, dialable), p, |rs|);
            && (o.Some? ==> Available(o.value.addr, rs, health, dialable))
            && (o.None? ==> forall a :: !Available(a, rs, health, dialable))
  {
    ScanIsComplete(rs, Reachable(health, dialable), p);
  }

  /** With the list fixed during the call, a scan finds the first usable server in cyclic order
      from the cursor, fails exactly if there is none, and then has gone once round. */
  lemma ScanIsComplete(rs: seq<Addr>, usable: Usable, p: nat)
    requires p < |rs|
    ensures var o := Scan(rs, usable, p, |rs|);
            && (o.None? <==> forall i :: 0 <= i < |rs| ==> !usable(rs[i]))
            && (o.None? ==> Walk(|rs|, p, |rs|) == p)
            && (o.Some? ==>
                  && 1 <= o.value.steps <= |rs| && usable(o.value.addr)
                  && rs[WalkIn(|rs|, p, o.value.steps - 1)] == o.value.addr
                  && o.value.cursor == WalkIn(|rs|, p, o.value.steps)
                  && forall d :: 0 <= d < o.value.steps - 1 ==> !usable(rs[WalkIn(|rs|, p, d)]))
  {
    var n := |rs|;
    var o := Scan(rs, usable, p, n);
    FullTurn(n, p);
    ScanSkips(rs, usable, p, n, 0);
    if o.None? {
      forall i | 0 <= i < n
        ensures !usable(rs[i])
      {
        var d := TurnReaches(n, p, i);
        ScanSkips(rs, usable, p, n, d);
      }
    } else {
      forall d | 0 <= d < o.value.steps - 1
        ensures !usable(rs[WalkIn(n, p, d)])
      {
        ScanSkips(rs, usable, p, n, d);
      }
    }
  }

  // ----- Fairness -----

  /** How often position `i` is looked at in `m` steps from `p`. */
  function Visits(n: nat, p: nat, m: nat, i: nat): nat
    decreases m
  {
    if m == 0 then 0 else (if p == i then 1 else 0) + Visits(n, Step(n, p), m - 1, i)
  }

  /** The steps from `p` to the next look at `i`. */
  function UntilNext(n: nat, p: nat, i: nat): int {
    if i >= p then i - p else i - p + n
  }

  function Sooner(n: nat, p: nat, i: nat, j: nat): int {
    if UntilNext(n, p, i) < UntilNext(n, p, j) then 1 else 0
  }

  /** Two positions are visited in turn. */
  lemma {:induction false} VisitsAlternate(n: nat, p: nat, m: nat, i: nat, j: nat)
    requires p < n && i < n && j < n && i != j
    ensures Visits(n, p, m, i) - Visits(n, p, m, j) == Sooner(n, p, i, j) - Sooner(n, Walk(n, p, m), i, j)
    decreases m
  {
    if m > 0 {
      VisitsAlternate(n, Step(n, p), m - 1, i, j);
    }
  }

  lemma {:induction false} VisitsAdd(n: nat, p: nat, a: nat, b: nat, i: nat)
    ensures Visits(n, p, a + b, i) == Visits(n, p, a, i) + Visits(n, Walk(n, p, a), b, i)
    decreases a
  {
    if a > 0 {
      VisitsAdd(n, Step(n, p), a - 1, b, i);
    }
  }

  /** A scan looks at a usable server only to serve it. */
  lemma {:induction false} ScanVisits(rs: seq<Addr>, usable: Usable, p: nat, left: nat, i: nat)
    requires NoDuplicates(rs) && p < |rs| && i < |rs| && usable(rs[i]) && Scan(rs, usable, p, left).Some?
    ensures var h := Scan(rs, usable, p, left).value;
            && Visits(|rs|, p, h.steps, i) == (if h.addr == rs[i] then 1 else 0)
            && Walk(|rs|, p, h.steps) == h.cursor && h.cursor < |rs|
    decreases left
  {
    if usable(rs[p]) {
      assert Visits(|rs|, p, 1, i) == (if p == i then 1 else 0) + Visits(|rs|, Step(|rs|, p), 0, i);
    } else {
      ScanVisits(rs, usable, Step(|rs|, p), left - 1, i);
    }
  }

  /** The servers of `k` consecutive requests from cursor `p`. */
  function Served(rs: seq<Addr>, usable: Usable, p: nat, k: nat): seq<Addr>
    requires p < |rs|
    decreases k
  {
    if k == 0 then []
    else match Scan(rs, usable, p, |rs|)
         case None => []
         case Some(h) => [h.addr] + Served(rs, usable, h.cursor, k - 1)
  }

  function Count(s: seq<Addr>, a: Addr): nat {
    if s == [] then 0 else (if s[0] == a then 1 else 0) + Count(s[1..], a)
  }

  lemma {:induction false} ServedVisits(rs: seq<Addr>, usable: Usable, p: nat, k: nat, i: nat, j: nat) returns (m: nat)
    requires NoDuplicates(rs) && p < |rs| && i < |rs| && j < |rs| && usable(rs[i]) && usable(rs[j])
    ensures |Served(rs, usable, p, k)| == k
    ensures Count(Served(rs, usable, p, k), rs[i]) == Visits(|rs|, p, m, i)
    ensures Count(Served(rs, usable, p, k), rs[j]) == Visits(|rs|, p, m, j)
    decreases k
  {
    m := 0;
    if k > 0 {
      ScanIsComplete(rs, usable, p);
      ScanVisits(rs, usable, p, |rs|, i);
      ScanVisits(rs, usable, p, |rs|, j);
      var h := Scan(rs, usable, p, |rs|).value;
      var rest := ServedVisits(rs, usable, h.cursor, k - 1, i, j);
      m := h.steps + rest;
      VisitsAdd(|rs|, p, h.steps, rest, i);
      VisitsAdd(|rs|, p, h.steps, rest, j);
      assert ([h.addr] + Served(rs, usable, h.cursor, k - 1))[1..] == Served(rs, usable, h.cursor, k - 1);
    }
  }

  /** Fairness: with a fixed list and fixed usable servers, any `k` consecutive requests are all
      served, and the shares of any two usable servers differ by at most one. */
  lemma RotationIsFair(rs: seq<Addr>, usable: Usable, p: nat, k: nat, a: Addr, b: Addr)
    requires NoDuplicates(rs) && p < |rs| && a in rs && b in rs && usable(a) && usable(b)
    ensures |Served(rs, usable, p, k)| == k
    ensures -1 <= Count(Served(rs, usable, p, k), a) - Count(Served(rs, usable, p, k), b) <= 1
  {
    var i :| 0 <= i < |rs| && rs[i] == a;
    var j :| 0 <= j < |rs| && rs[j] == b;
    var m := ServedVisits(rs, usable, p, k, i, j);
    if i != j {
      VisitsAlternate(|rs|, p, m, i, j);
    }
  }
}
