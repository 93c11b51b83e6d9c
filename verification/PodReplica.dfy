/** The central replica of edge pods: the edge-version check and the create-or-update handler. */
module PodReplica {

  import opened Options
  import opened Optimistic
  import opened Retries

  type Labels = map<string, string>

  const CLUSTER_LABEL := "ote-cluster"
  const EDGE_VERSION_LABEL := "edge-version"

  /** A missing label reads as the empty string. */
  function Label(labels: Labels, name: string): string {
    if name in labels then labels[name] else ""
  }

  const MAX_INT: int := 0x7fff_ffff_ffff_ffff

  /** The value of a string of decimal digits. */
  function Digits(s: string): Option<int> {
    if s == "" then None
    else if !('0' <= s[|s| - 1] <= '9') then None
    else
      var d := s[|s| - 1] as int - '0' as int;
      if |s| == 1 then Some(d)
      else
        var rest := Digits(s[..|s| - 1]);
        if rest.None? then None else Some(10 * rest.value + d)
  }

  /** strconv.Atoi: an optional sign and decimal digits within 64 bits. */
  function Atoi(s: string): (r: Option<int>)
    ensures r.Some? ==> -MAX_INT - 1 <= r.value <= MAX_INT
  {
    var signed := s != "" && (s[0] == '-' || s[0] == '+');
    var digits := Digits(if signed then s[1..] else s);
    if digits.None? then None
    else
      var n := if signed && s[0] == '-' then -digits.value else digits.value;
      if -MAX_INT - 1 <= n <= MAX_INT then Some(n) else None
  }

  /** strconv.Itoa. */
  function Itoa(n: int): string {
    if n < 0 then "-" + Decimal(-n) else Decimal(n)
  }

  function Decimal(n: nat): string {
    if n < 10 then [Digit(n)] else Decimal(n / 10) + [Digit(n % 10)]
  }

  function Digit(d: nat): (c: char)
    requires d < 10
    ensures '0' <= c <= '9' && c as int - '0' as int == d
  {
    ('0' as int + d) as char
  }

  lemma {:induction false} DigitsDecimal(n: nat)
    ensures Decimal(n) != "" && '0' <= Decimal(n)[0] <= '9' && Digits(Decimal(n)) == Some(n)
  {
    if n >= 10 {
      DigitsDecimal(n / 10);
      var s := Decimal(n);
      assert s[..|s| - 1] == Decimal(n / 10) && s[|s| - 1] == Digit(n % 10);
    }
  }

  /** Atoi reads back what Itoa writes, for exactly the numbers of 64 bits. */
  lemma AtoiItoa(n: int)
    ensures Atoi(Itoa(n)) == if -MAX_INT - 1 <= n <= MAX_INT then Some(n) else None
  {
    DigitsDecimal(if n < 0 then -n else n);
    if n < 0 {
      assert Itoa(n)[1..] == Decimal(-n);
    }
  }

  predicate IsDigit(c: char) {
    '0' <= c <= '9'
  }

  predicate AllDigits(s: string) {
    forall i :: 0 <= i < |s| ==> IsDigit(s[i])
  }

  /** A string of digits has a value, and nothing else has. */
  lemma {:induction false} DigitsIff(s: string)
    ensures Digits(s).Some? <==> s != "" && AllDigits(s)
    ensures Digits(s).Some? ==> Digits(s).value >= 0
    decreases |s|
  {
    if |s| > 1 {
      var n := |s| - 1;
      DigitsIff(s[..n]);
      assert AllDigits(s) <==> AllDigits(s[..n]) && IsDigit(s[n]);
    }
  }

  /** Leading zeros do not change the value. */
  lemma {:induction false} LeadingZero(s: string)
    requires s != ""
    ensures Digits("0" + s) == Digits(s)
    decreases |s|
  {
    var n, z := |s| - 1, "0" + s;
    assert z[|z| - 1] == s[n] && z[..|z| - 1] == "0" + s[..n];
    if n == 0 {
      assert "0" + s[..n] == "0" && Digits("0") == Some(0);
    } else {
      LeadingZero(s[..n]);
    }
  }

  /** A sign and digits are read as the number with that sign, if it has 64 bits; anything else is
      no number. */
  lemma AtoiSigned(s: string)
    requires s != ""
    ensures AllDigits(s) ==> Atoi("+" + s) == Atoi(s)
    ensures AllDigits(s) && Atoi(s).Some? ==> Atoi("-" + s) == Some(-Atoi(s).value)
    ensures Atoi(s).Some? ==> AllDigits(s[1..]) && (IsDigit(s[0]) || ((s[0] == '-' || s[0] == '+') && |s| > 1))
  {
    assert ("+" + s)[1..] == s && ("-" + s)[1..] == s;
    DigitsIff(s);
    DigitsIff(s[1..]);
  }

  /** The edge version of an object, if its label holds one. */
  function Version(labels: Labels): Option<int> {
    Atoi(Label(labels, EDGE_VERSION_LABEL))
  }

  /** checkEdgeVersion: both versions are present and readable and the report is not older. */
  function CheckEdgeVersion(report: Labels, stored: Labels): (ok: bool)
    ensures ok <==> Version(report).Some? && Version(stored).Some? && Version(stored).value <= Version(report).value
  {
    if Label(report, EDGE_VERSION_LABEL) == "" || Label(stored, EDGE_VERSION_LABEL) == "" then false
    else
      var edge := Atoi(Label(report, EDGE_VERSION_LABEL));
      if edge.None? then false
      else
        var central := Atoi(Label(stored, EDGE_VERSION_LABEL));
        if central.None? then false else edge.value >= central.value
  }

  /** The spec of a pod: only the deadline and the tolerations may change after creation. */
  datatype Spec = Spec(fixed: string, serviceAccount: string, deadline: Option<int>, tolerations: string)

  datatype Pod = Pod(labels: Labels, spec: Spec, status: string)

  /** CreatePod clears the service account. */
  function Created(r: Pod): Pod {
    r.(spec := r.spec.(serviceAccount := ""))
  }

  /** The two writes of UpdatePod: metadata and the mutable part of the spec, then metadata and
      status. */
  function Written(r: Pod, v: Pod, phase: nat): Pod {
    if phase == 0
    then Pod(r.labels, v.spec.(deadline := r.spec.deadline, tolerations := r.spec.tolerations), v.status)
    else Pod(r.labels, v.spec, r.status)
  }

  /** CreateOrUpdatePod on one pod; conflicts are retried as in retry.DefaultRetry. */
  const PodHandler: Handler<Pod, Pod> := Handler(
                                           (r: Pod, v: Pod) => CheckEdgeVersion(r.labels, v.labels),
                                           (r: Pod, v: Pod, phase: nat) => Written(r, v, phase),
                                           Some((r: Pod) => Created(r)),
                                           2, (r: Pod) => 5,
                                           (v: Pod) => Version(v.labels),
                                           0)

  lemma PodHandlerSane()
    ensures Sane(PodHandler)
  {
  }

  /** Under every interleaving of report handlers, deletions and other writers, the edge version
      of a central pod never decreases while the pod exists, and its identity never changes. */
  lemma EdgeVersionNeverDecreases(ss: seq<Sys<Pod, Pod>>, steps: seq<Step<Pod, Pod>>, i: nat, j: nat, k: Key)
    requires IsRun(PodHandler, ss, steps) && i <= j <= |steps|
    requires k in ss[i].store && k in ss[j].store && ss[i].store[k].uid == ss[j].store[k].uid
    ensures var m, m' := Version(ss[i].store[k].value.labels), Version(ss[j].store[k].value.labels);
            m == m' || (m.Some? && m'.Some? && m.value <= m'.value)
  {
    PodHandlerSane();
    VersionNeverDecreases(PodHandler, ss, steps, i, j, k);
  }

  /** A central pod keeps its identity in every step that does not delete it. */
  lemma UidChangesOnlyByDeletion(ss: seq<Sys<Pod, Pod>>, steps: seq<Step<Pod, Pod>>, i: nat, k: Key)
    requires IsRun(PodHandler, ss, steps) && i < |steps|
    requires k in ss[i].store && k in ss[i + 1].store
    ensures ss[i].store[k].uid == ss[i + 1].store[k].uid
  {
    PodHandlerSane();
    RunInv(PodHandler, ss, steps, i);
    StepKeepsObject(PodHandler, ss[i], steps[i], k);
  }

  lemma PodHandlerMonotone()
    ensures Monotone(PodHandler)
  {
  }

  /** For a pod that the centre holds when its report comes in: the report changes nothing, under
      every interleaving in which the pod stays, if and only if its edge version is missing,
      unreadable or older than the stored one at that moment. */
  lemma ReportWritesNothingIff(ss: seq<Sys<Pod, Pod>>, steps: seq<Step<Pod, Pod>>, tid: nat, k: Key, r: Pod)
    requires IsRun(PodHandler, ss, steps) && steps != [] && steps[|steps| - 1] == Spawn(tid, k, r)
    requires k in ss[|steps|].store
    ensures NeverWrites(PodHandler, ss, steps, tid, k, ss[|steps|].store[k].uid) <==>
            !CheckEdgeVersion(r.labels, ss[|steps|].store[k].value.labels)
  {
    PodHandlerSane();
    PodHandlerMonotone();
    WritesNothingIff(PodHandler, ss, steps, tid, k, r);
  }

  /** A report that fails the version check may have written before: its metadata and spec are
      stored when a newer report comes between its two writes, and its status is then refused. */
  lemma RejectedReportMayHaveWritten(s0: Sys<Pod, Pod>, k: Key, older: Pod, newer: Pod)
    returns (ss: seq<Sys<Pod, Pod>>, steps: seq<Step<Pod, Pod>>, n: nat)
    requires Initial(s0) && k in s0.store && CheckEdgeVersion(older.labels, s0.store[k].value.labels)
    requires CheckEdgeVersion(newer.labels, older.labels) && !CheckEdgeVersion(older.labels, newer.labels)
    ensures IsRun(PodHandler, ss, steps) && |steps| == n + 1 && steps[n] == Act(0) && ss[0] == s0
    ensures ss[n].threads[0].pc.Reading? && ss[n + 1].threads[0].pc == Finished(Rejected)
    ensures Count(ss[n + 1].log, 0) > 0
    ensures k in ss[n + 1].store && ss[n + 1].store[k].value.status == s0.store[k].value.status
  {
    ss, steps, n := OvertakenAfterWriting(PodHandler, s0, k, older, newer);
  }

  /** What each of the two writes stores over any pod: the first leaves the status alone, the second
      the spec, and both store the labels, with the edge version, of the report. */
  lemma WritesByPhase(r: Pod, v: Pod)
    ensures var first, second := PodHandler.merge(r, v, 0), PodHandler.merge(r, v, 1);
            && first.labels == second.labels == r.labels
            && first.status == v.status && second.status == r.status && second.spec == v.spec
            && first.spec == r.spec.(fixed := v.spec.fixed, serviceAccount := v.spec.serviceAccount)
  {
  }

  /** A report gives up on conflicts only after five of them in one of its two writes. */
  lemma FivePerWrite(
    ss: seq<Sys<Pod, Pod>>, steps: seq<Step<Pod, Pod>>, n: nat, tid: nat, phase: nat)
    requires IsRun(PodHandler, ss, steps) && n < |steps| && steps[n] == Act(tid) && Conflict(ss[n], tid, phase)
    ensures phase < 2 && Conflicts(ss, steps, n + 1, tid, phase) <= 5
    ensures ss[n + 1].threads[tid].pc == Finished(Failed) <==> Conflicts(ss, steps, n + 1, tid, phase) == 5
  {
    PodHandlerSane();
    RunBudget(PodHandler, ss, steps, n, tid);
    ConflictEndsIff(PodHandler, ss, steps, n, tid, phase);
  }

  /** The value a report leaves over a stored pod when its version check succeeds. */
  function Merged(r: Pod, v: Pod): Pod {
    Pod(r.labels, v.spec.(deadline := r.spec.deadline, tolerations := r.spec.tolerations), r.status)
  }

  /** A report over a stored pod. */
  function Update(r: Pod, v: Pod): Pod {
    if CheckEdgeVersion(r.labels, v.labels) then Merged(r, v) else v
  }

  /** The two phases together write the whole report or, if the check fails, nothing. */
  lemma TwoPhasesMerge(r: Pod, v: Pod)
    ensures Alone(PodHandler, r, v, 0) == Update(r, v)
  {
    var h := PodHandler;
    if CheckEdgeVersion(r.labels, v.labels) {
      var v1 := Written(r, v, 0);
      assert h.merge(r, v, 0) == v1 && h.accepts(r, v1);
      assert Alone(h, r, v1, 1) == Alone(h, r, h.merge(r, v1, 1), 2);
      assert Alone(h, r, h.merge(r, v1, 1), 2) == h.merge(r, v1, 1);
    }
  }

  /** A report over a stored pod changes nothing if it is too old. Otherwise labels and status are
      the reported ones, and of the spec the deadline and the tolerations. */
  lemma UpdatedFields(r: Pod, v: Pod)
    ensures var v' := Update(r, v);
            if CheckEdgeVersion(r.labels, v.labels)
            then && v'.labels == r.labels && v'.status == r.status && v'.spec.deadline == r.spec.deadline
                 && v'.spec.tolerations == r.spec.tolerations && v'.spec.fixed == v.spec.fixed
                 && v'.spec.serviceAccount == v.spec.serviceAccount
            else v' == v
  {
  }

  /** A handler that runs undisturbed on an existing pod leaves `Update` of it, keeps its
      identity and touches no other pod. */
  lemma HandlerAloneUpdates(s: Sys<Pod, Pod>, tid: nat, n: nat)
    requires n == 5 && tid in s.threads && s.threads[tid].pc == Begin && s.threads[tid].key in s.store
    ensures var th, s' := s.threads[tid], ActN(PodHandler, s, tid, n);
            && s'.store.Keys == s.store.Keys
            && s'.store[th.key].value == Update(th.report, s.store[th.key].value)
            && s'.store[th.key].uid == s.store[th.key].uid
            && (forall k :: k in s.store && k != th.key ==> s'.store[k] == s.store[k])
  {
    var th := s.threads[tid];
    var s1 := ActOn(PodHandler, s, tid);
    AloneFinishes(PodHandler, s1, tid, n - 1);
    TwoPhasesMerge(th.report, s.store[th.key].value);
  }

  /** A handler that finds the pod changed when it writes starts over from the changed pod. */
  lemma HandlerRetries(s: Sys<Pod, Pod>, tid: nat, n: nat)
    requires n == 5 && Conflict(s, tid, 0) && s.threads[tid].pc.left > 1
    ensures var th, s' := s.threads[tid], ActN(PodHandler, s, tid, n);
            && s'.store.Keys == s.store.Keys
            && s'.store[th.key].value == Update(th.report, s.store[th.key].value)
            && s'.store[th.key].uid == s.store[th.key].uid
            && (forall k :: k in s.store && k != th.key ==> s'.store[k] == s.store[k])
  {
    RetriesAlone(PodHandler, s, tid, n);
    TwoPhasesMerge(s.threads[tid].report, s.store[s.threads[tid].key].value);
  }

  /** On a missing pod it creates one and then updates it with the same report. */
  lemma HandlerAloneCreates(s: Sys<Pod, Pod>, tid: nat, n: nat)
    requires n == 6 && tid in s.threads && s.threads[tid].pc == Begin && s.threads[tid].key !in s.store
    ensures var th, s' := s.threads[tid], ActN(PodHandler, s, tid, n);
            && s'.store.Keys == s.store.Keys + {th.key}
            && s'.store[th.key].value == th.report.(spec := th.report.spec.(serviceAccount := ""))
            && s'.store[th.key].uid == s.uids
            && (forall k :: k in s.store ==> s'.store[k] == s.store[k])
  {
    var th := s.threads[tid];
    CreatesFirst(PodHandler, s, tid);
    ActNAdd(PodHandler, s, tid, 2, n - 2);
    AloneFinishes(PodHandler, ActN(PodHandler, s, tid, 2), tid, n - 2);
    TwoPhasesMerge(th.report, Created(th.report));
  }
}
