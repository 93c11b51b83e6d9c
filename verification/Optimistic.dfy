/** Read-check-write handlers running concurrently against a store that refuses a write whose
    resource version is stale. One handler is a goroutine of the report processor. */
module Optimistic {

  import opened Options

  type Key = string

  /** What a handler does with a report: when it accepts a stored value, what it writes in each
      of its phases, what it creates, and how often it tries a phase. `measure` is the version
      that orders reports; `gap` is how far an accepted write must advance it. */
  datatype Handler<!R, !V> = Handler(
    accepts: (R, V) -> bool,
    merge: (R, V, nat) -> V,
    create: Option<R -> V>,
    phases: nat,
    tries: R -> nat,
    measure: V -> Option<int>,
    gap: int)

  ghost predicate Advances(m: Option<int>, m': Option<int>, gap: int) {
    m.Some? && m'.Some? && m.value + gap <= m'.value
  }

  /** An accepted write advances the version. */
  ghost predicate Sane<R(!new), V(!new)>(h: Handler<R, V>) {
    && h.gap >= 0 && h.phases > 0 && (forall r :: h.tries(r) > 0)
    && forall r, v, p :: h.accepts(r, v) ==> Advances(h.measure(v), h.measure(h.merge(r, v, p)), h.gap)
  }

  /** A stored object: resource version, identity and contents. */
  datatype Cell<V> = Cell(rv: nat, uid: nat, value: V)

  datatype Outcome = Done | Rejected | Failed

  datatype Pc<V> =
    | Begin
    | Creating
    | Reading(phase: nat, left: nat)
    | Writing(phase: nat, left: nat, snap: Cell<V>)
    | Finished(outcome: Outcome)

  datatype Thread<R, V> = Thread(key: Key, report: R, pc: Pc<V>, created: bool)

  /** One accepted write, with the handler and the object it went to. */
  datatype Write = Write(tid: nat, uid: nat, version: Option<int>)

  /** `clock` and `uids` are the next fresh resource version and identity; `log` is the history
      of accepted handler writes. */
  datatype Sys<R, V> = Sys(
    store: map<Key, Cell<V>>, clock: nat, uids: nat, threads: map<nat, Thread<R, V>>, log: seq<Write>)

  /** A handler starts, takes its next step, or breaks off on an error; another client removes
      an object, or changes it without touching its version. */
  datatype Step<R, V> =
    | Spawn(tid: nat, key: Key, report: R)
    | Act(tid: nat)
    | Crash(tid: nat)
    | Remove(key: Key)
    | Touch(key: Key, value: V)

  ghost predicate Enabled<R, V>(h: Handler<R, V>, s: Sys<R, V>, step: Step<R, V>) {
    match step
    case Spawn(tid, _, _) => tid !in s.threads
    case Act(tid) => tid in s.threads && !s.threads[tid].pc.Finished?
    case Crash(tid) => tid in s.threads && !s.threads[tid].pc.Finished?
    case Remove(_) => true
    case Touch(key, value) => key in s.store && h.measure(value) == h.measure(s.store[key].value)
  }

  ghost function Goto<R, V>(s: Sys<R, V>, tid: nat, pc: Pc<V>): Sys<R, V>
    requires tid in s.threads
  {
    s.(threads := s.threads[tid := s.threads[tid].(pc := pc)])
  }

  /** Store a value under a fresh resource version and note it in the history. */
  ghost function Put<R, V>(h: Handler<R, V>, s: Sys<R, V>, tid: nat, uid: nat, value: V): Sys<R, V>
    requires tid in s.threads
  {
    s.(store := s.store[s.threads[tid].key := Cell(s.clock, uid, value)],
    clock := s.clock + 1,
    log := s.log + [Write(tid, uid, h.measure(value))])
  }

  /** The next step of a handler. */
  ghost function ActOn<R, V>(h: Handler<R, V>, s: Sys<R, V>, tid: nat): Sys<R, V>
    requires tid in s.threads
  {
    var th := s.threads[tid];
    match th.pc
    case Begin =>
      Goto(s, tid, if h.create.Some? && th.key !in s.store then Creating else Reading(0, h.tries(th.report)))
    case Creating =>
      if th.key in s.store || h.create.None? then Goto(s, tid, Finished(Failed))
      else
        var s1 := Put(h, s.(uids := s.uids + 1), tid, s.uids, h.create.value(th.report));
        s1.(threads := s1.threads[tid := th.(pc := Reading(0, h.tries(th.report)), created := true)])
    case Reading(phase, left) =>
      if th.key !in s.store then Goto(s, tid, Finished(Failed))
      else if !h.accepts(th.report, s.store[th.key].value) then Goto(s, tid, Finished(Rejected))
      else Goto(s, tid, Writing(phase, left, s.store[th.key]))
    case Writing(phase, left, snap) =>
      if th.key !in s.store then Goto(s, tid, Finished(Failed))
      else if s.store[th.key].rv != snap.rv then
        Goto(s, tid, if left > 1 then Reading(phase, left - 1) else Finished(Failed))
      else
        Goto(Put(h, s, tid, snap.uid, h.merge(th.report, snap.value, phase)), tid,
             if phase + 1 < h.phases then Reading(phase + 1, h.tries(th.report)) else Finished(Done))
    case Finished(_) => s
  }

  ghost function Next<R, V>(h: Handler<R, V>, s: Sys<R, V>, step: Step<R, V>): Sys<R, V>
    requires Enabled(h, s, step)
  {
    match step
    case Spawn(tid, key, report) => s.(threads := s.threads[tid := Thread(key, report, Begin, false)])
    case Act(tid) => ActOn(h, s, tid)
    case Crash(tid) => Goto(s, tid, Finished(Failed))
    case Remove(key) => s.(store := s.store - {key})
    case Touch(key, value) =>
      s.(store := s.store[key := Cell(s.clock, s.store[key].uid, value)], clock := s.clock + 1)
  }

  // ----- The invariant -----

  /** Resource versions and identities in use were handed out before. */
  ghost predicate Fresh<R, V>(s: Sys<R, V>) {
    && (forall k :: k in s.store ==> s.store[k].rv < s.clock && s.store[k].uid < s.uids)
    && (forall w :: w in s.log ==> w.uid < s.uids)
    && (forall j, k :: j in s.store && k in s.store && s.store[j].uid == s.store[k].uid ==> j == k)
  }

  /** What a handler is about to write was read under a version that still identifies it. */
  ghost predicate Snapshot<R, V>(h: Handler<R, V>, s: Sys<R, V>, th: Thread<R, V>) {
    th.pc.Writing? ==>
      && th.pc.snap.rv < s.clock
      && h.accepts(th.report, th.pc.snap.value)
      && (th.key in s.store && s.store[th.key].rv == th.pc.snap.rv ==> s.store[th.key] == th.pc.snap)
  }

  /** No accepted write of a live object is newer than what is stored. */
  ghost predicate Logged<R, V>(h: Handler<R, V>, s: Sys<R, V>, k: Key)
    requires k in s.store
  {
    forall w :: w in s.log && w.uid == s.store[k].uid ==>
                  w.version == h.measure(s.store[k].value) || Advances(w.version, h.measure(s.store[k].value), h.gap)
  }

  /** The accepted writes of one object advance from each to the next. */
  ghost predicate Ordered(log: seq<Write>, gap: int) {
    forall i, j :: 0 <= i < j < |log| && log[i].uid == log[j].uid ==> Advances(log[i].version, log[j].version, gap)
  }

  ghost predicate Inv<R, V>(h: Handler<R, V>, s: Sys<R, V>) {
    && Fresh(s)
    && (forall t :: t in s.threads ==> Snapshot(h, s, s.threads[t]))
    && (forall k :: k in s.store ==> Logged(h, s, k))
    && Ordered(s.log, h.gap)
  }

  /** A write under a fresh resource version to the object that was read keeps the invariant. */
  lemma PutKeepsInv<R(!new), V(!new)>(h: Handler<R, V>, s: Sys<R, V>, tid: nat, uid: nat, value: V)
    requires Sane(h) && Inv(h, s) && tid in s.threads && uid < s.uids
    requires var k := s.threads[tid].key;
             if k in s.store
             then s.store[k].uid == uid && Advances(h.measure(s.store[k].value), h.measure(value), h.gap)
             else (forall w :: w in s.log ==> w.uid != uid) && forall j :: j in s.store ==> s.store[j].uid != uid
    ensures Inv(h, Put(h, s, tid, uid, value))
  {
    var k := s.threads[tid].key;
    var s' := Put(h, s, tid, uid, value);
    forall w | w in s.log && w.uid == uid
      ensures Advances(w.version, h.measure(value), h.gap)
    {
      assert Logged(h, s, k);
    }
    forall j | j in s'.store
      ensures Logged(h, s', j)
    {
      if j != k {
        assert Logged(h, s, j);
      }
    }
    forall t | t in s'.threads
      ensures Snapshot(h, s', s'.threads[t])
    {
      assert Snapshot(h, s, s.threads[t]);
    }
  }

  lemma GotoKeepsInv<R, V>(h: Handler<R, V>, s: Sys<R, V>, tid: nat, pc: Pc<V>)
    requires Inv(h, s) && tid in s.threads && Snapshot(h, s, s.threads[tid].(pc := pc))
    ensures Inv(h, Goto(s, tid, pc))
  {
    var s' := Goto(s, tid, pc);
    forall t | t in s'.threads
      ensures Snapshot(h, s', s'.threads[t])
    {
      if t != tid {
        assert Snapshot(h, s, s.threads[t]);
      }
    }
    forall k | k in s'.store
      ensures Logged(h, s', k)
    {
      assert Logged(h, s, k);
    }
  }

  lemma CreateKeepsInv<R(!new), V(!new)>(h: Handler<R, V>, s: Sys<R, V>, tid: nat)
    requires Sane(h) && Inv(h, s) && tid in s.threads && s.threads[tid].pc.Creating?
    requires s.threads[tid].key !in s.store && h.create.Some?
    ensures Inv(h, ActOn(h, s, tid))
  {
    var s0 := s.(uids := s.uids + 1);
    assert Inv(h, s0) by {
      forall k | k in s0.store
        ensures Logged(h, s0, k)
      {
        assert Logged(h, s, k);
      }
    }
    var s1 := Put(h, s0, tid, s.uids, h.create.value(s.threads[tid].report));
    PutKeepsInv(h, s0, tid, s.uids, h.create.value(s.threads[tid].report));
    var s2 := ActOn(h, s, tid);
    forall t | t in s2.threads
      ensures Snapshot(h, s2, s2.threads[t])
    {
      if t != tid {
        assert Snapshot(h, s1, s1.threads[t]);
      }
    }
    forall k | k in s2.store
      ensures Logged(h, s2, k)
    {
      assert Logged(h, s1, k);
    }
  }

  lemma WriteKeepsInv<R(!new), V(!new)>(h: Handler<R, V>, s: Sys<R, V>, tid: nat)
    requires Sane(h) && Inv(h, s) && tid in s.threads && s.threads[tid].pc.Writing?
    requires s.threads[tid].key in s.store && s.store[s.threads[tid].key].rv == s.threads[tid].pc.snap.rv
    ensures Inv(h, ActOn(h, s, tid))
  {
    var th := s.threads[tid];
    assert Snapshot(h, s, th);
    var value := h.merge(th.report, th.pc.snap.value, th.pc.phase);
    PutKeepsInv(h, s, tid, th.pc.snap.uid, value);
    GotoKeepsInv(h, Put(h, s, tid, th.pc.snap.uid, value), tid,
                 if th.pc.phase + 1 < h.phases then Reading(th.pc.phase + 1, h.tries(th.report)) else Finished(Done));
  }

  lemma {:induction false} ActKeepsInv<R(!new), V(!new)>(h: Handler<R, V>, s: Sys<R, V>, tid: nat)
    requires Sane(h) && Inv(h, s) && tid in s.threads
    ensures Inv(h, ActOn(h, s, tid))
  {
    var th := s.threads[tid];
    assert Snapshot(h, s, th);
    match th.pc {
      case Begin =>
        var next := if h.create.Some? && th.key !in s.store then Creating else Reading(0, h.tries(th.report));
        GotoKeepsInv(h, s, tid, next);
      case Creating =>
        if th.key in s.store || h.create.None? {
          GotoKeepsInv(h, s, tid, Finished(Failed));
        } else {
          CreateKeepsInv(h, s, tid);
        }
      case Reading(phase, left) =>
        if th.key !in s.store {
          GotoKeepsInv(h, s, tid, Finished(Failed));
        } else if !h.accepts(th.report, s.store[th.key].value) {
          GotoKeepsInv(h, s, tid, Finished(Rejected));
        } else {
          GotoKeepsInv(h, s, tid, Writing(phase, left, s.store[th.key]));
        }
      case Writing(phase, left, snap) =>
        if th.key !in s.store {
          GotoKeepsInv(h, s, tid, Finished(Failed));
        } else if s.store[th.key].rv != snap.rv {
          GotoKeepsInv(h, s, tid, if left > 1 then Reading(phase, left - 1) else Finished(Failed));
        } else {
          WriteKeepsInv(h, s, tid);
        }
      case Finished(_) =>
    }
  }

  lemma OtherKeepsInv<R(!new), V(!new)>(h: Handler<R, V>, s: Sys<R, V>, step: Step<R, V>)
    requires Inv(h, s) && Enabled(h, s, step) && !step.Act? && !step.Crash?
    ensures Inv(h, Next(h, s, step))
  {
    var s' := Next(h, s, step);
    forall t | t in s'.threads
      ensures Snapshot(h, s', s'.threads[t])
    {
      if t in s.threads {
        assert Snapshot(h, s, s.threads[t]);
      }
    }
    forall k | k in s'.store
      ensures Logged(h, s', k)
    {
      assert Logged(h, s, k);
    }
  }

  lemma {:induction false} NextKeepsInv<R(!new), V(!new)>(h: Handler<R, V>, s: Sys<R, V>, step: Step<R, V>)
    requires Sane(h) && Inv(h, s) && Enabled(h, s, step)
    ensures Inv(h, Next(h, s, step))
  {
    match step {
      case Act(tid) => ActKeepsInv(h, s, tid);
      case Crash(tid) => GotoKeepsInv(h, s, tid, Finished(Failed));
      case _ => OtherKeepsInv(h, s, step);
    }
  }

  // ----- Whole runs -----

  /** No handler has started; the store may hold anything. */
  ghost predicate Initial<R, V>(s: Sys<R, V>) {
    s.threads == map[] && s.log == [] && Fresh(s)
  }

  ghost predicate IsRun<R, V>(h: Handler<R, V>, ss: seq<Sys<R, V>>, steps: seq<Step<R, V>>) {
    && |ss| == |steps| + 1 && Initial(ss[0])
    && forall i :: 0 <= i < |steps| ==> Enabled(h, ss[i], steps[i]) && ss[i + 1] == Next(h, ss[i], steps[i])
  }

  lemma {:induction false} RunInv<R(!new), V(!new)>(
    h: Handler<R, V>, ss: seq<Sys<R, V>>, steps: seq<Step<R, V>>, n: nat)
    requires Sane(h) && IsRun(h, ss, steps) && n <= |steps|
    ensures Inv(h, ss[n])
  {
    if n > 0 {
      RunInv(h, ss, steps, n - 1);
      NextKeepsInv(h, ss[n - 1], steps[n - 1]);
    }
  }

  /** In every run the accepted writes of one object are ordered by version. */
  lemma AcceptedWritesAdvance<R(!new), V(!new)>(h: Handler<R, V>, ss: seq<Sys<R, V>>, steps: seq<Step<R, V>>)
    requires Sane(h) && IsRun(h, ss, steps)
    ensures Ordered(ss[|steps|].log, h.gap)
  {
    RunInv(h, ss, steps, |steps|);
  }

  /** A live object is at least as new as every report accepted for it. */
  lemma StoredIsNewest<R(!new), V(!new)>(h: Handler<R, V>, ss: seq<Sys<R, V>>, steps: seq<Step<R, V>>, k: Key, w: Write)
    requires Sane(h) && IsRun(h, ss, steps)
    requires var s := ss[|steps|]; k in s.store && w in s.log && w.uid == s.store[k].uid
    ensures var m := h.measure(ss[|steps|].store[k].value); w.version == m || Advances(w.version, m, h.gap)
  {
    RunInv(h, ss, steps, |steps|);
    assert Logged(h, ss[|steps|], k);
  }

  /** One step: an object that stays keeps its identity, and its version does not decrease. */
  lemma StepKeepsObject<R(!new), V(!new)>(h: Handler<R, V>, s: Sys<R, V>, step: Step<R, V>, k: Key)
    requires Sane(h) && Inv(h, s) && Enabled(h, s, step)
    requires k in s.store && k in Next(h, s, step).store
    ensures var v, v' := s.store[k].value, Next(h, s, step).store[k].value;
            && Next(h, s, step).store[k].uid == s.store[k].uid
            && (h.measure(v') == h.measure(v) || Advances(h.measure(v), h.measure(v'), h.gap))
  {
    if step.Act? {
      assert Snapshot(h, s, s.threads[step.tid]);
    }
  }

  lemma NewObjectIsFresh<R(!new), V(!new)>(h: Handler<R, V>, s: Sys<R, V>, step: Step<R, V>, k: Key)
    requires Enabled(h, s, step) && k !in s.store && k in Next(h, s, step).store
    ensures Next(h, s, step).store[k].uid == s.uids
  {
  }

  /** An object with an identity that was handed out before a step was there before the step. */
  lemma OldUidLived<R(!new), V(!new)>(h: Handler<R, V>, s: Sys<R, V>, step: Step<R, V>, k: Key)
    requires Sane(h) && Inv(h, s) && Enabled(h, s, step)
    requires k in Next(h, s, step).store && Next(h, s, step).store[k].uid < s.uids
    ensures k in s.store && s.store[k].uid == Next(h, s, step).store[k].uid
  {
    if k in s.store {
      StepKeepsObject(h, s, step, k);
    } else {
      NewObjectIsFresh(h, s, step, k);
    }
  }

  lemma UidIsOld<R(!new), V(!new)>(
    h: Handler<R, V>, ss: seq<Sys<R, V>>, steps: seq<Step<R, V>>, i: nat, j: nat, k: Key)
    requires Sane(h) && IsRun(h, ss, steps) && i <= j <= |steps| && k in ss[i].store
    ensures ss[i].store[k].uid < ss[j].uids
  {
    UidsGrow(h, ss, steps, i, j);
    RunInv(h, ss, steps, i);
  }

  lemma RunOldUidLived<R(!new), V(!new)>(h: Handler<R, V>, ss: seq<Sys<R, V>>, steps: seq<Step<R, V>>, n: nat, k: Key)
    requires Sane(h) && IsRun(h, ss, steps) && n < |steps|
    requires k in ss[n + 1].store && ss[n + 1].store[k].uid < ss[n].uids
    ensures k in ss[n].store && ss[n].store[k].uid == ss[n + 1].store[k].uid
  {
    RunInv(h, ss, steps, n);
    OldUidLived(h, ss[n], steps[n], k);
  }

  /** An identity once used is never given to another object, so equal identities mean that the
      object was there all along. */
  lemma {:induction false} SameUidLived<R(!new), V(!new)>(
    h: Handler<R, V>, ss: seq<Sys<R, V>>, steps: seq<Step<R, V>>, i: nat, j: nat, k: Key)
    requires Sane(h) && IsRun(h, ss, steps) && i < j <= |steps|
    requires k in ss[i].store && k in ss[j].store && ss[i].store[k].uid == ss[j].store[k].uid
    ensures k in ss[j - 1].store && ss[j - 1].store[k].uid == ss[j].store[k].uid
  {
    UidIsOld(h, ss, steps, i, j - 1, k);
    RunOldUidLived(h, ss, steps, j - 1, k);
  }

  lemma {:induction false} UidsGrow<R, V>(h: Handler<R, V>, ss: seq<Sys<R, V>>, steps: seq<Step<R, V>>, i: nat, j: nat)
    requires IsRun(h, ss, steps) && i <= j <= |steps|
    ensures ss[i].uids <= ss[j].uids
  {
    if i < j {
      UidsGrow(h, ss, steps, i, j - 1);
    }
  }

  /** Between the creation and the deletion of an object its version never decreases. */
  lemma {:induction false} VersionNeverDecreases<R(!new), V(!new)>(
    h: Handler<R, V>, ss: seq<Sys<R, V>>, steps: seq<Step<R, V>>, i: nat, j: nat, k: Key)
    requires Sane(h) && IsRun(h, ss, steps) && i <= j <= |steps|
    requires k in ss[i].store && k in ss[j].store && ss[i].store[k].uid == ss[j].store[k].uid
    ensures var m, m' := h.measure(ss[i].store[k].value), h.measure(ss[j].store[k].value);
            m == m' || Advances(m, m', h.gap)
    decreases j
  {
    if i < j {
      SameUidLived(h, ss, steps, i, j, k);
      VersionNeverDecreases(h, ss, steps, i, j - 1, k);
      RunInv(h, ss, steps, j - 1);
      StepKeepsObject(h, ss[j - 1], steps[j - 1], k);
    }
  }

  // ----- A rejected report writes nothing -----

  /** A handler has written once for every phase behind it, and once if it created the object. */
  ghost predicate WroteBy<R, V>(s: Sys<R, V>, tid: nat) {
    tid in s.threads ==>
      var th := s.threads[tid];
      match th.pc
      case Begin => !th.created && Count(s.log, tid) == 0
      case Creating => !th.created && Count(s.log, tid) == 0
      case Reading(phase, _) => Count(s.log, tid) == Creations(th) + phase
      case Writing(phase, _, _) => Count(s.log, tid) == Creations(th) + phase
      case Finished(_) => true
  }

  function Creations<R, V>(th: Thread<R, V>): nat {
    if th.created then 1 else 0
  }

  ghost function Count(log: seq<Write>, tid: nat): nat {
    if log == [] then 0
    else Count(log[..|log| - 1], tid) + if log[|log| - 1].tid == tid then 1 else 0
  }

  lemma CountSnoc(log: seq<Write>, w: Write, tid: nat)
    ensures Count(log + [w], tid) == Count(log, tid) + if w.tid == tid then 1 else 0
  {
    assert (log + [w])[..|log|] == log;
  }

  ghost predicate NoStrangers<R, V>(s: Sys<R, V>) {
    forall w :: w in s.log ==> w.tid in s.threads
  }

  lemma {:induction false} CountNone(log: seq<Write>, tid: nat)
    requires forall w :: w in log ==> w.tid != tid
    ensures Count(log, tid) == 0
  {
    if log != [] {
      CountNone(log[..|log| - 1], tid);
    }
  }

  /** A handler's step changes only its own thread, and writes at most once. */
  lemma ActIsOwn<R, V>(h: Handler<R, V>, s: Sys<R, V>, a: nat)
    requires a in s.threads
    ensures var s' := ActOn(h, s, a);
            && s'.threads.Keys == s.threads.Keys
            && (forall t :: t in s.threads && t != a ==> s'.threads[t] == s.threads[t])
            && (s'.log == s.log || exists w: Write :: w.tid == a && s'.log == s.log + [w])
  {
  }

  lemma CreateKeepsWroteBy<R, V>(h: Handler<R, V>, s: Sys<R, V>, tid: nat)
    requires tid in s.threads && WroteBy(s, tid) && s.threads[tid].pc.Creating?
    ensures WroteBy(ActOn(h, s, tid), tid)
  {
    if h.create.Some? {
      CountSnoc(s.log, Write(tid, s.uids, h.measure(h.create.value(s.threads[tid].report))), tid);
    }
  }

  lemma WriteKeepsWroteBy<R, V>(h: Handler<R, V>, s: Sys<R, V>, tid: nat)
    requires tid in s.threads && WroteBy(s, tid) && s.threads[tid].pc.Writing?
    ensures WroteBy(ActOn(h, s, tid), tid)
  {
    var th := s.threads[tid];
    var pc := th.pc;
    if th.key in s.store && s.store[th.key].rv == pc.snap.rv {
      var value := h.merge(th.report, pc.snap.value, pc.phase);
      var s1 := Put(h, s, tid, pc.snap.uid, value);
      var next := if pc.phase + 1 < h.phases then Reading(pc.phase + 1, h.tries(th.report)) else Finished(Done);
      assert ActOn(h, s, tid) == Goto(s1, tid, next);
      CountSnoc(s.log, Write(tid, pc.snap.uid, h.measure(value)), tid);
    } else {
      var next := if th.key in s.store && pc.left > 1 then Reading(pc.phase, pc.left - 1) else Finished(Failed);
      assert ActOn(h, s, tid) == Goto(s, tid, next);
    }
  }

  lemma ActKeepsWroteBy<R, V>(h: Handler<R, V>, s: Sys<R, V>, tid: nat)
    requires tid in s.threads && WroteBy(s, tid)
    ensures WroteBy(ActOn(h, s, tid), tid)
  {
    match s.threads[tid].pc {
      case Begin =>
      case Creating => CreateKeepsWroteBy(h, s, tid);
      case Reading(_, _) =>
      case Writing(_, _, _) => WriteKeepsWroteBy(h, s, tid);
      case Finished(_) =>
    }
  }

  lemma {:induction false} StepKeepsWroteBy<R(!new), V(!new)>(
    h: Handler<R, V>, s: Sys<R, V>, step: Step<R, V>, tid: nat)
    requires Enabled(h, s, step) && NoStrangers(s) && WroteBy(s, tid)
    ensures NoStrangers(Next(h, s, step)) && WroteBy(Next(h, s, step), tid)
  {
    var s' := Next(h, s, step);
    match step {
      case Spawn(t, _, _) =>
        if t == tid {
          CountNone(s.log, tid);
        }
      case Act(a) =>
        ActIsOwn(h, s, a);
        if a == tid {
          ActKeepsWroteBy(h, s, tid);
        } else if s'.log != s.log {
          CountSnoc(s.log, s'.log[|s.log|], tid);
        }
      case _ =>
    }
  }

  lemma {:induction false} RunWroteBy<R(!new), V(!new)>(
    h: Handler<R, V>, ss: seq<Sys<R, V>>, steps: seq<Step<R, V>>, n: nat, tid: nat)
    requires IsRun(h, ss, steps) && n <= |steps|
    ensures NoStrangers(ss[n]) && WroteBy(ss[n], tid)
  {
    if n > 0 {
      RunWroteBy(h, ss, steps, n - 1, tid);
      StepKeepsWroteBy(h, ss[n - 1], steps[n - 1], tid);
    }
  }

  /** A report whose version check fails changes nothing in that step. It has written nothing at
      all if and only if the check failed in the first phase, on an object it did not create. */
  lemma RejectedWritesNothingIffFirstPhase<R(!new), V(!new)>(
    h: Handler<R, V>, ss: seq<Sys<R, V>>, steps: seq<Step<R, V>>, n: nat, tid: nat)
    requires IsRun(h, ss, steps) && n < |steps| && steps[n] == Act(tid)
    requires ss[n].threads[tid].pc.Reading? && ss[n + 1].threads[tid].pc == Finished(Rejected)
    ensures ss[n + 1].store == ss[n].store
    ensures Count(ss[n + 1].log, tid) == 0 <==> !ss[n].threads[tid].created && ss[n].threads[tid].pc.phase == 0
  {
    RunWroteBy(h, ss, steps, n, tid);
  }

  lemma Extended<R(!new), V(!new)>(h: Handler<R, V>, ss: seq<Sys<R, V>>, steps: seq<Step<R, V>>, step: Step<R, V>)
    returns (ss': seq<Sys<R, V>>, steps': seq<Step<R, V>>)
    requires IsRun(h, ss, steps) && Enabled(h, ss[|steps|], step)
    ensures ss' == ss + [Next(h, ss[|steps|], step)] && steps' == steps + [step] && IsRun(h, ss', steps')
  {
    ss', steps' := ss + [Next(h, ss[|steps|], step)], steps + [step];
  }

  /** A handler at its start writes its first phase in three steps if nothing comes between. */
  lemma FirstPhase<R(!new), V(!new)>(h: Handler<R, V>, ss: seq<Sys<R, V>>, steps: seq<Step<R, V>>, tid: nat)
    returns (ss': seq<Sys<R, V>>, steps': seq<Step<R, V>>)
    requires IsRun(h, ss, steps) && h.phases > 1
    requires var s := ss[|steps|];
             && tid in s.threads && s.threads[tid].pc == Begin && s.threads[tid].key in s.store
             && h.accepts(s.threads[tid].report, s.store[s.threads[tid].key].value)
    ensures IsRun(h, ss', steps') && |steps'| == |steps| + 3 && ss <= ss' && steps <= steps'
    ensures var s, s' := ss[|steps|], ss'[|steps'|];
            var th := s.threads[tid];
            && s'.threads == s.threads[tid := th.(pc := Reading(1, h.tries(th.report)))]
            && th.key in s'.store && s'.store[th.key].value == h.merge(th.report, s.store[th.key].value, 0)
            && s'.store[th.key].uid == s.store[th.key].uid
  {
    var s := ss[|steps|];
    var th := s.threads[tid];
    var s1 := Goto(s, tid, Reading(0, h.tries(th.report)));
    var s2 := Goto(s1, tid, Writing(0, h.tries(th.report), s.store[th.key]));
    ss', steps' := Extended(h, ss, steps, Act(tid));
    assert ss'[|steps'|] == s1;
    ss', steps' := Extended(h, ss', steps', Act(tid));
    assert ss'[|steps'|] == s2;
    ss', steps' := Extended(h, ss', steps', Act(tid));
    assert ss'[|steps'|].threads == s.threads[tid := th.(pc := Reading(1, h.tries(th.report)))];
  }

  /** A handler with two phases can be overtaken between them: it is rejected after it has
      written. */
  lemma OvertakenAfterWriting<R(!new), V(!new)>(h: Handler<R, V>, s0: Sys<R, V>, k: Key, r: R, q: R)
    returns (ss: seq<Sys<R, V>>, steps: seq<Step<R, V>>, n: nat)
    requires Initial(s0) && k in s0.store && h.phases > 1
    requires var v := s0.store[k].value;
             h.accepts(r, v) && h.accepts(q, h.merge(r, v, 0)) && !h.accepts(r, h.merge(q, h.merge(r, v, 0), 0))
    ensures IsRun(h, ss, steps) && |steps| == n + 1 && steps[n] == Act(0) && ss[0] == s0
    ensures ss[n].threads[0].pc.Reading? && ss[n + 1].threads[0].pc == Finished(Rejected)
    ensures Count(ss[n + 1].log, 0) > 0
    ensures k in ss[n + 1].store
    ensures ss[n + 1].store[k].value == h.merge(q, h.merge(r, s0.store[k].value, 0), 0)
  {
    ss, steps := Extended(h, [s0], [], Spawn(0, k, r));
    ss, steps := FirstPhase(h, ss, steps, 0);
    ss, steps := Extended(h, ss, steps, Spawn(1, k, q));
    ss, steps := FirstPhase(h, ss, steps, 1);
    n := |steps|;
    ss, steps := Extended(h, ss, steps, Act(0));
    assert ss[n + 1] == Goto(ss[n], 0, Finished(Rejected));
    RejectedWritesNothingIffFirstPhase(h, ss, steps, n, 0);
  }

  // ----- When a handler writes nothing -----

  /** A report that is too old for a value is too old for every later value. */
  ghost predicate Monotone<R(!new), V(!new)>(h: Handler<R, V>) {
    forall r, v, v' ::
      !h.accepts(r, v) && (h.measure(v) == h.measure(v') || Advances(h.measure(v), h.measure(v'), h.gap)) ==>
        !h.accepts(r, v')
  }

  /** The handler has not written, and is not about to. */
  ghost predicate Quiet<R, V>(s: Sys<R, V>, tid: nat, k: Key, r: R) {
    && tid in s.threads && s.threads[tid].key == k && s.threads[tid].report == r
    && Count(s.log, tid) == 0 && !s.threads[tid].pc.Creating? && !s.threads[tid].pc.Writing?
  }

  lemma StepKeepsQuiet<R(!new), V(!new)>(h: Handler<R, V>, s: Sys<R, V>, step: Step<R, V>, tid: nat, k: Key, r: R)
    requires Enabled(h, s, step) && Quiet(s, tid, k, r) && k in s.store && !h.accepts(r, s.store[k].value)
    ensures Quiet(Next(h, s, step), tid, k, r)
  {
    var s' := Next(h, s, step);
    if step.Act? {
      ActIsOwn(h, s, step.tid);
      if step.tid != tid && s'.log != s.log {
        CountSnoc(s.log, s'.log[|s.log|], tid);
      }
    }
  }

  /** If the object is there when the handler starts, the check fails then, and the object is still
      there in the end, then the handler has written nothing, whatever ran beside it. */
  lemma {:induction false} TooOldWritesNothing<R(!new), V(!new)>(
    h: Handler<R, V>, ss: seq<Sys<R, V>>, steps: seq<Step<R, V>>, i: nat, n: nat, tid: nat, k: Key, r: R)
    requires Sane(h) && Monotone(h) && IsRun(h, ss, steps) && i < n <= |steps| && steps[i] == Spawn(tid, k, r)
    requires k in ss[i].store && k in ss[n].store && ss[n].store[k].uid == ss[i].store[k].uid
    requires !h.accepts(r, ss[i].store[k].value)
    ensures Quiet(ss[n], tid, k, r)
    decreases n
  {
    if n == i + 1 {
      RunWroteBy(h, ss, steps, n, tid);
    } else {
      SameUidLived(h, ss, steps, i, n, k);
      TooOldWritesNothing(h, ss, steps, i, n - 1, tid, k, r);
      VersionNeverDecreases(h, ss, steps, i, n - 1, k);
      StepKeepsQuiet(h, ss[n - 1], steps[n - 1], tid, k, r);
    }
  }

  /** In every continuation of the run in which the object stays, the handler writes nothing. */
  ghost predicate NeverWrites<R(!new), V(!new)>(
    h: Handler<R, V>, ss: seq<Sys<R, V>>, steps: seq<Step<R, V>>, tid: nat, k: Key, uid: nat)
  {
    forall ss': seq<Sys<R, V>>, steps': seq<Step<R, V>> | Continues(h, ss, steps, ss', steps') ::
      k in ss'[|steps'|].store && ss'[|steps'|].store[k].uid == uid ==> Count(ss'[|steps'|].log, tid) == 0
  }

  ghost predicate Continues<R, V>(
    h: Handler<R, V>, ss: seq<Sys<R, V>>, steps: seq<Step<R, V>>, ss': seq<Sys<R, V>>, steps': seq<Step<R, V>>)
  {
    IsRun(h, ss', steps') && ss <= ss' && steps <= steps'
  }

  /** For an object that is there when the handler starts: the handler writes nothing, whatever
      runs beside it, if and only if its report fails the check at that moment. */
  lemma {:induction false} WritesNothingIff<R(!new), V(!new)>(
    h: Handler<R, V>, ss: seq<Sys<R, V>>, steps: seq<Step<R, V>>, tid: nat, k: Key, r: R)
    requires Sane(h) && Monotone(h) && IsRun(h, ss, steps) && h.phases > 1
    requires steps != [] && steps[|steps| - 1] == Spawn(tid, k, r) && k in ss[|steps|].store
    ensures NeverWrites(h, ss, steps, tid, k, ss[|steps|].store[k].uid) <==> !h.accepts(r, ss[|steps|].store[k].value)
  {
    var i := |steps| - 1;
    var s := ss[|steps|];
    assert ss[i].store == s.store && s.threads[tid] == Thread(k, r, Begin, false);
    if h.accepts(r, s.store[k].value) {
      var ss', steps' := FirstPhase(h, ss, steps, tid);
      RunWroteBy(h, ss', steps', |steps'|, tid);
      assert Continues(h, ss, steps, ss', steps');
    } else {
      forall ss': seq<Sys<R, V>>, steps': seq<Step<R, V>> | Continues(h, ss, steps, ss', steps')
        ensures k in ss'[|steps'|].store && ss'[|steps'|].store[k].uid == s.store[k].uid ==>
                  Count(ss'[|steps'|].log, tid) == 0
      {
        if k in ss'[|steps'|].store && ss'[|steps'|].store[k].uid == s.store[k].uid {
          assert steps'[i] == steps[i] && ss'[i] == ss[i];
          TooOldWritesNothing(h, ss', steps', i, |steps'|, tid, k, r);
        }
      }
    }
  }

  // ----- A handler running alone -----

  /** What becomes of a stored value if the phases from `phase` on run undisturbed. */
  ghost function Alone<R, V>(h: Handler<R, V>, r: R, v: V, phase: nat): V
    decreases h.phases - phase
  {
    if phase < h.phases && h.accepts(r, v) then Alone(h, r, h.merge(r, v, phase), phase + 1) else v
  }

  ghost function ActN<R, V>(h: Handler<R, V>, s: Sys<R, V>, tid: nat, n: nat): Sys<R, V>
    requires tid in s.threads
    decreases n
  {
    if n == 0 then s
    else
      ActIsOwn(h, s, tid);
      ActN(h, ActOn(h, s, tid), tid, n - 1)
  }

  /** Without interference a handler finishes the remaining phases and leaves exactly the merged
      value under the same identity, and every other object as it was. */
  lemma {:induction false} AloneFinishes<R(!new), V(!new)>(h: Handler<R, V>, s: Sys<R, V>, tid: nat, n: nat)
    requires tid in s.threads && s.threads[tid].pc.Reading? && s.threads[tid].key in s.store
    requires s.threads[tid].pc.phase < h.phases && n == 2 * (h.phases - s.threads[tid].pc.phase)
    ensures var th, s' := s.threads[tid], ActN(h, s, tid, n);
            && tid in s'.threads && s'.threads[tid].pc.Finished?
            && s'.store.Keys == s.store.Keys
            && s'.store[th.key].value == Alone(h, th.report, s.store[th.key].value, th.pc.phase)
            && s'.store[th.key].uid == s.store[th.key].uid
            && (forall k :: k in s.store && k != th.key ==> s'.store[k] == s.store[k])
    decreases n
  {
    var th := s.threads[tid];
    var v := s.store[th.key].value;
    var s1 := ActOn(h, s, tid);
    if !h.accepts(th.report, v) {
      FinishedStays(h, s1, tid, n - 1);
    } else {
      var s2 := ActOn(h, s1, tid);
      assert s2.store[th.key].value == h.merge(th.report, v, th.pc.phase);
      assert ActN(h, s, tid, n) == ActN(h, s1, tid, n - 1) == ActN(h, s2, tid, n - 2);
      if th.pc.phase + 1 < h.phases {
        AloneFinishes(h, s2, tid, n - 2);
      } else {
        FinishedStays(h, s2, tid, n - 2);
      }
    }
  }

  lemma {:induction false} FinishedStays<R, V>(h: Handler<R, V>, s: Sys<R, V>, tid: nat, n: nat)
    requires tid in s.threads && s.threads[tid].pc.Finished?
    ensures ActN(h, s, tid, n) == s
    decreases n
  {
    if n > 0 {
      FinishedStays(h, s, tid, n - 1);
    }
  }

  /** A handler that finds no object creates one under a fresh identity. */
  lemma CreatesFirst<R(!new), V(!new)>(h: Handler<R, V>, s: Sys<R, V>, tid: nat)
    requires tid in s.threads && s.threads[tid].pc == Begin && s.threads[tid].key !in s.store && h.create.Some?
    ensures var th, s' := s.threads[tid], ActN(h, s, tid, 2);
            && tid in s'.threads && s'.threads[tid] == th.(pc := Reading(0, h.tries(th.report)), created := true)
            && s'.store == s.store[th.key := Cell(s.clock, s.uids, h.create.value(th.report))]
  {
    var s1 := ActOn(h, s, tid);
    assert ActN(h, s, tid, 2) == ActN(h, s1, tid, 1) == ActN(h, ActOn(h, s1, tid), tid, 0);
  }

  lemma {:induction false} ActNAdd<R, V>(h: Handler<R, V>, s: Sys<R, V>, tid: nat, m: nat, n: nat)
    requires tid in s.threads
    ensures tid in ActN(h, s, tid, m).threads
    ensures ActN(h, s, tid, m + n) == ActN(h, ActN(h, s, tid, m), tid, n)
    decreases m
  {
    if m > 0 {
      ActIsOwn(h, s, tid);
      ActNAdd(h, ActOn(h, s, tid), tid, m - 1, n);
    }
  }
}
