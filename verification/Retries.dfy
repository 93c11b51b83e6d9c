/** How a read-check-write handler ends: a conflict is retried from a fresh read, a bounded number
    of times in each phase, and a handler gives up for no other reason. */
module Retries {

  import opened Options
  import opened Optimistic

  // ----- Over runs -----

  /** The handler is about to write an object that has changed since it was read. */
  ghost predicate Conflict<R, V>(s: Sys<R, V>, tid: nat, phase: nat) {
    && tid in s.threads && s.threads[tid].pc.Writing? && s.threads[tid].pc.phase == phase
    && s.threads[tid].key in s.store && s.store[s.threads[tid].key].rv != s.threads[tid].pc.snap.rv
  }

  /** How many conflicts the handler has met in a phase before step `n`. */
  ghost function Conflicts<R, V>(ss: seq<Sys<R, V>>, steps: seq<Step<R, V>>, n: nat, tid: nat, phase: nat): nat
    requires n <= |steps| < |ss|
  {
    if n == 0 then 0
    else
      Conflicts(ss, steps, n - 1, tid, phase)
      + if steps[n - 1] == Act(tid) && Conflict(ss[n - 1], tid, phase) then 1 else 0
  }

  ghost predicate NoneFrom<R, V>(ss: seq<Sys<R, V>>, steps: seq<Step<R, V>>, n: nat, tid: nat, phase: nat)
    requires n <= |steps| < |ss|
  {
    forall p: nat :: phase <= p ==> Conflicts(ss, steps, n, tid, p) == 0
  }

  /** What is left of the tries of a phase is what its conflicts have not used up. */
  ghost predicate Budget<R, V>(h: Handler<R, V>, ss: seq<Sys<R, V>>, steps: seq<Step<R, V>>, n: nat, tid: nat)
    requires n <= |steps| < |ss|
  {
    if tid !in ss[n].threads then NoneFrom(ss, steps, n, tid, 0)
    else
      var th := ss[n].threads[tid];
      match th.pc
      case Begin => NoneFrom(ss, steps, n, tid, 0)
      case Creating => NoneFrom(ss, steps, n, tid, 0)
      case Reading(phase, left) => InPhase(h, ss, steps, n, tid, phase, left)
      case Writing(phase, left, _) => InPhase(h, ss, steps, n, tid, phase, left)
      case Finished(_) => true
  }

  ghost predicate InPhase<R, V>(
    h: Handler<R, V>, ss: seq<Sys<R, V>>, steps: seq<Step<R, V>>, n: nat, tid: nat, phase: nat, left: nat)
    requires n <= |steps| < |ss| && tid in ss[n].threads
  {
    && phase < h.phases && left > 0 && left + Conflicts(ss, steps, n, tid, phase) == h.tries(ss[n].threads[tid].report)
    && NoneFrom(ss, steps, n, tid, phase + 1)
  }

  /** A step of anybody else does not change the count. */
  lemma SameConflicts<R, V>(ss: seq<Sys<R, V>>, steps: seq<Step<R, V>>, n: nat, tid: nat, phase: nat)
    requires n < |steps| < |ss|
    ensures Conflicts(ss, steps, n + 1, tid, phase) ==
            Conflicts(ss, steps, n, tid, phase) + if steps[n] == Act(tid) && Conflict(ss[n], tid, phase) then 1 else 0
  {
  }

  lemma NoneStays<R, V>(ss: seq<Sys<R, V>>, steps: seq<Step<R, V>>, n: nat, tid: nat, phase: nat)
    requires n < |steps| < |ss| && NoneFrom(ss, steps, n, tid, phase)
    requires steps[n] == Act(tid) && tid in ss[n].threads && ss[n].threads[tid].pc.Writing? ==>
               ss[n].threads[tid].pc.phase < phase
    ensures NoneFrom(ss, steps, n + 1, tid, phase)
  {
    var n' := n + 1;
    forall p: nat | phase <= p
      ensures Conflicts(ss, steps, n', tid, p) == 0
    {
      SameConflicts(ss, steps, n, tid, p);
    }
  }

  /** A step that is not the handler's own leaves its thread alone, unless it starts or breaks it. */
  lemma OthersStep<R, V>(h: Handler<R, V>, s: Sys<R, V>, step: Step<R, V>, tid: nat)
    requires Enabled(h, s, step) && step != Act(tid) && step != Crash(tid) && (step.Spawn? ==> step.tid != tid)
    ensures var s' := Next(h, s, step);
            (tid in s'.threads <==> tid in s.threads) && (tid in s.threads ==> s'.threads[tid] == s.threads[tid])
  {
    if step.Act? {
      ActIsOwn(h, s, step.tid);
    }
  }

  lemma OthersKeepBudget<R, V>(h: Handler<R, V>, ss: seq<Sys<R, V>>, steps: seq<Step<R, V>>, n: nat, tid: nat)
    requires IsRun(h, ss, steps) && n < |steps| && Budget(h, ss, steps, n, tid)
    requires steps[n] != Act(tid) && steps[n] != Crash(tid) && (steps[n].Spawn? ==> steps[n].tid != tid)
    ensures Budget(h, ss, steps, n + 1, tid)
  {
    OthersStep(h, ss[n], steps[n], tid);
    if tid !in ss[n].threads {
      NoneStays(ss, steps, n, tid, 0);
    } else {
      match ss[n].threads[tid].pc {
        case Begin => NoneStays(ss, steps, n, tid, 0);
        case Creating => NoneStays(ss, steps, n, tid, 0);
        case Reading(phase, left) => PhaseStays(h, ss, steps, n, tid, phase, left);
        case Writing(phase, left, _) => PhaseStays(h, ss, steps, n, tid, phase, left);
        case Finished(_) =>
      }
    }
  }

  lemma PhaseStays<R, V>(
    h: Handler<R, V>, ss: seq<Sys<R, V>>, steps: seq<Step<R, V>>, n: nat, tid: nat, phase: nat, left: nat)
    requires n < |steps| < |ss| && tid in ss[n].threads && InPhase(h, ss, steps, n, tid, phase, left)
    requires steps[n] != Act(tid) || !ss[n].threads[tid].pc.Writing?
    requires tid in ss[n + 1].threads && ss[n + 1].threads[tid].report == ss[n].threads[tid].report
    ensures InPhase(h, ss, steps, n + 1, tid, phase, left)
  {
    SameConflicts(ss, steps, n, tid, phase);
    NoneStays(ss, steps, n, tid, phase + 1);
  }

  lemma ActKeepsBudget<R(!new), V(!new)>(
    h: Handler<R, V>, ss: seq<Sys<R, V>>, steps: seq<Step<R, V>>, n: nat, tid: nat)
    requires Sane(h) && IsRun(h, ss, steps) && n < |steps| && Budget(h, ss, steps, n, tid) && steps[n] == Act(tid)
    ensures Budget(h, ss, steps, n + 1, tid)
  {
    var th, th' := ss[n].threads[tid], ss[n + 1].threads[tid];
    assert ss[n + 1] == ActOn(h, ss[n], tid);
    match th.pc {
      case Begin => NoneStays(ss, steps, n, tid, 0);
      case Creating => NoneStays(ss, steps, n, tid, 0);
      case Reading(phase, left) => PhaseStays(h, ss, steps, n, tid, phase, left);
      case Writing(phase, left, _) =>
        SameConflicts(ss, steps, n, tid, phase);
        NoneStays(ss, steps, n, tid, phase + 1);
    }
  }

  lemma {:induction false} RunBudget<R(!new), V(!new)>(
    h: Handler<R, V>, ss: seq<Sys<R, V>>, steps: seq<Step<R, V>>, n: nat, tid: nat)
    requires Sane(h) && IsRun(h, ss, steps) && n <= |steps|
    ensures Budget(h, ss, steps, n, tid)
  {
    if n > 0 {
      RunBudget(h, ss, steps, n - 1, tid);
      var step := steps[n - 1];
      if step == Act(tid) {
        ActKeepsBudget(h, ss, steps, n - 1, tid);
      } else if step.Spawn? && step.tid == tid {
        NoneStays(ss, steps, n - 1, tid, 0);
      } else if step != Crash(tid) {
        OthersKeepBudget(h, ss, steps, n - 1, tid);
      }
    }
  }

  /** In every run a conflict ends the handler if and only if it is the last of the tries of its
      phase. Otherwise the handler reads again, in the same phase. */
  lemma ConflictEndsIff<R(!new), V(!new)>(
    h: Handler<R, V>, ss: seq<Sys<R, V>>, steps: seq<Step<R, V>>, n: nat, tid: nat, phase: nat)
    requires Sane(h) && IsRun(h, ss, steps) && n < |steps| && steps[n] == Act(tid) && Conflict(ss[n], tid, phase)
    ensures var r, pc := ss[n].threads[tid].report, ss[n + 1].threads[tid].pc;
            && ss[n + 1].store == ss[n].store && Conflicts(ss, steps, n + 1, tid, phase) <= h.tries(r)
            && (pc == Finished(Failed) <==> Conflicts(ss, steps, n + 1, tid, phase) == h.tries(r))
            && (pc != Finished(Failed) ==> pc.Reading? && pc.phase == phase)
  {
    RunBudget(h, ss, steps, n, tid);
    SameConflicts(ss, steps, n, tid, phase);
    assert ss[n + 1] == ActOn(h, ss[n], tid);
  }

  /** A handler that found no object creates one, unless somebody else was faster: then it fails,
      and has written nothing at all. */
  lemma CreateRace<R(!new), V(!new)>(
    h: Handler<R, V>, ss: seq<Sys<R, V>>, steps: seq<Step<R, V>>, n: nat, tid: nat)
    requires IsRun(h, ss, steps) && n < |steps| && steps[n] == Act(tid) && ss[n].threads[tid].pc.Creating?
    requires h.create.Some?
    ensures var s, s', th := ss[n], ss[n + 1], ss[n].threads[tid];
            if th.key in s.store
            then s'.threads[tid].pc == Finished(Failed) && s'.store == s.store && Count(s'.log, tid) == 0
            else && s'.threads[tid].pc.Reading? && s'.threads[tid].pc.phase == 0 && Count(s'.log, tid) == 1
                 && s'.store == s.store[th.key := Cell(s.clock, s.uids, h.create.value(th.report))]
  {
    RunWroteBy(h, ss, steps, n, tid);
    RunWroteBy(h, ss, steps, n + 1, tid);
    assert ss[n + 1] == ActOn(h, ss[n], tid);
  }

  lemma DoneByWriting<R, V>(h: Handler<R, V>, s: Sys<R, V>, tid: nat)
    requires tid in s.threads && !s.threads[tid].pc.Finished? && ActOn(h, s, tid).threads[tid].pc == Finished(Done)
    ensures s.threads[tid].pc.Writing? && s.threads[tid].pc.phase + 1 >= h.phases
    ensures exists w: Write :: w.tid == tid && ActOn(h, s, tid).log == s.log + [w]
  {
    ActIsOwn(h, s, tid);
  }

  /** A handler ends as done only if it has written once for every phase, and once more if it
      created the object. */
  lemma DoneWroteAll<R(!new), V(!new)>(
    h: Handler<R, V>, ss: seq<Sys<R, V>>, steps: seq<Step<R, V>>, n: nat, tid: nat)
    requires Sane(h) && IsRun(h, ss, steps) && n < |steps| && tid in ss[n].threads && !ss[n].threads[tid].pc.Finished?
    requires ss[n + 1].threads[tid].pc == Finished(Done)
    ensures Count(ss[n + 1].log, tid) == Creations(ss[n].threads[tid]) + h.phases
  {
    if steps[n] != Act(tid) && steps[n] != Crash(tid) {
      OthersStep(h, ss[n], steps[n], tid);
    } else {
      var s := ss[n];
      RunBudget(h, ss, steps, n, tid);
      RunWroteBy(h, ss, steps, n, tid);
      DoneByWriting(h, s, tid);
      var w: Write :| w.tid == tid && ss[n + 1].log == s.log + [w];
      CountSnoc(s.log, w, tid);
    }
  }

  /** How a handler ends otherwise, in every run. Rejected: the stored value fails the check, and
      nothing changes. Failed: it broke off on an error, its object was gone, somebody else was
      faster to create it, or a phase met as many conflicts as it has tries. */
  lemma EndsBefore<R(!new), V(!new)>(
    h: Handler<R, V>, ss: seq<Sys<R, V>>, steps: seq<Step<R, V>>, n: nat, tid: nat)
    requires Sane(h) && IsRun(h, ss, steps) && n < |steps| && tid in ss[n].threads && !ss[n].threads[tid].pc.Finished?
    requires var pc := ss[n + 1].threads[tid].pc; pc == Finished(Rejected) || pc == Finished(Failed)
    ensures var s, th, o := ss[n], ss[n].threads[tid], ss[n + 1].threads[tid].pc.outcome;
            && ss[n + 1].store == s.store
            && (o.Rejected? ==> th.key in s.store && !h.accepts(th.report, s.store[th.key].value))
            && (o.Failed? ==>
                  || steps[n] == Crash(tid) || th.key !in s.store || th.pc.Creating?
                  || (th.pc.Writing? && Conflicts(ss, steps, n + 1, tid, th.pc.phase) == h.tries(th.report)))
  {
    var s, th := ss[n], ss[n].threads[tid];
    if steps[n] != Act(tid) && steps[n] != Crash(tid) {
      OthersStep(h, s, steps[n], tid);
    } else if steps[n] == Act(tid) {
      assert ss[n + 1] == ActOn(h, s, tid);
      if th.pc.Writing? && th.key in s.store {
        ConflictEndsIff(h, ss, steps, n, tid, th.pc.phase);
      }
    }
  }

  // ----- Alone after a conflict -----

  /** A handler that is about to write over a newer object, and has tries left, ends with the merge
      over that newer object if nothing comes between from then on. */
  lemma RetriesAlone<R(!new), V(!new)>(h: Handler<R, V>, s: Sys<R, V>, tid: nat, n: nat)
    requires tid in s.threads && s.threads[tid].pc.Writing? && s.threads[tid].pc.phase < h.phases
    requires Conflict(s, tid, s.threads[tid].pc.phase) && s.threads[tid].pc.left > 1
    requires n == 1 + 2 * (h.phases - s.threads[tid].pc.phase)
    ensures var th, s' := s.threads[tid], ActN(h, s, tid, n);
            && tid in s'.threads && s'.threads[tid].pc.Finished?
            && s'.store.Keys == s.store.Keys
            && s'.store[th.key].value == Alone(h, th.report, s.store[th.key].value, th.pc.phase)
            && s'.store[th.key].uid == s.store[th.key].uid
            && (forall k :: k in s.store && k != th.key ==> s'.store[k] == s.store[k])
  {
    AloneFinishes(h, ActOn(h, s, tid), tid, n - 1);
  }
}
