/** The controller tunnel's sender: messages are taken from a bounded channel and sent; a message
    whose sending fails is held and sent again once the health flag is up, unless the channel is
    full while the flag is down. */
module ResendTunnel {

  import opened Options

  const BUFFER_SIZE: nat := 1000

  /** A queued message: its place in the order of queueing, and whether it can be serialized. */
  datatype Msg = Msg(id: nat, serializable: bool)

  /** `queued`, `wire` and `lost` are histories: everything ever put into the channel, everything
      sent without error, and everything given up by the sender. */
  datatype State = State(
    channel: seq<Msg>, held: Option<Msg>, healthy: bool,
    queued: seq<Msg>, wire: seq<Msg>, lost: seq<Msg>)

  const START: State := State([], None, true, [], [], [])

  /** Queue a message; take one and try to send it; look whether to give up the held one; try to
      send the held one again; and the health flag goes down or up. */
  datatype Step =
    | Enqueue(serializable: bool)
    | Take(sent: bool)
    | Wake
    | Resend(sent: bool)
    | Health(up: bool)

  predicate Enabled(s: State, step: Step) {
    match step
    case Enqueue(_) => |s.channel| < BUFFER_SIZE
    case Take(_) => s.held.None? && s.channel != []
    case Wake => s.held.Some? && !s.healthy
    case Resend(_) => s.held.Some? && s.healthy
    case Health(_) => true
  }

  function Next(s: State, step: Step): State
    requires Enabled(s, step)
  {
    match step
    case Enqueue(serializable) =>
      var m := Msg(|s.queued|, serializable);
      s.(channel := s.channel + [m], queued := s.queued + [m])
    case Take(sent) =>
      var m := s.channel[0];
      var s1 := s.(channel := s.channel[1..]);
      if !m.serializable then s1
      else if sent then s1.(wire := s.wire + [m])
      else s1.(healthy := false, held := Some(m))
    case Wake =>
      if |s.channel| == BUFFER_SIZE then s.(held := None, lost := s.lost + [s.held.value]) else s
    case Resend(sent) =>
      if sent then s.(held := None, wire := s.wire + [s.held.value]) else s.(healthy := false)
    case Health(up) => s.(healthy := up)
  }

  /** How many messages the sender has decided about. */
  function Decided(s: State): int {
    |s.queued| - |s.channel| - if s.held.Some? then 1 else 0
  }

  /** Messages of `queued` in the order of queueing, each at most once, from the first `n`. */
  predicate Subsequence(ms: seq<Msg>, queued: seq<Msg>, n: int) {
    && (forall m :: m in ms ==> m.id < |queued| && m.id < n && queued[m.id] == m)
    && (forall i, j :: 0 <= i < j < |ms| ==> ms[i].id < ms[j].id)
  }

  /** The channel and the held message are the end of what was queued. */
  ghost predicate Queued(s: State) {
    && |s.channel| <= BUFFER_SIZE
    && 0 <= Decided(s)
    && (forall i :: 0 <= i < |s.queued| ==> s.queued[i].id == i)
    && s.channel == s.queued[|s.queued| - |s.channel|..]
    && (s.held.Some? ==> s.held.value == s.queued[Decided(s)] && s.held.value.serializable)
  }

  /** Of the first `n` messages, the serializable ones are sent or given up, not both. */
  ghost predicate Accounted(wire: seq<Msg>, lost: seq<Msg>, queued: seq<Msg>, n: int) {
    && Subsequence(wire, queued, n)
    && Subsequence(lost, queued, n)
    && (forall m :: m in wire ==> m.serializable && m !in lost)
    && (forall i :: 0 <= i < n && i < |queued| && queued[i].serializable ==> queued[i] in wire || queued[i] in lost)
  }

  ghost predicate Inv(s: State) {
    Queued(s) && Accounted(s.wire, s.lost, s.queued, Decided(s))
  }

  lemma AppendNext(ms: seq<Msg>, queued: seq<Msg>, n: nat)
    requires Subsequence(ms, queued, n) && n < |queued| && queued[n].id == n
    ensures Subsequence(ms + [queued[n]], queued, n + 1) && queued[n] !in ms
  {
    forall i | 0 <= i < |ms|
      ensures ms[i].id < n
    {
      assert ms[i] in ms;
    }
  }

  lemma AccountNext(wire: seq<Msg>, lost: seq<Msg>, queued: seq<Msg>, n: nat)
    requires Accounted(wire, lost, queued, n) && n < |queued| && queued[n].id == n
    ensures queued[n].serializable ==> Accounted(wire + [queued[n]], lost, queued, n + 1)
    ensures queued[n].serializable ==> Accounted(wire, lost + [queued[n]], queued, n + 1)
    ensures !queued[n].serializable ==> Accounted(wire, lost, queued, n + 1)
  {
    AppendNext(wire, queued, n);
    AppendNext(lost, queued, n);
  }

  lemma EnqueueKeepsQueued(s: State, step: Step)
    requires Queued(s) && step.Enqueue? && Enabled(s, step)
    ensures Queued(Next(s, step))
  {
    var m := Msg(|s.queued|, step.serializable);
    SuffixGrows(s.queued, |s.queued| - |s.channel|, m);
    assert s.held.Some? ==> (s.queued + [m])[Decided(s)] == s.queued[Decided(s)];
  }

  lemma TakeKeepsQueued(s: State, step: Step)
    requires Queued(s) && step.Take? && Enabled(s, step)
    ensures Queued(Next(s, step))
  {
    SuffixShrinks(s.queued, |s.queued| - |s.channel|);
  }

  lemma SuffixGrows(q: seq<Msg>, n: nat, m: Msg)
    requires n <= |q|
    ensures (q + [m])[n..] == q[n..] + [m]
  {
  }

  lemma SuffixShrinks(q: seq<Msg>, n: nat)
    requires n < |q|
    ensures q[n..][0] == q[n] && q[n..][1..] == q[n + 1..]
  {
  }

  /** More queued messages change nothing about the earlier ones. */
  lemma QueuedMore(wire: seq<Msg>, lost: seq<Msg>, queued: seq<Msg>, m: Msg, n: int)
    requires Accounted(wire, lost, queued, n) && n <= |queued|
    ensures Accounted(wire, lost, queued + [m], n)
  {
    assert forall i :: 0 <= i < |queued| ==> (queued + [m])[i] == queued[i];
  }

  lemma EnqueueKeepsInv(s: State, step: Step)
    requires Inv(s) && step.Enqueue? && Enabled(s, step)
    ensures Inv(Next(s, step))
  {
    EnqueueKeepsQueued(s, step);
    QueuedMore(s.wire, s.lost, s.queued, Msg(|s.queued|, step.serializable), Decided(s));
  }

  lemma TakeKeepsInv(s: State, step: Step)
    requires Inv(s) && step.Take? && Enabled(s, step)
    ensures Inv(Next(s, step))
  {
    TakeKeepsQueued(s, step);
    assert s.channel[0] == s.queued[Decided(s)];
    AccountNext(s.wire, s.lost, s.queued, Decided(s));
  }

  lemma HeldKeepsInv(s: State, step: Step)
    requires Inv(s) && (step.Wake? || step.Resend?) && Enabled(s, step)
    ensures Inv(Next(s, step))
  {
    AccountNext(s.wire, s.lost, s.queued, Decided(s));
  }

  lemma NextKeepsInv(s: State, step: Step)
    requires Inv(s) && Enabled(s, step)
    ensures Inv(Next(s, step))
  {
    match step {
      case Enqueue(_) => EnqueueKeepsInv(s, step);
      case Take(_) => TakeKeepsInv(s, step);
      case Wake => HeldKeepsInv(s, step);
      case Resend(_) => HeldKeepsInv(s, step);
      case Health(_) =>
    }
  }

  ghost predicate IsRun(ss: seq<State>, steps: seq<Step>) {
    && |ss| == |steps| + 1 && ss[0] == START
    && forall i :: 0 <= i < |steps| ==> Enabled(ss[i], steps[i]) && ss[i + 1] == Next(ss[i], steps[i])
  }

  lemma {:induction false} RunInv(ss: seq<State>, steps: seq<Step>, n: nat)
    requires IsRun(ss, steps) && n <= |steps|
    ensures Inv(ss[n])
  {
    if n > 0 {
      RunInv(ss, steps, n - 1);
      NextKeepsInv(ss[n - 1], steps[n - 1]);
    }
  }

  /** The messages that the enqueueing steps put into the channel, numbered in their order. */
  function Enqueued(steps: seq<Step>): seq<Msg> {
    if steps == [] then []
    else
      var last := |steps| - 1;
      var ms := Enqueued(steps[..last]);
      if steps[last].Enqueue? then ms + [Msg(|ms|, steps[last].serializable)] else ms
  }

  lemma {:induction false} QueuedIsEnqueued(ss: seq<State>, steps: seq<Step>, n: nat)
    requires IsRun(ss, steps) && n <= |steps|
    ensures ss[n].queued == Enqueued(steps[..n])
  {
    if n > 0 {
      QueuedIsEnqueued(ss, steps, n - 1);
      assert steps[..n][..n - 1] == steps[..n - 1];
    }
  }

  /** Every serializable message is sent, given up, held or still in the channel: exactly one. */
  ghost predicate InOnePlace(s: State) {
    && (forall m :: m in s.wire ==> m !in s.lost && m !in s.channel && s.held != Some(m))
    && (forall m :: m in s.lost ==> m !in s.channel && s.held != Some(m))
    && (forall m :: m in s.queued && m.serializable ==>
                      m in s.wire || m in s.lost || m in s.channel || s.held == Some(m))
  }

  lemma InvInOnePlace(s: State)
    requires Inv(s)
    ensures InOnePlace(s)
  {
    var d := |s.queued| - |s.channel|;
    forall m | m in s.channel
      ensures m.id >= d
    {
      var i :| 0 <= i < |s.channel| && s.channel[i] == m;
      assert m == s.queued[d + i];
    }
    forall m | m in s.queued && m.serializable
      ensures m in s.wire || m in s.lost || m in s.channel || s.held == Some(m)
    {
      if m.id >= d {
        assert s.channel[m.id - d] == m;
      } else if m.id == Decided(s) {
        assert s.held == Some(m);
      }
    }
  }

  /** In every run, whatever the connection does, what was queued is what was put in, in order; what
      is sent is an in-order subsequence of it without duplicates; and every serializable message
      is in exactly one place. */
  lemma SentInOrder(ss: seq<State>, steps: seq<Step>)
    requires IsRun(ss, steps)
    ensures var s := ss[|steps|];
            s.queued == Enqueued(steps) && Subsequence(s.wire, s.queued, |s.queued|) && InOnePlace(s)
  {
    RunInv(ss, steps, |steps|);
    QueuedIsEnqueued(ss, steps, |steps|);
    assert steps[..|steps|] == steps;
    InvInOnePlace(ss[|steps|]);
  }

  predicate GivesUp(s: State, step: Step, m: Msg) {
    step == Wake && s.held == Some(m) && !s.healthy && |s.channel| == BUFFER_SIZE
  }

  /** A message is given up in a run if and only if the sender looked, at some step, while it was
      held with the health flag down and the channel full; and it was not sent before or after. */
  lemma {:induction false} LostIffDownAndFull(ss: seq<State>, steps: seq<Step>, n: nat, m: Msg)
    requires IsRun(ss, steps) && n <= |steps|
    ensures m in ss[n].lost <==> exists i :: 0 <= i < n && GivesUp(ss[i], steps[i], m)
    ensures m in ss[n].lost ==> m !in ss[n].wire
  {
    RunInv(ss, steps, n);
    if n > 0 {
      LostIffDownAndFull(ss, steps, n - 1, m);
      assert m in ss[n].lost <==> m in ss[n - 1].lost || GivesUp(ss[n - 1], steps[n - 1], m);
    }
  }

  /** A send that fails lowers the health flag, and the message is held to be sent again. */
  lemma FailedSendHolds(s: State, step: Step)
    requires Enabled(s, step) && (step == Take(false) || step == Resend(false))
    ensures var m := if step.Take? then s.channel[0] else s.held.value;
            && Next(s, step).wire == s.wire && Next(s, step).lost == s.lost
            && (step.Resend? || m.serializable ==> Next(s, step).held == Some(m) && !Next(s, step).healthy)
  {
  }

  /** While a message is held nothing else is sent. */
  lemma {:induction false} NothingOvertakes(ss: seq<State>, steps: seq<Step>, i: nat, j: nat)
    requires IsRun(ss, steps) && i <= j <= |steps|
    requires forall k :: i <= k <= j ==> ss[k].held.Some?
    ensures ss[j].held == ss[i].held && ss[j].wire == ss[i].wire
    decreases j
  {
    if i < j {
      NothingOvertakes(ss, steps, i, j - 1);
    }
  }

  function Serializable(ms: seq<Msg>): seq<Msg> {
    if ms == [] then [] else (if ms[0].serializable then [ms[0]] else []) + Serializable(ms[1..])
  }

  /** As long as nothing raises the health flag and the channel is not full when the sender looks, a
      held message stays held and nothing is sent, whatever the connection itself is like. */
  lemma {:induction false} HeldUntilRaised(ss: seq<State>, steps: seq<Step>, i: nat, j: nat)
    requires IsRun(ss, steps) && i <= j <= |steps| && ss[i].held.Some? && !ss[i].healthy
    requires forall k :: i <= k < j ==> steps[k] != Health(true)
    requires forall k :: i <= k < j && steps[k] == Wake ==> |ss[k].channel| < BUFFER_SIZE
    ensures ss[j].held == ss[i].held && !ss[j].healthy && ss[j].wire == ss[i].wire && ss[j].lost == ss[i].lost
    decreases j
  {
    if i < j {
      HeldUntilRaised(ss, steps, i, j - 1);
    }
  }

  /** What a sender with the health flag up does, if its sends succeed, until it has nothing left. */
  function Drain(s: State): State
    requires s.healthy
    decreases |s.channel| + if s.held.Some? then 1 else 0
  {
    if s.held.Some? then Drain(Next(s, Resend(true)))
    else if s.channel != [] then Drain(Next(s, Take(true)))
    else s
  }

  /** Once the health flag is up and sends succeed, the held message and then the whole channel are
      sent, in order. */
  lemma {:induction false} DrainSendsAll(s: State)
    requires s.healthy && (s.held.Some? ==> s.held.value.serializable)
    ensures var waiting := (if s.held.Some? then [s.held.value] else []) + s.channel;
            Drain(s) == s.(channel := [], held := None, wire := s.wire + Serializable(waiting))
    decreases |s.channel| + if s.held.Some? then 1 else 0
  {
    if s.held.Some? {
      DrainSendsAll(Next(s, Resend(true)));
      SerializableCons(s.wire, s.held.value, s.channel);
      assert [] + s.channel == s.channel;
    } else if s.channel != [] {
      var s' := Next(s, Take(true));
      DrainSendsAll(s');
      SerializableCons(s.wire, s.channel[0], s.channel[1..]);
      assert [s.channel[0]] + s.channel[1..] == s.channel;
      assert [] + s.channel == s.channel && [] + s'.channel == s.channel[1..];
    }
  }

  /** So it does after a reconnect, whatever the flag was before. */
  lemma ReconnectSendsAll(s: State)
    requires s.held.Some? ==> s.held.value.serializable
    ensures var waiting, s1 := (if s.held.Some? then [s.held.value] else []) + s.channel, Next(s, Health(true));
            && s1.healthy
            && Drain(s1) == s.(healthy := true, channel := [], held := None, wire := s.wire + Serializable(waiting))
  {
    DrainSendsAll(Next(s, Health(true)));
  }

  lemma SerializableCons(wire: seq<Msg>, m: Msg, ms: seq<Msg>)
    ensures wire + Serializable([m] + ms) == (if m.serializable then wire + [m] else wire) + Serializable(ms)
  {
    assert ([m] + ms)[1..] == ms;
  }
}
