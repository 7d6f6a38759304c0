/** One message of one durable consumer, from the broker's backlog through the subscriber and
    the handler and back, over every interleaving and with time: deliveries, acks, naks with a
    delay, acks and naks that never arrive, ack-wait expiry, shutdown and crashes. */
module Consumer {
  import opened SinkHandler

  // router.process_timeout, and the driver's ack_wait; durations in nanoseconds.
  datatype Config = Config(processTimeout: int, ackWait: int)

  const ACK_WAIT_MARGIN := 10_000_000_000

  // What the driver's ValidateWith demands of the two.
  predicate ValidateWith(c: Config) {
    c.ackWait > c.processTimeout + ACK_WAIT_MARGIN
  }

  // One hand-out of the message: sent by the broker, being processed, answered by the handler, done with.
  datatype Attempt =
    | Sent(sent: int)
    | Processing(sent: int, start: int)
    | Answered(sent: int, start: int, handling: Handling, end: int)
    | Over(sent: int)

  // The broker's side: ready to be handed out from a time on, handed out, or acknowledged and gone.
  datatype Broker = Ready(from: int) | Outstanding(since: int) | Gone

  datatype State = State(now: int, broker: Broker, attempts: seq<Attempt>, outcomes: seq<Handling>)

  const INIT := State(0, Ready(0), [], [])

  datatype Step =
    | Tick(d: nat)
    | Offer                        // the broker hands the message out
    | Expire                       // ack wait passed without an ack
    | Start(i: nat)                // the handler takes the message
    | Finish(i: nat, h: Handling)  // the handler returned; the subscriber has the ack or nack
    | AckArrives(i: nat)
    | NakArrives(i: nat, delay: nat)
    | NakAtShutdown(i: nat)        // not handed over, nacked at once
    | Drop(i: nat)                 // the answer is lost, late or never sent
    | Crash                        // the process dies with everything it had in hand

  predicate Live(a: Attempt) {
    !a.Over?
  }

  predicate Enabled(s: State, step: Step, c: Config) {
    match step
    case Tick(_) => true
    case Offer => s.broker.Ready? && s.broker.from <= s.now
    case Expire => s.broker.Outstanding? && s.now >= s.broker.since + c.ackWait
    case Start(i) => i < |s.attempts| && s.attempts[i].Sent?
    case Finish(i, _) => i < |s.attempts| && s.attempts[i].Processing?
    case AckArrives(i) => i < |s.attempts| && s.attempts[i].Answered? && Succeeds(s.attempts[i].handling)
    case NakArrives(i, _) => i < |s.attempts| && s.attempts[i].Answered? && !Succeeds(s.attempts[i].handling)
    case NakAtShutdown(i) => i < |s.attempts| && s.attempts[i].Sent?
    case Drop(i) => i < |s.attempts| && (s.attempts[i].Sent? || s.attempts[i].Answered?)
    case Crash => true
  }

  function Put(s: State, i: nat, a: Attempt): State
    requires i < |s.attempts|
  {
    s.(attempts := s.attempts[i := a])
  }

  // A nak makes the message ready again after the delay, whichever hand-out it answers.
  function Nacked(s: State, delay: nat): State {
    if s.broker.Gone? then s else s.(broker := Ready(s.now + delay))
  }

  function Apply(s: State, step: Step, c: Config): State
    requires Enabled(s, step, c)
  {
    match step
    case Tick(d) => s.(now := s.now + d)
    case Offer => s.(broker := Outstanding(s.now), attempts := s.attempts + [Sent(s.now)])
    case Expire => s.(broker := Ready(s.now))
    case Start(i) => Put(s, i, Processing(s.attempts[i].sent, s.now))
    case Finish(i, h) =>
      Put(s, i, Answered(s.attempts[i].sent, s.attempts[i].start, h, s.now)).(outcomes := s.outcomes + [h])
    case AckArrives(i) => Put(s, i, Over(s.attempts[i].sent)).(broker := Gone)
    case NakArrives(i, delay) => Nacked(Put(s, i, Over(s.attempts[i].sent)), delay)
    case NakAtShutdown(i) => Nacked(Put(s, i, Over(s.attempts[i].sent)), 0)
    case Drop(i) => Put(s, i, Over(s.attempts[i].sent))
    case Crash => s.(attempts := seq(|s.attempts|, i requires 0 <= i < |s.attempts| => Over(s.attempts[i].sent)))
  }

  ghost predicate Run(c: Config, states: seq<State>, steps: seq<Step>) {
    && |states| == |steps| + 1
    && states[0] == INIT
    && forall n :: 0 <= n < |steps| ==>
         Enabled(states[n], steps[n], c) && states[n + 1] == Apply(states[n], steps[n], c)
  }

  // ----- nothing is dropped -----

  predicate Accepted(s: State) {
    exists k :: 0 <= k < |s.outcomes| && Succeeds(s.outcomes[k])
  }

  // Process was called for the message and returned nil, or an error that wraps ErrSkipped.
  ghost predicate ProcessedAtLast(s: State) {
    || Processed(Nil) in s.outcomes
    || exists h :: h in s.outcomes && h.Processed? && h.verdict.Err? && h.verdict.skipped
  }

  lemma AcceptedIsProcessed(s: State)
    ensures Accepted(s) <==> ProcessedAtLast(s)
  {
    if ProcessedAtLast(s) {
      var h :| h in s.outcomes && (h == Processed(Nil) || (h.Processed? && h.verdict.Err? && h.verdict.skipped));
      var k :| 0 <= k < |s.outcomes| && s.outcomes[k] == h;
      assert Succeeds(s.outcomes[k]);
    }
  }

  // An answer on its way is a handling that happened.
  ghost predicate AnswersHappened(s: State) {
    && (forall i :: 0 <= i < |s.attempts| && s.attempts[i].Answered? ==> s.attempts[i].handling in s.outcomes)
    && (s.broker.Gone? ==> Accepted(s))
  }

  lemma StepKeepsAnswers(s: State, step: Step, c: Config)
    requires AnswersHappened(s) && Enabled(s, step, c)
    ensures AnswersHappened(Apply(s, step, c))
  {
    var t := Apply(s, step, c);
    assert s.outcomes <= t.outcomes;
    if s.broker.Gone? {
      var k :| 0 <= k < |s.outcomes| && Succeeds(s.outcomes[k]);
      assert t.outcomes[k] == s.outcomes[k];
    }
  }

  // In every run the message leaves the backlog only after a Process call for it returned nil or ErrSkipped.
  lemma {:induction false} LeavesOnlyAccepted(c: Config, states: seq<State>, steps: seq<Step>, n: nat)
    requires Run(c, states, steps) && n < |states|
    ensures AnswersHappened(states[n])
    ensures states[n].broker.Gone? ==> Accepted(states[n])
    ensures states[n].broker.Gone? ==>
              exists k :: 0 <= k < |states[n].outcomes| &&
                var h := states[n].outcomes[k];
                h == Processed(Nil) || (h.Processed? && h.verdict.Err? && h.verdict.skipped)
    decreases n
  {
    if n > 0 {
      LeavesOnlyAccepted(c, states, steps, n - 1);
      StepKeepsAnswers(states[n - 1], steps[n - 1], c);
    }
    AcceptedIsProcessed(states[n]);
    if states[n].broker.Gone? {
      var k :| 0 <= k < |states[n].outcomes| && Succeeds(states[n].outcomes[k]);
    }
  }

  // An answered hand-out is acked when Process returned nil or ErrSkipped, and nacked otherwise.
  lemma AckedIffProcessed(c: Config, s: State, i: nat, delay: nat)
    requires i < |s.attempts| && s.attempts[i].Answered?
    ensures var h := s.attempts[i].handling;
            Enabled(s, AckArrives(i), c) <==>
              h == Processed(Nil) || (h.Processed? && h.verdict.Err? && h.verdict.skipped)
    ensures Enabled(s, NakArrives(i, delay), c) <==> !Enabled(s, AckArrives(i), c)
  {
  }

  // After a nak that arrives before any ack the message is handed out again once its delay has passed, and not
  // before; after one sent at shutdown, at once.
  lemma NakDelays(c: Config, s: State, i: nat, delay: nat, waited: nat)
    requires !s.broker.Gone?
    ensures Enabled(s, NakArrives(i, delay), c) ==>
              (Enabled(Apply(Apply(s, NakArrives(i, delay), c), Tick(waited), c), Offer, c) <==> waited >= delay)
    ensures Enabled(s, NakAtShutdown(i), c) ==> Enabled(Apply(s, NakAtShutdown(i), c), Offer, c)
  {
  }

  // Once an ack has arrived the message is gone for good: it is never handed out again.
  lemma {:induction false} AckedIsGone(c: Config, states: seq<State>, steps: seq<Step>, m: nat, n: nat)
    requires Run(c, states, steps) && m < n < |states| && steps[m].AckArrives?
    ensures states[n].broker.Gone? && !Enabled(states[n], Offer, c)
    decreases n
  {
    if n > m + 1 {
      AckedIsGone(c, states, steps, m, n - 1);
    }
    assert Enabled(states[n - 1], steps[n - 1], c) && states[n] == Apply(states[n - 1], steps[n - 1], c);
  }

  // Until then the broker still has it: after some wait, and the ack wait's expiry if it is out, it is
  // handed out again.
  lemma StaysUntilAccepted(c: Config, states: seq<State>, steps: seq<Step>, n: nat) returns (d: nat, expires: bool)
    requires Run(c, states, steps) && n < |states| && !Accepted(states[n])
    ensures var waited := Apply(states[n], Tick(d), c);
            if expires then Enabled(waited, Expire, c) && Enabled(Apply(waited, Expire, c), Offer, c)
            else Enabled(waited, Offer, c)
  {
    LeavesOnlyAccepted(c, states, steps, n);
    var s := states[n];
    expires := s.broker.Outstanding?;
    var due := if expires then s.broker.since + c.ackWait else s.broker.from;
    d := if due > s.now then due - s.now else 0;
  }

  // ----- no two Process calls overlap -----

  // Process obeys its deadline, and hand-over plus the answer's way back stay below the margin.
  predicate InTime(c: Config, now: int, a: Attempt) {
    match a
    case Sent(sent) => now - sent < ACK_WAIT_MARGIN
    case Processing(sent, start) => start - sent < ACK_WAIT_MARGIN && now <= start + c.processTimeout
    case Answered(sent, start, _, end) =>
      end <= start + c.processTimeout && (start - sent) + (now - end) < ACK_WAIT_MARGIN
    case Over(_) => true
  }

  ghost predicate Timely(c: Config, s: State) {
    forall i :: 0 <= i < |s.attempts| ==> InTime(c, s.now, s.attempts[i])
  }

  // Only the latest hand-out can be in hand, and while it is, the broker counts its ack wait.
  ghost predicate OneInHand(s: State) {
    && (forall i :: 0 <= i < |s.attempts| ==> s.attempts[i].sent <= s.now)
    && (forall i :: 0 <= i < |s.attempts| - 1 ==> s.attempts[i].Over?)
    && (|s.attempts| > 0 && Live(s.attempts[|s.attempts| - 1]) ==>
          s.broker == Outstanding(s.attempts[|s.attempts| - 1].sent))
  }

  // The ack wait leaves room for the process timeout and the margin. The validation asks for a little more.
  predicate LeavesRoom(c: Config) {
    c.ackWait >= c.processTimeout + ACK_WAIT_MARGIN
  }

  predicate Apart(s: State) {
    forall i, j :: 0 <= i < j < |s.attempts| ==> !s.attempts[i].Processing? || !s.attempts[j].Processing?
  }

  lemma StepKeepsOneInHand(c: Config, s: State, step: Step)
    requires LeavesRoom(c) && c.processTimeout >= 0 && OneInHand(s) && Timely(c, s) && Enabled(s, step, c)
    ensures OneInHand(Apply(s, step, c))
  {
    if |s.attempts| > 0 && Live(s.attempts[|s.attempts| - 1]) {
      assert InTime(c, s.now, s.attempts[|s.attempts| - 1]);
    }
  }

  // While there is room at most one hand-out of the message is in hand at any time of a timely run, so no
  // two Process calls for it overlap.
  lemma {:induction false} NoOverlap(c: Config, states: seq<State>, steps: seq<Step>, n: nat)
    requires LeavesRoom(c) && c.processTimeout >= 0 && Run(c, states, steps) && n < |states|
    requires forall k :: 0 <= k < n ==> Timely(c, states[k])
    ensures OneInHand(states[n]) && Apart(states[n])
    decreases n
  {
    if n > 0 {
      NoOverlap(c, states, steps, n - 1);
      StepKeepsOneInHand(c, states[n - 1], steps[n - 1]);
    }
  }

  function HandOver(c: Config): int {
    if c.ackWait > c.processTimeout then c.ackWait - c.processTimeout else 0
  }

  // The first hand-out starts late, then runs until the ack wait expires, and the second starts at once.
  function OverlapSteps(c: Config): seq<Step>
    requires c.ackWait >= 0 && c.processTimeout >= 0
  {
    [Offer, Tick(HandOver(c)), Start(0), Tick(c.ackWait - HandOver(c)), Expire, Offer, Start(1)]
  }

  function OverlapStates(c: Config): seq<State> {
    var first := Processing(0, HandOver(c));
    [INIT,
     State(0, Outstanding(0), [Sent(0)], []),
     State(HandOver(c), Outstanding(0), [Sent(0)], []),
     State(HandOver(c), Outstanding(0), [first], []),
     State(c.ackWait, Outstanding(0), [first], []),
     State(c.ackWait, Ready(c.ackWait), [first], []),
     State(c.ackWait, Outstanding(c.ackWait), [first, Sent(c.ackWait)], []),
     State(c.ackWait, Outstanding(c.ackWait), [first, Processing(c.ackWait, c.ackWait)], [])]
  }

  lemma OverlapIsTimely(c: Config)
    requires 0 <= c.ackWait < c.processTimeout + ACK_WAIT_MARGIN && c.processTimeout >= 0
    ensures AllTimely(c, OverlapStates(c))
  {
  }

  // Without that room the broker hands the message out again while a timely Process call is still running.
  lemma OverlapWithoutRoom(c: Config)
    requires 0 <= c.ackWait < c.processTimeout + ACK_WAIT_MARGIN && c.processTimeout >= 0
    ensures Run(c, OverlapStates(c), OverlapSteps(c)) && AllTimely(c, OverlapStates(c))
    ensures !Apart(OverlapStates(c)[7])
  {
    hide AllTimely;
    OverlapIsTimely(c);
    var last := OverlapStates(c)[7].attempts;
    assert last[0].Processing? && last[1].Processing?;
  }

  ghost predicate AllTimely(c: Config, states: seq<State>) {
    forall k :: 0 <= k < |states| ==> Timely(c, states[k])
  }

  // No timely run ever lets two Process calls overlap.
  ghost predicate NeverOverlaps(c: Config) {
    forall states, steps, n: nat :: Run(c, states, steps) && AllTimely(c, states) && n < |states| ==> Apart(states[n])
  }

  // The room is exactly what it takes, and every validated configuration has it.
  lemma NeverOverlapsIff(c: Config)
    requires c.processTimeout >= 0 && c.ackWait >= 0
    ensures NeverOverlaps(c) <==> LeavesRoom(c)
    ensures ValidateWith(c) ==> NeverOverlaps(c)
  {
    if LeavesRoom(c) {
      forall states: seq<State>, steps: seq<Step>, n: nat
        | Run(c, states, steps) && AllTimely(c, states) && n < |states|
        ensures Apart(states[n])
      {
        NoOverlap(c, states, steps, n);
      }
    } else {
      OverlapWithoutRoom(c);
      assert |OverlapStates(c)| == 8;
    }
  }
}
