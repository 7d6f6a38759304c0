/** The open-once slot shared by drivers that own one connection: at most one open at a
    time, the rest wait for it, a success is kept for good, a failure or a panic is not. */
module SingleFlight {
  import opened Wrappers

  // The slot as a value. `call` names the caller whose attempt is in flight.
  datatype Slot<+T> = Slot(kept: Option<T>, call: Option<nat>)

  datatype Entry<+T> = Hit(value: T) | Wait(call: nat) | Start | Nothing

  datatype Outcome<+T> = Opened(value: T) | Failed | Panicked

  // The locked section at the top of Do.
  function Enter<T>(s: Slot<T>, caller: nat): (Slot<T>, Entry<T>) {
    if s.kept.Some? then (s, Hit(s.kept.value))
    else if s.call.Some? then (s, Wait(s.call.value))
    else (s.(call := Some(caller)), Start)
  }

  // The locked section of an attempt's deferred cleanup.
  function Leave<T>(s: Slot<T>, out: Outcome<T>): Slot<T> {
    Slot(if out.Opened? then Some(out.value) else s.kept, None)
  }

  // The locked section of Peek, which starts nothing.
  function Look<T>(s: Slot<T>): Entry<T> {
    if s.kept.Some? then Hit(s.kept.value)
    else if s.call.Some? then Wait(s.call.value)
    else Nothing
  }

  /** The slot as the object callers share. Each method is one section under its mutex. */
  class Flight<T(0)> {
    var ready: bool
    var value: T
    var inFlight: bool
    var call: nat

    ghost function View(): Slot<T>
      reads this
    {
      Slot(if ready then Some(value) else None, if inFlight then Some(call) else None)
    }

    constructor ()
      ensures View() == Slot(None, None)
    {
      ready, inFlight := false, false;
    }

    method DoEnter(caller: nat) returns (e: Entry<T>)
      modifies this`inFlight, this`call
      ensures (View(), e) == Enter(old(View()), caller)
    {
      if ready {
        return Hit(value);
      }
      if inFlight {
        return Wait(call);
      }
      inFlight, call := true, caller;
      return Start;
    }

    method AttemptLeave(out: Outcome<T>)
      modifies this
      ensures View() == Leave(old(View()), out)
    {
      inFlight := false;
      if out.Opened? {
        ready, value := true, out.value;
      }
    }

    method PeekLook() returns (e: Entry<T>)
      ensures e == Look(View())
    {
      if ready {
        return Hit(value);
      }
      return if inFlight then Wait(call) else Nothing;
    }
  }
}

/** Every interleaving of any number of Publish (or Write) calls with any number of Close
    calls on an owner that opens its target through one slot. A call is one process; each
    section under a mutex, each open, close and channel operation is one step. */
module OpenOnce {
  import opened Wrappers
  import opened SingleFlight

  // A Publish call makes at most one attempt and an attempt at most one bus, so a call,
  // its attempt's done channel and the bus it opened share the call's number.
  type Pid = nat

  datatype PC =
    | Entering
    | AtDo
    | Waiting(on: Pid)
    | Opening
    | Produced
    | Keeping
    | Refusing
    | Ending(out: Outcome<Pid>)
    | Signalling(out: Outcome<Pid>)
    | Using(bus: Pid)
    | CloseBegin
    | Peeking
    | PeekWaiting(on: Pid)
    | Closing(bus: Pid)
    | Done

  datatype Step =
    | Publish(p: Pid)
    | Close(p: Pid)
    | CheckClosed(p: Pid)
    | Do(p: Pid)
    | Wake(p: Pid)
    | Cancel(p: Pid)
    | OpenFails(p: Pid)
    | OpenPanics(p: Pid)
    | OpenProduces(p: Pid)
    | CheckInside(p: Pid)
    | Refuse(p: Pid)
    | Keep(p: Pid)
    | KeepPanics(p: Pid)
    | Leaving(p: Pid)
    | Signal(p: Pid)
    | Use(p: Pid)
    | MarkClosed(p: Pid)
    | Peek(p: Pid)
    | CloseBus(p: Pid)

  /** successes counts the attempts that ended with a bus; closer is the Close that set the
      flag; produced, closes and lost are the buses opened, how often each was closed, and
      those whose attempt panicked after opening them. */
  datatype State = State(
    procs: map<Pid, PC>,
    slot: Slot<Pid>,
    signalled: set<Pid>,
    closed: bool,
    closer: Option<Pid>,
    successes: nat,
    produced: set<Pid>,
    closes: map<Pid, nat>,
    lost: set<Pid>)

  const INIT: State := State(map[], Slot(None, None), {}, false, None, 0, {}, map[], {})

  function At(s: State, p: Pid): Option<PC> {
    if p in s.procs then Some(s.procs[p]) else None
  }

  function Go(s: State, p: Pid, pc: PC): State {
    s.(procs := s.procs[p := pc])
  }

  function Closes(s: State, r: Pid): nat {
    if r in s.closes then s.closes[r] else 0
  }

  function CloseOne(s: State, r: Pid): State {
    s.(closes := s.closes[r := Closes(s, r) + 1])
  }

  // Where p stands; Done also for a p that has not begun, which no step but the first two accepts.
  function PCOf(s: State, p: Pid): PC {
    if p in s.procs then s.procs[p] else Done
  }

  predicate Enabled(s: State, step: Step) {
    var pc := PCOf(s, step.p);
    match step
    case Publish(p) => p !in s.procs
    case Close(p) => p !in s.procs
    case CheckClosed(_) => pc.Entering?
    case Do(_) => pc.AtDo?
    case Wake(_) => (pc.Waiting? || pc.PeekWaiting?) && pc.on in s.signalled
    case Cancel(_) => pc.Waiting?
    case OpenFails(_) => pc.Opening?
    case OpenPanics(_) => pc.Opening?
    case OpenProduces(_) => pc.Opening?
    case CheckInside(_) => pc.Produced?
    case Refuse(_) => pc.Refusing?
    case Keep(_) => pc.Keeping?
    case KeepPanics(_) => pc.Keeping?
    case Leaving(_) => pc.Ending?
    case Signal(_) => pc.Signalling?
    case Use(_) => pc.Using?
    case MarkClosed(_) => pc.CloseBegin?
    case Peek(_) => pc.Peeking?
    case CloseBus(_) => pc.Closing?
  }

  function NextPC(s: State, step: Step): PC
    requires Enabled(s, step)
  {
    var pc := PCOf(s, step.p);
    match step
    case Publish(_) => Entering
    case Close(_) => CloseBegin
    case CheckClosed(_) => if s.closed then Done else AtDo
    case Do(p) => (match Enter(s.slot, p).1 case Hit(v) => Using(v) case Wait(c) => Waiting(c) case _ => Opening)
    case Wake(_) => if pc.Waiting? then AtDo else Peeking
    case Cancel(_) => Done
    case OpenFails(_) => Ending(Failed)
    case OpenPanics(_) => Ending(Panicked)
    case OpenProduces(_) => Produced
    case CheckInside(_) => if s.closed then Refusing else Keeping
    case Refuse(_) => Ending(Failed)
    case Keep(p) => Ending(Opened(p))
    case KeepPanics(_) => Ending(Panicked)
    case Leaving(_) => Signalling(pc.out)
    case Signal(_) => if pc.out.Opened? then Using(pc.out.value) else Done
    case Use(_) => Done
    case MarkClosed(_) => if s.closed then Done else Peeking
    case Peek(_) => (match Look(s.slot) case Hit(v) => Closing(v) case Wait(c) => PeekWaiting(c) case _ => Done)
    case CloseBus(_) => Done
  }

  // What step changes beside its own process.
  function Effect(s: State, step: Step): State
    requires Enabled(s, step)
  {
    var pc := PCOf(s, step.p);
    match step
    case Do(p) => s.(slot := Enter(s.slot, p).0)
    case OpenProduces(p) => s.(produced := s.produced + {p})
    case Refuse(p) => CloseOne(s, p)
    case KeepPanics(p) => s.(lost := s.lost + {p})
    case Leaving(_) => s.(slot := Leave(s.slot, pc.out), successes := s.successes + if pc.out.Opened? then 1 else 0)
    case Signal(p) => s.(signalled := s.signalled + {p})
    case MarkClosed(p) => if s.closed then s else s.(closed := true, closer := Some(p))
    case CloseBus(_) => CloseOne(s, pc.bus)
    case _ => s
  }

  function Apply(s: State, step: Step): State
    requires Enabled(s, step)
  {
    Go(Effect(s, step), step.p, NextPC(s, step))
  }

  // A run: every step was enabled where it was taken.
  ghost predicate Reaches(s: State, steps: seq<Step>, t: State)
    decreases |steps|
  {
    if steps == [] then t == s
    else Enabled(s, steps[0]) && Reaches(Apply(s, steps[0]), steps[1..], t)
  }

  // An attempt holds the slot from its start until its cleanup clears it.
  predicate Active(pc: PC) {
    pc.Opening? || pc.Produced? || pc.Keeping? || pc.Refusing? || pc.Ending?
  }

  predicate IsActive(s: State, p: Pid) {
    p in s.procs && Active(s.procs[p])
  }

  // p will still close its done channel.
  predicate WillSignal(s: State, p: Pid) {
    p in s.procs && (Active(s.procs[p]) || s.procs[p].Signalling?)
  }

  // The slot names a caller exactly while that caller's attempt runs, so at most one runs;
  // at most one attempt ever succeeds, and none starts after it.
  ghost predicate Exclusive(s: State) {
    && (forall p: Pid :: s.slot.call == Some(p) <==> IsActive(s, p))
    && (s.slot.kept.Some? ==> s.slot.call == None)
    && s.successes == (if s.slot.kept.Some? then 1 else 0)
  }

  predicate Waits(s: State, p: Pid, on: Pid) {
    p in s.procs && (s.procs[p] == Waiting(on) || s.procs[p] == PeekWaiting(on))
  }

  // Nobody waits on a channel that is neither closed nor going to be.
  ghost predicate NobodyStranded(s: State) {
    forall p: Pid, on: Pid :: Waits(s, p, on) ==> on in s.signalled || WillSignal(s, on)
  }

  predicate EndsWith(s: State, p: Pid, v: Pid) {
    p in s.procs && (s.procs[p] == Ending(Opened(v)) || s.procs[p] == Signalling(Opened(v)))
  }

  // An attempt that succeeds offers the bus it opened, and callers get what the slot keeps.
  ghost predicate Results(s: State) {
    OffersOwn(s) && UsesKept(s) && SignalsKept(s)
  }

  ghost predicate OffersOwn(s: State) {
    forall p: Pid, v: Pid :: EndsWith(s, p, v) ==> v == p
  }

  ghost predicate UsesKept(s: State) {
    forall p: Pid :: p in s.procs && s.procs[p].Using? ==> s.slot.kept == Some(s.procs[p].bus)
  }

  ghost predicate SignalsKept(s: State) {
    forall p: Pid :: p in s.procs && s.procs[p] == Signalling(Opened(p)) ==> s.slot.kept == Some(p)
  }

  ghost predicate SlotInv(s: State) {
    Exclusive(s) && NobodyStranded(s) && Results(s)
  }

  // ----- ownership -----

  // The attempt that produced r still has it in hand.
  predicate InHand(s: State, r: Pid) {
    && r in s.procs
    && var pc := s.procs[r];
       pc.Produced? || pc.Keeping? || pc.Refusing? || (pc.Ending? && pc.out.Opened?)
  }

  // r's attempt has seen the owner open and will offer the bus to the slot.
  predicate WillKeep(s: State, r: Pid) {
    r in s.procs && (s.procs[r].Keeping? || (s.procs[r].Ending? && s.procs[r].out.Opened?))
  }

  predicate CloserIn(s: State, pc: PC) {
    s.closer.Some? && At(s, s.closer.value) == Some(pc)
  }

  predicate CloserSettling(s: State) {
    && s.closer.Some? && s.closer.value in s.procs
    && (s.procs[s.closer.value].Peeking? || s.procs[s.closer.value].PeekWaiting?)
  }

  // How often r has been closed: never in hand or when lost, once by the Close when kept, once by its
  // attempt otherwise.
  function ClosesDue(s: State, r: Pid): nat {
    if r in s.lost || InHand(s, r) then 0
    else if s.slot.kept == Some(r) then (if CloserIn(s, Done) then 1 else 0)
    else 1
  }

  // One Close set the flag, and only that one looks into the slot.
  ghost predicate CloserInv(s: State) {
    CloserOk(s) && OnlyCloser(s)
  }

  ghost predicate CloserOk(s: State) {
    && (s.closed <==> s.closer.Some?)
    && (s.closed ==>
          && s.closer.value in s.procs
          && var pc := s.procs[s.closer.value];
             pc.Peeking? || pc.PeekWaiting? || pc.Done? || (pc.Closing? && s.slot.kept == Some(pc.bus)))
  }

  ghost predicate OnlyCloser(s: State) {
    && (forall p: Pid ::
          p in s.procs && (s.procs[p].Peeking? || s.procs[p].PeekWaiting? || s.procs[p].Closing?) ==>
            s.closer == Some(p))
    && (forall p: Pid :: p in s.procs && s.procs[p].Refusing? ==> s.closed)
  }

  predicate BeforeOpen(pc: PC) {
    pc.Entering? || pc.AtDo? || pc.Waiting? || pc.Opening?
  }

  ghost predicate BusInv(s: State) {
    forall r: Pid :: BusOk(s, r)
  }

  ghost predicate ClosesInv(s: State) {
    forall r: Pid :: ClosesOk(s, r)
  }

  // Once the Close has looked and found nothing kept, no attempt will offer a bus any more.
  ghost predicate ShutInv(s: State) {
    s.closed && !CloserSettling(s) && s.slot.kept == None ==> forall r: Pid :: !WillKeep(s, r)
  }

  ghost predicate OwnerInv(s: State) {
    CloserInv(s) && BusInv(s) && ClosesInv(s) && ShutInv(s)
  }

  ghost predicate Inv(s: State) {
    SlotInv(s) && OwnerInv(s)
  }

  lemma StepKeepsExclusive(s: State, step: Step)
    requires SlotInv(s) && Enabled(s, step)
    ensures Exclusive(Apply(s, step))
  {
    var t := Apply(s, step);
    assert forall p: Pid :: p != step.p ==> IsActive(t, p) == IsActive(s, p);
    assert IsActive(s, step.p) <==> s.slot.call == Some(step.p);
  }

  lemma StepStrandsNobody(s: State, step: Step)
    requires SlotInv(s) && Enabled(s, step)
    ensures NobodyStranded(Apply(s, step))
  {
    var t := Apply(s, step);
    assert s.slot.call.Some? ==> IsActive(s, s.slot.call.value);
    forall p: Pid, on: Pid | Waits(t, p, on)
      ensures on in t.signalled || WillSignal(t, on)
    {
      if Waits(s, p, on) {
        assert on in s.signalled || WillSignal(s, on);
      }
    }
  }

  // What holds of the process about to move.
  predicate MoverOk(s: State, p: Pid) {
    p in s.procs ==>
      && (Active(s.procs[p]) ==> s.slot.call == Some(p) && s.slot.kept == None)
      && (s.procs[p].Ending? && s.procs[p].out.Opened? ==> s.procs[p].out.value == p)
      && (s.procs[p].Signalling? && s.procs[p].out.Opened? ==> s.procs[p].out.value == p && s.slot.kept == Some(p))
  }

  lemma Mover(s: State, p: Pid)
    requires SlotInv(s)
    ensures MoverOk(s, p)
  {
    if p in s.procs {
      assert IsActive(s, p) ==> s.slot.call == Some(p);
      if (s.procs[p].Ending? || s.procs[p].Signalling?) && s.procs[p].out.Opened? {
        assert EndsWith(s, p, s.procs[p].out.value);
      }
    }
  }

  lemma StepKeepsOffers(s: State, step: Step)
    requires Results(s) && MoverOk(s, step.p) && Enabled(s, step)
    ensures OffersOwn(Apply(s, step))
  {
    var t := Apply(s, step);
    forall p: Pid, v: Pid | EndsWith(t, p, v) && p != step.p
      ensures v == p
    {
      assert EndsWith(s, p, v);
    }
  }

  lemma StepKeepsUses(s: State, step: Step)
    requires Results(s) && MoverOk(s, step.p) && Enabled(s, step)
    ensures UsesKept(Apply(s, step))
  {
  }

  lemma StepKeepsSignals(s: State, step: Step)
    requires Results(s) && MoverOk(s, step.p) && Enabled(s, step)
    ensures SignalsKept(Apply(s, step))
  {
  }

  lemma StepKeepsResults(s: State, step: Step)
    requires Results(s) && MoverOk(s, step.p) && Enabled(s, step)
    ensures Results(Apply(s, step))
  {
    hide Apply;
    StepKeepsOffers(s, step);
    StepKeepsUses(s, step);
    StepKeepsSignals(s, step);
  }

  lemma StepKeepsCloser(s: State, step: Step)
    requires CloserInv(s) && MoverOk(s, step.p) && Enabled(s, step)
    ensures CloserOk(Apply(s, step))
  {
  }

  lemma StepKeepsOneCloser(s: State, step: Step)
    requires CloserInv(s) && MoverOk(s, step.p) && Enabled(s, step)
    ensures OnlyCloser(Apply(s, step))
  {
  }

  lemma StepKeepsCloserInv(s: State, step: Step)
    requires CloserInv(s) && MoverOk(s, step.p) && Enabled(s, step)
    ensures CloserInv(Apply(s, step))
  {
    hide Apply;
    StepKeepsCloser(s, step);
    StepKeepsOneCloser(s, step);
  }

  predicate BusOk(s: State, r: Pid) {
    && (InHand(s, r) ==> r in s.produced && r !in s.lost)
    && (r in s.produced ==> r in s.procs && !BeforeOpen(s.procs[r]) && !s.procs[r].CloseBegin? && s.closer != Some(r))
    && (r in s.lost || r in s.closes ==> r in s.produced)
    && (s.slot.kept == Some(r) ==> r in s.produced && r !in s.lost && !InHand(s, r))
  }

  lemma StepKeepsBusOk(s: State, step: Step, r: Pid)
    requires BusOk(s, r) && MoverOk(s, step.p) && CloserInv(s) && Enabled(s, step)
    ensures BusOk(Apply(s, step), r)
  {
    if r != step.p {
      assert InHand(Apply(s, step), r) == InHand(s, r);
    }
  }

  lemma StepKeepsBusInv(s: State, step: Step)
    requires BusInv(s) && MoverOk(s, step.p) && CloserInv(s) && Enabled(s, step)
    ensures BusInv(Apply(s, step))
  {
    forall r: Pid
      ensures BusOk(Apply(s, step), r)
    {
      assert BusOk(s, r);
      StepKeepsBusOk(s, step, r);
    }
  }

  ghost predicate ClosesOk(s: State, r: Pid) {
    r in s.produced ==> Closes(s, r) == ClosesDue(s, r) && (!s.closed ==> Closes(s, r) == 0)
  }

  lemma OwnStepKeepsCloses(s: State, step: Step)
    requires BusOk(s, step.p) && CloserInv(s) && ShutInv(s) && MoverOk(s, step.p) && Enabled(s, step)
    requires ClosesOk(s, step.p)
    ensures ClosesOk(Apply(s, step), step.p)
  {
    assert WillKeep(s, step.p) ==> !s.closed || CloserSettling(s) || s.slot.kept.Some?;
  }

  lemma OthersStepKeepsCloses(s: State, step: Step, r: Pid)
    requires BusOk(s, r) && CloserInv(s) && MoverOk(s, step.p) && Enabled(s, step) && r != step.p
    requires ClosesOk(s, r)
    ensures ClosesOk(Apply(s, step), r)
  {
    assert InHand(Apply(s, step), r) == InHand(s, r);
  }

  lemma StepKeepsClosesInv(s: State, step: Step)
    requires BusInv(s) && CloserInv(s) && ShutInv(s) && ClosesInv(s) && MoverOk(s, step.p) && Enabled(s, step)
    ensures ClosesInv(Apply(s, step))
  {
    forall r: Pid
      ensures ClosesOk(Apply(s, step), r)
    {
      assert BusOk(s, r);
      if r == step.p {
        OwnStepKeepsCloses(s, step);
      } else {
        OthersStepKeepsCloses(s, step, r);
      }
    }
  }

  lemma StepKeepsShutInv(s: State, step: Step)
    requires SlotInv(s) && CloserInv(s) && ShutInv(s) && MoverOk(s, step.p) && Enabled(s, step)
    ensures ShutInv(Apply(s, step))
  {
    var t := Apply(s, step);
    if t.closed && !CloserSettling(t) && t.slot.kept == None {
      forall r: Pid
        ensures !WillKeep(t, r)
      {
        if WillKeep(s, r) {
          Mover(s, r);
        }
      }
    }
  }

  lemma StepKeepsInv(s: State, step: Step)
    requires Inv(s) && Enabled(s, step)
    ensures Inv(Apply(s, step))
  {
    Mover(s, step.p);
    StepKeepsExclusive(s, step);
    StepStrandsNobody(s, step);
    StepKeepsResults(s, step);
    StepKeepsCloserInv(s, step);
    StepKeepsBusInv(s, step);
    StepKeepsClosesInv(s, step);
    StepKeepsShutInv(s, step);
  }

  lemma {:induction false} RunKeepsInv(s: State, steps: seq<Step>, t: State)
    requires Inv(s) && Reaches(s, steps, t)
    ensures Inv(t)
    decreases |steps|
  {
    if steps != [] {
      StepKeepsInv(s, steps[0]);
      RunKeepsInv(Apply(s, steps[0]), steps[1..], t);
    }
  }

  lemma EveryRunKeepsInv(steps: seq<Step>, t: State)
    requires Reaches(INIT, steps, t)
    ensures Inv(t)
  {
    RunKeepsInv(INIT, steps, t);
  }

  // ----- the guarantees, over every interleaving -----

  // At most one open runs, the slot shows a call exactly while one does, and at most one ever succeeded.
  lemma OneOpenAtATime(steps: seq<Step>, t: State)
    requires Reaches(INIT, steps, t)
    ensures forall p: Pid, q: Pid :: IsActive(t, p) && IsActive(t, q) ==> p == q
    ensures t.slot.call.Some? <==> exists p: Pid :: IsActive(t, p)
    ensures t.successes <= 1 && (t.slot.kept.Some? <==> t.successes == 1)
    ensures t.slot.kept.Some? ==> forall p: Pid :: !IsActive(t, p)
  {
    EveryRunKeepsInv(steps, t);
    if t.slot.call.Some? {
      assert IsActive(t, t.slot.call.value);
    }
  }

  // What the slot keeps is the bus a successful attempt opened, every caller gets that one, and it never changes.
  lemma {:induction false} KeptForGood(s: State, steps: seq<Step>, t: State)
    requires Inv(s) && Reaches(s, steps, t) && s.slot.kept.Some?
    ensures t.slot.kept == s.slot.kept
    ensures s.slot.kept.value in t.produced
    ensures forall p: Pid :: PCOf(t, p).Using? ==> PCOf(t, p).bus == s.slot.kept.value
    decreases |steps|
  {
    if steps != [] {
      Mover(s, steps[0].p);
      StepKeepsInv(s, steps[0]);
      KeptForGood(Apply(s, steps[0]), steps[1..], t);
    } else {
      assert BusOk(t, t.slot.kept.value);
    }
  }

  // Steps a call takes by itself, without a new call starting or a caller giving up.
  predicate Progress(step: Step) {
    !step.Publish? && !step.Close? && !step.Cancel?
  }

  // However attempts failed or panicked, as long as one call has not returned some call can move on.
  lemma NoDeadlock(steps: seq<Step>, t: State, p: Pid) returns (next: Step)
    requires Reaches(INIT, steps, t) && p in t.procs && !t.procs[p].Done?
    ensures Enabled(t, next) && Progress(next)
  {
    EveryRunKeepsInv(steps, t);
    var q := p;
    if t.procs[p].Waiting? || t.procs[p].PeekWaiting? {
      assert Waits(t, p, t.procs[p].on);
      if t.procs[p].on in t.signalled {
        return Wake(p);
      }
      q := t.procs[p].on;
    }
    next := match t.procs[q]
      case Entering => CheckClosed(q)
      case AtDo => Do(q)
      case Opening => OpenFails(q)
      case Produced => CheckInside(q)
      case Keeping => Keep(q)
      case Refusing => Refuse(q)
      case Ending(_) => Leaving(q)
      case Signalling(_) => Signal(q)
      case Using(_) => Use(q)
      case CloseBegin => MarkClosed(q)
      case Peeking => Peek(q)
      case _ => CloseBus(q);
  }

  // Once attempts have ended, every waiter's channel is closed.
  lemma WaitersReleased(steps: seq<Step>, t: State, p: Pid, on: Pid)
    requires Reaches(INIT, steps, t) && Waits(t, p, on) && !WillSignal(t, on)
    ensures Enabled(t, Wake(p))
  {
    EveryRunKeepsInv(steps, t);
  }

  // A bus is lost exactly when its attempt panicked after opening it.
  lemma {:induction false} LostIffPanicked(s: State, steps: seq<Step>, t: State)
    requires Reaches(s, steps, t)
    ensures forall r: Pid :: r in t.lost <==> r in s.lost || KeepPanics(r) in steps
    decreases |steps|
  {
    if steps != [] {
      LostIffPanicked(Apply(s, steps[0]), steps[1..], t);
      assert steps == [steps[0]] + steps[1..];
    }
  }

  // When a Close has begun and every call has returned, each bus ever opened was closed exactly
  // once, save those whose attempt panicked after the open, which were never closed.
  lemma ClosedExactlyOnce(steps: seq<Step>, t: State, r: Pid)
    requires Reaches(INIT, steps, t)
    requires t.closed && forall p :: p in t.procs ==> t.procs[p].Done?
    requires r in t.produced
    ensures Closes(t, r) == if KeepPanics(r) in steps then 0 else 1
  {
    EveryRunKeepsInv(steps, t);
    LostIffPanicked(INIT, steps, t);
    assert BusOk(t, r) && ClosesOk(t, r);
  }

  // No bus is closed before a Close has set the flag, and none is ever closed twice.
  lemma NeverClosedEarlyOrTwice(steps: seq<Step>, t: State, r: Pid)
    requires Reaches(INIT, steps, t)
    ensures !t.closed ==> Closes(t, r) == 0
    ensures Closes(t, r) <= 1
    ensures r !in t.produced ==> Closes(t, r) == 0
  {
    EveryRunKeepsInv(steps, t);
    assert BusOk(t, r) && ClosesOk(t, r);
  }

  lemma {:induction false} OneMoreStep(s: State, steps: seq<Step>, t: State, step: Step)
    requires Reaches(s, steps, t) && Enabled(t, step)
    ensures Reaches(s, steps + [step], Apply(t, step))
    decreases |steps|
  {
    if steps == [] {
      assert [step][1..] == [];
    } else {
      OneMoreStep(Apply(s, steps[0]), steps[1..], t, step);
      assert (steps + [step])[1..] == steps[1..] + [step];
    }
  }

  // A call whose attempt panics after the open, and then a Close.
  const LEAK: seq<Step> :=
    [Publish(0), CheckClosed(0), Do(0), OpenProduces(0), CheckInside(0), KeepPanics(0), Leaving(0), Signal(0),
     Close(1), MarkClosed(1), Peek(1)]

  // The state after i of those steps.
  function Leak(i: nat): State {
    var flying, idle := Slot(None, Some(0)), Slot(None, None);
    if i == 0 then INIT
    else if i == 1 then State(map[0 := Entering], idle, {}, false, None, 0, {}, map[], {})
    else if i == 2 then State(map[0 := AtDo], idle, {}, false, None, 0, {}, map[], {})
    else if i == 3 then State(map[0 := Opening], flying, {}, false, None, 0, {}, map[], {})
    else if i == 4 then State(map[0 := Produced], flying, {}, false, None, 0, {0}, map[], {})
    else if i == 5 then State(map[0 := Keeping], flying, {}, false, None, 0, {0}, map[], {})
    else if i == 6 then State(map[0 := Ending(Panicked)], flying, {}, false, None, 0, {0}, map[], {0})
    else if i == 7 then State(map[0 := Signalling(Panicked)], idle, {}, false, None, 0, {0}, map[], {0})
    else if i == 8 then State(map[0 := Done], idle, {0}, false, None, 0, {0}, map[], {0})
    else if i == 9 then State(map[0 := Done, 1 := CloseBegin], idle, {0}, false, None, 0, {0}, map[], {0})
    else if i == 10 then State(map[0 := Done, 1 := Peeking], idle, {0}, true, Some(1), 0, {0}, map[], {0})
    else State(map[0 := Done, 1 := Done], idle, {0}, true, Some(1), 0, {0}, map[], {0})
  }

  lemma LeakOpens(i: nat)
    requires i < 5
    ensures Enabled(Leak(i), LEAK[i]) && Leak(i + 1) == Apply(Leak(i), LEAK[i])
  {
  }

  lemma LeakPanics(i: nat)
    requires 5 <= i < 8
    ensures Enabled(Leak(i), LEAK[i]) && Leak(i + 1) == Apply(Leak(i), LEAK[i])
  {
  }

  lemma LeakCloses(i: nat)
    requires 8 <= i < 11
    ensures Enabled(Leak(i), LEAK[i]) && Leak(i + 1) == Apply(Leak(i), LEAK[i])
  {
  }

  lemma {:induction false} LeakRuns(n: nat)
    requires n <= |LEAK|
    ensures Reaches(INIT, LEAK[..n], Leak(n))
    decreases n
  {
    if n > 0 {
      LeakRuns(n - 1);
      if n - 1 < 5 {
        LeakOpens(n - 1);
      } else if n - 1 < 8 {
        LeakPanics(n - 1);
      } else {
        LeakCloses(n - 1);
      }
      hide Apply, Enabled, Leak;
      OneMoreStep(INIT, LEAK[..n - 1], Leak(n - 1), LEAK[n - 1]);
      assert LEAK[..n] == LEAK[..n - 1] + [LEAK[n - 1]];
    }
  }

  // A run in which Close began and every call returned, and the bus of the panicked attempt is still open.
  lemma PanicLeaks() returns (steps: seq<Step>, t: State)
    ensures Reaches(INIT, steps, t) && t.closed && (forall p :: p in t.procs ==> t.procs[p].Done?)
    ensures 0 in t.produced && Closes(t, 0) == 0
  {
    LeakRuns(|LEAK|);
    steps, t := LEAK[..|LEAK|], Leak(|LEAK|);
    assert t == Leak(11);
  }
}
