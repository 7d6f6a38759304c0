/** What each Publish and Close call of the open-once protocol gets, over every interleaving. */
module OpenOutcomes {
  import opened Wrappers
  import opened SingleFlight
  import opened OpenOnce

  // Close is for good.
  lemma {:induction false} ClosedForGood(s: State, steps: seq<Step>, t: State)
    requires Reaches(s, steps, t) && s.closed
    ensures t.closed
    decreases |steps|
  {
    if steps != [] {
      ClosedForGood(Apply(s, steps[0]), steps[1..], t);
    }
  }

  // p only ever checks the flag: it is about to, or was refused and returned.
  predicate OnlyChecks(s: State, p: Pid) {
    p in s.procs && (s.procs[p].Entering? || s.procs[p].Done?)
  }

  lemma {:induction false} RefusedStaysOut(s: State, steps: seq<Step>, t: State, p: Pid)
    requires Reaches(s, steps, t) && s.closed && OnlyChecks(s, p) && p !in s.produced
    ensures OnlyChecks(t, p) && p !in t.produced
    ensures forall step :: step in steps && step.p == p ==> step == CheckClosed(p)
    decreases |steps|
  {
    if steps != [] {
      ClosedForGood(s, [steps[0]], Apply(s, steps[0]));
      RefusedStaysOut(Apply(s, steps[0]), steps[1..], t, p);
      assert steps == [steps[0]] + steps[1..];
    }
  }

  // A Publish that begins once a Close has set the flag does nothing but look at the flag: in every later
  // state it is about to or has returned, it attempted no open, used no bus and produced none.
  lemma LatePublishIsRefused(before: seq<Step>, s: State, p: Pid, after: seq<Step>, t: State)
    requires Reaches(INIT, before, s) && s.closed && Enabled(s, Publish(p))
    requires Reaches(Apply(s, Publish(p)), after, t)
    ensures p in t.procs && (t.procs[p] == Entering || t.procs[p] == Done)
    ensures p !in t.produced && t.closed
    ensures forall step :: step in after && step.p == p ==> step == CheckClosed(p)
  {
    EveryRunKeepsInv(before, s);
    assert BusOk(s, p);
    ClosedForGood(s, [Publish(p)], Apply(s, Publish(p)));
    ClosedForGood(Apply(s, Publish(p)), after, t);
    RefusedStaysOut(Apply(s, Publish(p)), after, t, p);
  }

  // ----- why a Publish returns -----

  // The attempt of p ended without a bus for it.
  predicate AttemptFailed(steps: seq<Step>, p: Pid) {
    OpenFails(p) in steps || OpenPanics(p) in steps || Refuse(p) in steps || KeepPanics(p) in steps
  }

  // Why a Publish may have returned.
  predicate Excused(t: State, steps: seq<Step>, p: Pid) {
    || Use(p) in steps
    || Cancel(p) in steps
    || AttemptFailed(steps, p)
    || (t.closed && Do(p) !in steps)
  }

  // Where a Publish stands, and the steps that brought it there.
  ghost predicate OnTheWay(t: State, steps: seq<Step>, p: Pid) {
    && (p !in t.procs ==> forall step :: step in steps ==> step.p != p)
    && (Publish(p) in steps ==>
          && p in t.procs
          && match t.procs[p]
             case Entering => Do(p) !in steps
             case Done => Excused(t, steps, p)
             case Ending(out) => out.Opened? || AttemptFailed(steps, p)
             case Signalling(out) => out.Opened? || AttemptFailed(steps, p)
             case CloseBegin => false
             case Peeking => false
             case PeekWaiting(_) => false
             case Closing(_) => false
             case _ => true)
  }

  lemma OwnStepStaysOnTheWay(s: State, steps: seq<Step>, step: Step, p: Pid)
    requires OnTheWay(s, steps, p) && Enabled(s, step) && step.p == p
    ensures OnTheWay(Apply(s, step), steps + [step], p)
  {
    assert forall x :: x in steps + [step] <==> x in steps || x == step;
  }

  lemma OthersStepStaysOnTheWay(s: State, steps: seq<Step>, step: Step, p: Pid)
    requires OnTheWay(s, steps, p) && Enabled(s, step) && step.p != p
    ensures OnTheWay(Apply(s, step), steps + [step], p)
  {
    var t := Apply(s, step);
    assert p in t.procs <==> p in s.procs;
    assert p in t.procs ==> t.procs[p] == s.procs[p];
    assert forall x :: x in steps + [step] <==> x in steps || x == step;
    assert s.closed ==> t.closed;
  }

  lemma {:induction false} RunStaysOnTheWay(s: State, done: seq<Step>, steps: seq<Step>, t: State, p: Pid)
    requires OnTheWay(s, done, p) && Reaches(s, steps, t)
    ensures OnTheWay(t, done + steps, p)
    decreases |steps|
  {
    if steps == [] {
      assert done + steps == done;
    } else {
      if steps[0].p == p {
        OwnStepStaysOnTheWay(s, done, steps[0], p);
      } else {
        OthersStepStaysOnTheWay(s, done, steps[0], p);
      }
      RunStaysOnTheWay(Apply(s, steps[0]), done + [steps[0]], steps[1..], t, p);
      assert done + [steps[0]] + steps[1..] == done + steps;
    }
  }

  // A Publish that returned used the bus, unless its caller gave up, its own attempt failed or panicked, or it
  // was closed before the Publish reached the slot. A waiter whose attempt failed tries again.
  lemma PublishReturnsFor(steps: seq<Step>, t: State, p: Pid)
    requires Reaches(INIT, steps, t) && Publish(p) in steps && PCOf(t, p).Done?
    ensures || Use(p) in steps
            || Cancel(p) in steps
            || OpenFails(p) in steps || OpenPanics(p) in steps || Refuse(p) in steps || KeepPanics(p) in steps
            || (t.closed && Do(p) !in steps)
  {
    RunStaysOnTheWay(INIT, [], steps, t, p);
    assert [] + steps == steps;
  }

  // And what it used is what the slot keeps, opened by a successful attempt and not lost.
  lemma UsedIsKept(steps: seq<Step>, t: State, p: Pid)
    requires Reaches(INIT, steps, t) && Enabled(t, Use(p))
    ensures t.slot.kept == Some(t.procs[p].bus) && t.procs[p].bus in t.produced && t.procs[p].bus !in t.lost
  {
    EveryRunKeepsInv(steps, t);
    assert BusOk(t, t.procs[p].bus);
  }
}
