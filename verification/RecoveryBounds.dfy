/** How long the overlap has to be, and how short: both hypotheses of the recovery loop are exact. */
module RecoveryBounds {
  import opened Wrappers
  import opened Deliveries
  import opened Recovery

  // ----- completeness -----

  ghost predicate RightAt(o: Options, es: seq<Event>, ws: seq<World>, i: nat, g: string) {
    i < |es| && i + 1 < |ws| && es[i].Listed? && g != "" ==>
      PendingRight(o, es[i].visible, es[i].now, ws[i + 1].target.pending, g)
  }

  // The pending set is right after every completed listing of every run.
  ghost predicate AlwaysExact(o: Options, late: int) {
    forall es: seq<Event>, ws: seq<World>, i: nat, g: string :: IsRun(o, late, es, ws) ==> RightAt(o, es, ws, i, g)
  }

  // Two scans make a run.
  lemma TwoScans(o: Options, late: int, first: Event, second: Event) returns (es: seq<Event>, ws: seq<World>)
    requires Admissible(o, late, START, first)
    requires Admissible(o, late, After(o, late, START, first), second)
    ensures es == [first, second] && |ws| == 3 && IsRun(o, late, es, ws)
    ensures ws[0] == START && ws[1] == After(o, late, START, first) && ws[2] == After(o, late, ws[1], second)
  {
    hide Admissible, After;
    var w1 := After(o, late, START, first);
    es, ws := [first, second], [START, w1, After(o, late, w1, second)];
  }

  // No restart strictly between the events i and j.
  predicate NoRestart(es: seq<Event>, i: nat, j: nat)
    requires i < j <= |es|
  {
    forall k :: i < k < j ==> !es[k].Restart?
  }

  lemma StepAdvances(o: Options, late: int, w: World, e: Event)
    requires ValidOptions(o) && Admissible(o, late, w, e)
    ensures var v := After(o, late, w, e);
            && (e.FailedScan? ==> v == w)
            && (e.Listed? ==> v.target.scanned && v.since == Since(o, w.target, e.now) && SinceInv(o, v))
  {
  }

  // Until a restart the windows of a run only move forward, however late attempts show up.
  lemma {:induction false} WindowsAdvance(o: Options, late: int, es: seq<Event>, ws: seq<World>, i: nat, j: nat)
    requires ValidOptions(o) && IsRun(o, late, es, ws)
    requires i < j <= |es| && es[i].Listed? && NoRestart(es, i, j)
    ensures ws[j].target.scanned && ws[j].since >= ws[i + 1].since && SinceInv(o, ws[j])
    decreases j
  {
    hide After, AfterMerge;
    StepAdvances(o, late, ws[j - 1], es[j - 1]);
    if j > i + 1 {
      WindowsAdvance(o, late, es, ws, i, j - 1);
    }
  }

  // An attempt made before the window of a completed listing is in no later one.
  lemma LateIsMissed(o: Options, late: int, es: seq<Event>, ws: seq<World>, i: nat, j: nat, d: Delivery)
    requires ValidOptions(o) && IsRun(o, late, es, ws)
    requires i < j < |es| && es[i].Listed? && es[j].Listed? && NoRestart(es, i, j)
    requires d.at < ws[i + 1].since
    ensures d !in Window(es[j].visible, Since(o, ws[j].target, es[j].now))
  {
    WindowsAdvance(o, late, es, ws, i, j);
    assert Admissible(o, late, ws[j], es[j]);
  }

  // So while it stays the only attempt of its GUID, the GUID is never pending.
  lemma {:induction false} LateIsNeverPending(o: Options, late: int, es: seq<Event>, ws: seq<World>, i: nat, j: nat,
                                              d: Delivery)
    requires ValidOptions(o) && IsRun(o, late, es, ws)
    requires i < j <= |es| && es[i].Listed? && NoRestart(es, i, j)
    requires d.at < ws[i + 1].since && d.guid !in ws[i + 1].target.pending
    requires forall k, e :: i < k < j && es[k].Listed? && e in es[k].visible && e.guid == d.guid ==> e == d
    ensures d.guid !in ws[j].target.pending
    decreases j
  {
    hide After, Admissible, Since, Window, Knows;
    if j > i + 1 {
      LateIsNeverPending(o, late, es, ws, i, j - 1, d);
      var w, e := ws[j - 1], es[j - 1];
      assert Admissible(o, late, w, e) && ws[j] == After(o, late, w, e);
      StepAdvances(o, late, w, e);
      if e.Listed? {
        LateIsMissed(o, late, es, ws, i, j - 1, d);
        OnlyAttemptUnlisted(e.visible, Since(o, w.target, e.now), d);
        UnlistedStaysOut(o, late, w, e, d.guid);
      }
    }
  }

  lemma OnlyAttemptUnlisted(log: set<Delivery>, since: int, d: Delivery)
    requires (forall e :: e in log && e.guid == d.guid ==> e == d) && d !in Window(log, since)
    ensures !Knows(Window(log, since), d.guid)
  {
  }

  lemma UnlistedStaysOut(o: Options, late: int, w: World, e: Event, g: string)
    requires e.Listed? && Admissible(o, late, w, e) && g !in w.target.pending
    requires !Knows(Window(e.visible, Since(o, w.target, e.now)), g)
    ensures g !in After(o, late, w, e).target.pending
  {
    WindowProper(e.visible, Since(o, w.target, e.now));
  }

  // An attempt that shows up later than the overlap is behind the window of the scan that could first list it.
  lemma MissedWhenLate(o: Options, late: int, d: Delivery) returns (es: seq<Event>, ws: seq<World>)
    requires ValidOptions(o) && o.overlap < late && o.overlap < o.lookback
    requires d == Delivery(1, "g", -o.overlap - 1, 500)
    ensures IsRun(o, late, es, ws) && es == [Listed(0, {}, {}), Listed(0, {d}, {})]
    ensures ws[2].target.pending == map[] && d.at < ws[2].since
  {
    var first, second := Listed(0, {}, {}), Listed(0, {d}, {});
    var w1 := After(o, late, START, first);
    assert w1.target == Target(true, 0, map[]);
    assert Since(o, w1.target, 0) == -o.overlap;
    assert Window({d}, -o.overlap) == {};
    es, ws := TwoScans(o, late, first, second);
  }

  // However that run goes on without a restart, the attempt stays in no window, and its GUID is never pending
  // while it has no other attempt.
  lemma LostForGood(o: Options, late: int, d: Delivery, es: seq<Event>, ws: seq<World>, j: nat)
    requires ValidOptions(o) && o.overlap < late && o.overlap < o.lookback
    requires d == Delivery(1, "g", -o.overlap - 1, 500)
    requires IsRun(o, late, es, ws) && 2 <= j <= |es| && NoRestart(es, 1, j)
    requires es[0] == Listed(0, {}, {}) && es[1] == Listed(0, {d}, {})
    ensures j < |es| && es[j].Listed? ==> d !in Window(es[j].visible, Since(o, ws[j].target, es[j].now))
    ensures (forall k, e :: 1 < k < j && es[k].Listed? && e in es[k].visible && e.guid == "g" ==> e == d) ==>
              "g" !in ws[j].target.pending
  {
    var few, reached := MissedWhenLate(o, late, d);
    SameWorlds(o, late, few, reached, es, ws, 2);
    if j < |es| && es[j].Listed? {
      LateIsMissed(o, late, es, ws, 1, j, d);
    }
    if forall k, e :: 1 < k < j && es[k].Listed? && e in es[k].visible && e.guid == "g" ==> e == d {
      LateIsNeverPending(o, late, es, ws, 1, j, d);
    }
  }

  // Two runs with the same first n events go through the same first worlds.
  lemma {:induction false} SameWorlds(o: Options, late: int, es: seq<Event>, ws: seq<World>, fs: seq<Event>,
                                      vs: seq<World>, n: nat)
    requires IsRun(o, late, es, ws) && IsRun(o, late, fs, vs)
    requires n <= |es| && n <= |fs| && forall k :: 0 <= k < n ==> es[k] == fs[k]
    ensures ws[n] == vs[n]
  {
    hide Admissible, After;
    if n > 0 {
      SameWorlds(o, late, es, ws, fs, vs, n - 1);
    }
  }

  // The cache is complete and true in every run exactly when attempts show up within the overlap, or the
  // overlap covers the lookback.
  lemma ExactIffCovered(o: Options, late: int)
    requires ValidOptions(o)
    ensures AlwaysExact(o, late) <==> Covered(o, late)
  {
    if Covered(o, late) {
      forall es: seq<Event>, ws: seq<World>, i: nat, g: string | IsRun(o, late, es, ws)
        ensures RightAt(o, es, ws, i, g)
      {
        if i < |es| && es[i].Listed? && g != "" {
          PendingIsExact(o, late, es, ws, i, g);
        }
      }
    } else {
      var d := Delivery(1, "g", -o.overlap - 1, 500);
      var es, ws := MissedWhenLate(o, late, d);
      assert d in {d} && IsNewest({d}, "g", d);
      NewestIs({d}, "g", d);
      assert !RightAt(o, es, ws, 1, "g");
    }
  }

  // ----- the fairness order -----

  // g waits at e: due since the last scan, never requested, with no news of its own.
  ghost predicate Waiting(o: Options, w: World, e: Event, g: string) {
    && w.target.scanned && g in w.target.pending && Unchanged(w, e, g)
    && w.target.pending[g].requestedAt.None? && Due(o, w.target.pending[g], w.target.lastScan)
    && w.target.pending[g].latestAt >= e.now - o.lookback
  }

  ghost predicate NotJumped(o: Options, w: World, e: Event, g: string)
    requires e.Listed? && ProperIDs(e.visible) && g in w.target.pending
  {
    var t := AfterMerge(o, w.target, e.now, e.visible);
    g in t.pending && Rivals(t.pending, g) <= Rivals(w.target.pending, g)
  }

  // In no run does anybody new sort ahead of a waiting GUID.
  ghost predicate NeverJumped(o: Options, late: int) {
    forall es: seq<Event>, ws: seq<World>, i: nat, g: string ::
      IsRun(o, late, es, ws) && i < |es| && Waiting(o, ws[i], es[i], g) ==>
        ProperIDs(es[i].visible) && NotJumped(o, ws[i], es[i], g)
  }

  // "h" succeeded, failed again at `from`, and `from` is the start of the next window; "g" fell due meanwhile.
  function HadSuccess(from: int): Delivery {
    Delivery(1, "h", from - 1, 200)
  }

  function FailedAgain(from: int): Delivery {
    Delivery(2, "h", from, 500)
  }

  function FellDue(grace: int): Delivery {
    Delivery(3, "g", -grace, 500)
  }

  function ComebackLog(from: int, grace: int): set<Delivery> {
    {HadSuccess(from), FailedAgain(from), FellDue(grace)}
  }

  function AfterSuccess(from: int, grace: int): set<Delivery> {
    {FailedAgain(from), FellDue(grace)}
  }

  lemma ComebackNewest(from: int, grace: int, log: set<Delivery>)
    requires log == ComebackLog(from, grace) || log == AfterSuccess(from, grace)
    ensures ProperIDs(log) && Guids(log) == {"g", "h"} && "g" != "h"
    ensures Newest(log, "h") == FailedAgain(from) && Newest(log, "g") == FellDue(grace)
    ensures !EverSucceeded(log, "g") && (log == AfterSuccess(from, grace) ==> !EverSucceeded(log, "h"))
    ensures log == ComebackLog(from, grace) ==> EverSucceeded(log, "h")
  {
    assert "g"[0] != "h"[0];
    assert FailedAgain(from) in log && FellDue(grace) in log;
    NewestIs(log, "h", FailedAgain(from));
    NewestIs(log, "g", FellDue(grace));
    if log == ComebackLog(from, grace) {
      assert HadSuccess(from) in log && Succeeded(HadSuccess(from));
    }
  }

  // Where the window of a scan at 1 starts after a scan at 0.
  function SecondWindow(o: Options): int {
    if -o.overlap > 1 - o.lookback then -o.overlap else 1 - o.lookback
  }

  predicate LongOverlap(o: Options) {
    ValidOptions(o) && o.grace < o.lookback && o.grace <= o.overlap
  }

  // The first scan lists all three attempts, the second one only the failures.
  lemma Windows(o: Options, t: Target)
    requires LongOverlap(o) && t.scanned && t.lastScan == 0
    ensures Window(ComebackLog(SecondWindow(o), o.grace), Since(o, FRESH, 0)) == ComebackLog(SecondWindow(o), o.grace)
    ensures Window(ComebackLog(SecondWindow(o), o.grace), Since(o, t, 1)) == AfterSuccess(SecondWindow(o), o.grace)
  {
    assert Since(o, FRESH, 0) == -o.lookback && Since(o, t, 1) == SecondWindow(o);
  }

  lemma SummaryWithSuccess(from: int, grace: int)
    ensures ProperIDs(ComebackLog(from, grace)) && "g" != "h"
    ensures var seen := Summary(ComebackLog(from, grace));
            seen.Keys == {"g", "h"} && seen["g"] == Attempts(3, -grace, false) && seen["h"].succeeded
  {
    hide ComebackLog, AfterSuccess, Newest, EverSucceeded, Guids, ProperIDs;
    ComebackNewest(from, grace, ComebackLog(from, grace));
  }

  lemma SummaryAfterSuccess(from: int, grace: int)
    ensures ProperIDs(AfterSuccess(from, grace)) && "g" != "h"
    ensures var seen := Summary(AfterSuccess(from, grace));
            seen.Keys == {"g", "h"} && seen["g"] == Attempts(3, -grace, false) && seen["h"] == Attempts(2, from, false)
  {
    hide ComebackLog, AfterSuccess, Newest, EverSucceeded, Guids, ProperIDs;
    ComebackNewest(from, grace, AfterSuccess(from, grace));
  }

  lemma Summaries(from: int, grace: int)
    ensures ProperIDs(ComebackLog(from, grace)) && ProperIDs(AfterSuccess(from, grace)) && "g" != "h"
    ensures var seen := Summary(ComebackLog(from, grace));
            seen.Keys == {"g", "h"} && seen["g"] == Attempts(3, -grace, false) && seen["h"].succeeded
    ensures var seen := Summary(AfterSuccess(from, grace));
            seen.Keys == {"g", "h"} && seen["g"] == Attempts(3, -grace, false) && seen["h"] == Attempts(2, from, false)
  {
    hide Summary, ComebackLog, AfterSuccess, ProperIDs;
    SummaryWithSuccess(from, grace);
    SummaryAfterSuccess(from, grace);
  }

  // A listing of one failure and one success leaves the failure pending.
  lemma OneEnters(listed: map<string, Attempts>, id: int, at: int, horizon: int)
    requires listed.Keys == {"g", "h"} && "g" != "h" && listed["g"] == Attempts(id, at, false) && listed["h"].succeeded
    requires id != 0 && at >= horizon
    ensures Merged(FRESH.pending, listed, horizon) == map["g" := Pending(id, at, None)]
  {
  }

  lemma MergeFrom(o: Options, t: Target, now: int, visible: set<Delivery>, listed: set<Delivery>)
    requires ProperIDs(visible) && ProperIDs(listed) && Window(visible, Since(o, t, now)) == listed
    ensures AfterMerge(o, t, now, visible) == Target(true, now, Merged(t.pending, Summary(listed), now - o.lookback))
  {
    hide Summary, Window, Since, Merged, ProperIDs;
  }

  // The first scan sees the success, so only "g" is pending.
  lemma FirstScan(o: Options)
    requires LongOverlap(o)
    ensures ProperIDs(ComebackLog(SecondWindow(o), o.grace))
    ensures AfterMerge(o, FRESH, 0, ComebackLog(SecondWindow(o), o.grace)) == BetweenScans(o)
  {
    hide Summary, Window, Since, ComebackLog, AfterSuccess, Merged, ProperIDs, AfterMerge, SecondWindow;
    var log := ComebackLog(SecondWindow(o), o.grace);
    Windows(o, BetweenScans(o));
    Summaries(SecondWindow(o), o.grace);
    MergeFrom(o, FRESH, 0, log, log);
    OneEnters(Summary(log), 3, -o.grace, 0 - o.lookback);
  }

  function BetweenScans(o: Options): Target {
    Target(true, 0, map["g" := Pending(3, -o.grace, None)])
  }

  // The second no longer does, so "h" enters, ahead of "g".
  lemma SecondScan(o: Options)
    requires LongOverlap(o)
    ensures ProperIDs(ComebackLog(SecondWindow(o), o.grace))
    ensures var u := AfterMerge(o, BetweenScans(o), 1, ComebackLog(SecondWindow(o), o.grace));
            "g" in u.pending && "h" in Rivals(u.pending, "g")
  {
    Summaries(SecondWindow(o), o.grace);
    Windows(o, BetweenScans(o));
    assert "g"[0] != "h"[0];
    hide Summary, Window, Since, ComebackLog, AfterSuccess, Merged, Rivals;
    EntersAhead(BetweenScans(o).pending, Summary(AfterSuccess(SecondWindow(o), o.grace)), "g", "h", 1 - o.lookback);
  }

  // A GUID listed with an older failure than g's, or one as old with a smaller id, enters ahead of it.
  lemma EntersAhead(pending: map<string, Pending>, listed: map<string, Attempts>, g: string, h: string, horizon: int)
    requires g in pending && pending[g].requestedAt.None? && h !in pending && g != h
    requires g in listed && listed[g] == Attempts(pending[g].latestID, pending[g].latestAt, false)
    requires h in listed && !listed[h].succeeded && 0 != listed[h].latestID < listed[g].latestID
    requires horizon <= listed[h].latestAt <= listed[g].latestAt
    ensures g in Merged(pending, listed, horizon) && h in Rivals(Merged(pending, listed, horizon), g)
  {
    assert Entry(pending, listed, h) == Pending(listed[h].latestID, listed[h].latestAt, None);
    assert Entry(pending, listed, g) == pending[g];
  }

  // A scan without accepted requests leaves what its merge leaves.
  lemma NothingAsked(o: Options, late: int, w: World, e: Event)
    requires e.Listed? && e.accepted == {} && Admissible(o, late, w, e)
    ensures After(o, late, w, e).target == AfterMerge(o, w.target, e.now, e.visible)
    ensures After(o, late, w, e).visible == e.visible
  {
    var t := AfterMerge(o, w.target, e.now, e.visible);
    assert MarkRequested(t.pending, {}, e.now) == t.pending;
  }

  lemma BothAdmissible(o: Options, late: int, log: set<Delivery>)
    requires LongOverlap(o) && log == ComebackLog(SecondWindow(o), o.grace)
    ensures Admissible(o, late, START, Listed(0, log, {}))
    ensures Admissible(o, late, After(o, late, START, Listed(0, log, {})), Listed(1, log, {}))
  {
    hide ComebackLog, SecondWindow, Summary, ProperIDs, Merged, Window;
    Summaries(SecondWindow(o), o.grace);
    NothingAsked(o, late, START, Listed(0, log, {}));
  }

  // A run in which a GUID that got a 2xx and failed again enters ahead of one already due.
  lemma ComebackRun(o: Options, late: int) returns (es: seq<Event>, ws: seq<World>)
    requires LongOverlap(o)
    ensures IsRun(o, late, es, ws) && |es| == 2 && Waiting(o, ws[1], es[1], "g")
    ensures ProperIDs(es[1].visible) && !NotJumped(o, ws[1], es[1], "g")
  {
    hide AfterMerge, ComebackLog, SecondWindow, Rivals, ProperIDs, IsRun, Admissible;
    var log := ComebackLog(SecondWindow(o), o.grace);
    BothAdmissible(o, late, log);
    FirstScan(o);
    SecondScan(o);
    NothingAsked(o, late, START, Listed(0, log, {}));
    NoRivalsYet(o);
    es, ws := TwoScans(o, late, Listed(0, log, {}), Listed(1, log, {}));
    assert ws[1].target == BetweenScans(o) && ws[1].visible == log;
    assert Unchanged(ws[1], es[1], "g");
  }

  lemma NoRivalsYet(o: Options)
    ensures "h" !in Rivals(BetweenScans(o).pending, "g")
  {
    assert "g"[0] != "h"[0];
  }

  // Nobody new ever sorts ahead of a waiting GUID exactly when the overlap is shorter than the grace period.
  lemma FairIffShortOverlap(o: Options, late: int)
    requires ValidOptions(o) && 0 <= late <= o.overlap && o.grace < o.lookback
    ensures NeverJumped(o, late) <==> o.overlap < o.grace
  {
    if o.overlap < o.grace {
      forall es: seq<Event>, ws: seq<World>, i: nat, g: string
        | IsRun(o, late, es, ws) && i < |es| && Waiting(o, ws[i], es[i], g)
        ensures ProperIDs(es[i].visible) && NotJumped(o, ws[i], es[i], g)
      {
        RunKeepsRequests(o, late, es, ws, i);
        StaysPending(o, late, ws[i], es[i], g);
        NoNewRivals(o, late, ws[i], es[i], g);
      }
    } else {
      var es, ws := ComebackRun(o, late);
      assert Waiting(o, ws[1], es[1], "g");
    }
  }

  const MINUTE := 60_000_000_000

  // The defaults, 72h, 15m and 5m, are on the unfair side.
  lemma DefaultsCanBeJumped(o: Options)
    requires o.lookback == MAX_LOOKBACK && o.overlap == 15 * MINUTE && o.grace == 5 * MINUTE && o.cap > 0
    ensures !NeverJumped(o, 0)
  {
    FairIffShortOverlap(o, 0);
  }
}
