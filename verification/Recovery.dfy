/** The recovery loop of one hook: incremental scans of the attempt log, the set of GUIDs
    still without a 2xx, and the redeliveries asked for under a grace period and a cap. */
module Recovery {
  import opened Wrappers
  import opened Deliveries

  datatype Options = Options(lookback: int, overlap: int, grace: int, cap: nat)

  // Times are nanoseconds. GitHub keeps attempts for three days.
  const MAX_LOOKBACK := 259_200_000_000_000

  // What New accepts.
  predicate ValidOptions(o: Options) {
    0 < o.lookback <= MAX_LOOKBACK && o.overlap >= 0 && o.grace >= 0 && o.cap > 0
  }

  // Attempts show up within the overlap, or every scan lists the whole lookback anyway.
  predicate Covered(o: Options, late: int) {
    late <= o.overlap || o.lookback <= o.overlap
  }

  datatype Pending = Pending(latestID: int, latestAt: int, requestedAt: Option<int>)

  const NO_PENDING := Pending(0, ZERO_TIME, None)

  datatype Target = Target(scanned: bool, lastScan: int, pending: map<string, Pending>)

  const FRESH := Target(false, ZERO_TIME, map[])

  // Start of the window a scan at now lists.
  function Since(o: Options, t: Target, now: int): (s: int)
    ensures s >= now - o.lookback && (t.scanned ==> s >= t.lastScan - o.overlap)
    ensures s == now - o.lookback || (t.scanned && s == t.lastScan - o.overlap)
  {
    var full := now - o.lookback;
    if t.scanned && t.lastScan - o.overlap > full then t.lastScan - o.overlap else full
  }

  // A GUID's entry after the listing, before expiry.
  function Entry(pending: map<string, Pending>, listed: map<string, Attempts>, g: string): Pending
    requires g in pending || g in listed
  {
    var p := if g in pending then pending[g] else NO_PENDING;
    if g in listed && listed[g].latestID != p.latestID
    then Pending(listed[g].latestID, listed[g].latestAt, p.requestedAt)
    else p
  }

  function Refreshed(pending: map<string, Pending>, listed: map<string, Attempts>): map<string, Pending> {
    map g | g in pending.Keys + listed.Keys && !(g in listed && listed[g].succeeded) :: Entry(pending, listed, g)
  }

  function Unexpired(pending: map<string, Pending>, horizon: int): map<string, Pending> {
    map g | g in pending && pending[g].latestAt >= horizon :: pending[g]
  }

  function Merged(pending: map<string, Pending>, listed: map<string, Attempts>, horizon: int): map<string, Pending> {
    Unexpired(Refreshed(pending, listed), horizon)
  }

  predicate Due(o: Options, p: Pending, now: int) {
    && now - p.latestAt >= o.grace
    && (p.requestedAt.Some? ==> now - p.requestedAt.value >= o.grace)
  }

  // The order of requests: never requested first, then least recently requested, then oldest attempt.
  predicate Ahead(a: Pending, b: Pending) {
    if a.requestedAt != b.requestedAt
    then a.requestedAt.None? || (b.requestedAt.Some? && a.requestedAt.value < b.requestedAt.value)
    else if a.latestAt != b.latestAt then a.latestAt < b.latestAt
    else a.latestID < b.latestID
  }

  function MarkRequested(pending: map<string, Pending>, accepted: set<string>, now: int): map<string, Pending> {
    map g | g in pending :: if g in accepted then pending[g].(requestedAt := Some(now)) else pending[g]
  }

  function Stamped(requested: map<string, int>, accepted: set<string>, now: int): map<string, int> {
    map g | g in requested.Keys + accepted :: if g in accepted then now else requested[g]
  }

  // ----- runs -----

  /** The loop's state beside what the log showed it: every attempt visible at the last
      completed listing, where that listing's window began, and when each GUID's last
      redelivery request was accepted by this process. */
  datatype World = World(target: Target, visible: set<Delivery>, since: int, requested: map<string, int>)

  const START := World(FRESH, {}, 0, map[])

  // A listing that completed, with the requests GitHub accepted after it; a scan that failed; a restart.
  datatype Event = Listed(now: int, visible: set<Delivery>, accepted: set<string>) | FailedScan | Restart

  function Window(log: set<Delivery>, since: int): set<Delivery> {
    set d | d in log && d.at >= since
  }

  lemma WindowProper(log: set<Delivery>, since: int)
    requires ProperIDs(log)
    ensures ProperIDs(Window(log, since))
  {
  }

  ghost function AfterMerge(o: Options, t: Target, now: int, visible: set<Delivery>): Target
    requires ProperIDs(visible)
  {
    var since := Since(o, t, now);
    WindowProper(visible, since);
    Target(true, now, Merged(t.pending, Summary(Window(visible, since)), now - o.lookback))
  }

  // The log only grows, the scan clock never goes back, and an attempt is visible at the latest
  // `late` after it was made. Requests go only to due GUIDs.
  ghost predicate Admissible(o: Options, late: int, w: World, e: Event) {
    e.Listed? ==>
      && ProperIDs(e.visible)
      && w.visible <= e.visible
      && (w.target.scanned ==>
            && e.now >= w.target.lastScan
            && forall d :: d in e.visible && d !in w.visible ==> d.at >= w.target.lastScan - late)
      && var t := AfterMerge(o, w.target, e.now, e.visible);
         forall g :: g in e.accepted ==> g in t.pending && Due(o, t.pending[g], e.now)
  }

  ghost function After(o: Options, late: int, w: World, e: Event): World
    requires Admissible(o, late, w, e)
  {
    match e
    case FailedScan => w
    case Restart => World(FRESH, w.visible, w.since, map[])
    case Listed(now, visible, accepted) =>
      var t := AfterMerge(o, w.target, now, visible);
      World(t.(pending := MarkRequested(t.pending, accepted, now)), visible, Since(o, w.target, now),
            Stamped(w.requested, accepted, now))
  }

  ghost predicate IsRun(o: Options, late: int, es: seq<Event>, ws: seq<World>) {
    && |ws| == |es| + 1
    && ws[0] == START
    && forall i :: 0 <= i < |es| ==> Admissible(o, late, ws[i], es[i]) && ws[i + 1] == After(o, late, ws[i], es[i])
  }

  // ----- the cache and the log -----

  // g's entry, if any, is its newest visible attempt, which failed and is within the lookback.
  ghost predicate EntryTrue(o: Options, t: Target, visible: set<Delivery>, g: string)
    requires ProperIDs(visible)
  {
    g in t.pending ==>
      && g != "" && Knows(visible, g)
      && t.pending[g].latestID == Newest(visible, g).id
      && t.pending[g].latestAt == Newest(visible, g).at >= t.lastScan - o.lookback
      && !Succeeded(Newest(visible, g))
  }

  // A GUID with no visible 2xx whose newest attempt is within the lookback is pending.
  ghost predicate EntryThere(o: Options, t: Target, visible: set<Delivery>, g: string)
    requires ProperIDs(visible)
  {
    g != "" && Knows(visible, g) && !EverSucceeded(visible, g) && Newest(visible, g).at >= t.lastScan - o.lookback ==>
      g in t.pending
  }

  ghost predicate CacheInv(o: Options, w: World) {
    && (!w.target.scanned ==> w.target == FRESH)
    && (w.target.scanned ==>
          && ProperIDs(w.visible)
          && forall g :: EntryTrue(o, w.target, w.visible, g) && EntryThere(o, w.target, w.visible, g))
  }

  // A GUID listed by a scan is listed with its newest attempt.
  lemma ListedNewest(log: set<Delivery>, since: int, g: string)
    requires ProperIDs(log) && ProperIDs(Window(log, since)) && Knows(Window(log, since), g)
    ensures Knows(log, g) && Newest(log, g) == Newest(Window(log, since), g) && Newest(log, g).at >= since
  {
    var d := Newest(Window(log, since), g);
    assert IsNewest(log, g, d);
  }

  // A GUID no attempt of which is listed either is older than the lookback or has not changed since the last listing.
  lemma Unlisted(o: Options, late: int, w: World, now: int, visible: set<Delivery>, g: string)
    requires ValidOptions(o) && Covered(o, late) && CacheInv(o, w)
    requires ProperIDs(visible) && w.visible <= visible
    requires w.target.scanned ==>
               && now >= w.target.lastScan
               && forall d :: d in visible && d !in w.visible ==> d.at >= w.target.lastScan - late
    requires Knows(visible, g) && !Knows(Window(visible, Since(o, w.target, now)), g)
    ensures Newest(visible, g).at < Since(o, w.target, now)
    ensures || Newest(visible, g).at < now - o.lookback
            || (w.target.scanned && Knows(w.visible, g) && Newest(w.visible, g) == Newest(visible, g)
                && forall d :: d in visible && d.guid == g ==> d in w.visible)
  {
    var since := Since(o, w.target, now);
    var n := Newest(visible, g);
    assert n !in Window(visible, since);
    if since != now - o.lookback {
      forall d | d in visible && d.guid == g
        ensures d in w.visible
      {
        assert d !in Window(visible, since);
      }
      assert IsNewest(w.visible, g, n);
      NewestIs(w.visible, g, n);
    }
  }

  lemma MergeKeepsCache(o: Options, late: int, w: World, e: Event, g: string)
    requires ValidOptions(o) && Covered(o, late) && CacheInv(o, w)
    requires e.Listed? && Admissible(o, late, w, e)
    ensures var t := AfterMerge(o, w.target, e.now, e.visible);
            EntryTrue(o, t, e.visible, g) && EntryThere(o, t, e.visible, g)
  {
    var since := Since(o, w.target, e.now);
    var window := Window(e.visible, since);
    WindowProper(e.visible, since);
    if w.target.scanned {
      assert EntryTrue(o, w.target, w.visible, g) && EntryThere(o, w.target, w.visible, g);
    }
    if Knows(window, g) {
      ListedNewest(e.visible, since, g);
      if g in w.target.pending {
        assert Newest(w.visible, g) in e.visible;
      }
    } else if Knows(e.visible, g) {
      Unlisted(o, late, w, e.now, e.visible, g);
    }
  }

  lemma StepKeepsCache(o: Options, late: int, w: World, e: Event)
    requires ValidOptions(o) && Covered(o, late) && CacheInv(o, w) && Admissible(o, late, w, e)
    ensures CacheInv(o, After(o, late, w, e))
  {
    if e.Listed? {
      var v := After(o, late, w, e);
      forall g
        ensures EntryTrue(o, v.target, v.visible, g) && EntryThere(o, v.target, v.visible, g)
      {
        MergeKeepsCache(o, late, w, e, g);
      }
    }
  }

  lemma {:induction false} RunKeepsCache(o: Options, late: int, es: seq<Event>, ws: seq<World>, i: nat)
    requires ValidOptions(o) && Covered(o, late) && IsRun(o, late, es, ws) && i < |ws|
    ensures CacheInv(o, ws[i])
  {
    if i > 0 {
      RunKeepsCache(o, late, es, ws, i - 1);
      StepKeepsCache(o, late, ws[i - 1], es[i - 1]);
    }
  }

  // A GUID that never got a visible 2xx is pending exactly when its newest visible attempt is within the
  // lookback, and a pending GUID is held with exactly its newest visible attempt, which failed.
  ghost predicate PendingRight(o: Options, log: set<Delivery>, now: int, pending: map<string, Pending>, g: string) {
    && ProperIDs(log)
    && (Knows(log, g) && !EverSucceeded(log, g) ==> (g in pending <==> Newest(log, g).at >= now - o.lookback))
    && (g in pending ==>
          && Knows(log, g)
          && pending[g].latestID == Newest(log, g).id && pending[g].latestAt == Newest(log, g).at
          && !Succeeded(Newest(log, g)))
  }

  // After every completed listing of every run, failed scans and restarts included, the pending set is right.
  lemma PendingIsExact(o: Options, late: int, es: seq<Event>, ws: seq<World>, i: nat, g: string)
    requires ValidOptions(o) && Covered(o, late) && IsRun(o, late, es, ws)
    requires i < |es| && es[i].Listed? && g != ""
    ensures PendingRight(o, es[i].visible, es[i].now, ws[i + 1].target.pending, g)
  {
    RunKeepsCache(o, late, es, ws, i + 1);
    var w := ws[i + 1];
    assert EntryTrue(o, w.target, w.visible, g) && EntryThere(o, w.target, w.visible, g);
  }

  // ----- spacing of requests -----

  // No 2xx of a pending GUID lies in the window of the last listing or any later one.
  ghost predicate NoRecentSuccess(w: World, g: string) {
    g in w.target.pending ==> forall d :: d in w.visible && d.guid == g && Succeeded(d) ==> d.at < w.since
  }

  // The last accepted request for g is still on record with the entry, or whatever entry g can get
  // from now on is of an attempt made after that request.
  ghost predicate RequestRemembered(o: Options, late: int, w: World, g: string)
    requires w.target.scanned ==> ProperIDs(w.visible)
  {
    && (g in w.requested ==>
          && w.target.scanned && Knows(w.visible, g) && w.requested[g] <= w.target.lastScan
          && if g in w.target.pending && w.target.pending[g].requestedAt.Some?
             then w.target.pending[g].requestedAt.value == w.requested[g]
             else || Newest(w.visible, g).at >= w.requested[g] - late
                  || Newest(w.visible, g).at < w.target.lastScan - o.lookback)
    && (g in w.target.pending && w.target.pending[g].requestedAt.Some? ==> g in w.requested)
  }

  ghost predicate RequestInv(o: Options, late: int, w: World) {
    && CacheInv(o, w)
    && forall g :: NoRecentSuccess(w, g) && RequestRemembered(o, late, w, g)
  }

  // Windows only move forward.
  ghost predicate SinceInv(o: Options, w: World) {
    w.target.scanned ==> forall now :: now >= w.target.lastScan ==> Since(o, w.target, now) >= w.since
  }

  lemma SinceAdvances(o: Options, late: int, w: World, e: Event)
    requires ValidOptions(o) && SinceInv(o, w) && Admissible(o, late, w, e)
    ensures SinceInv(o, After(o, late, w, e))
  {
  }

  lemma MergeKeepsNoSuccess(o: Options, late: int, w: World, e: Event, g: string)
    requires ValidOptions(o) && 0 <= late <= o.overlap && RequestInv(o, late, w) && SinceInv(o, w)
    requires e.Listed? && Admissible(o, late, w, e)
    ensures var t := AfterMerge(o, w.target, e.now, e.visible);
            var v := World(t, e.visible, Since(o, w.target, e.now), w.requested);
            NoRecentSuccess(v, g)
  {
    var since := Since(o, w.target, e.now);
    var window := Window(e.visible, since);
    WindowProper(e.visible, since);
    MergeKeepsCache(o, late, w, e, g);
    assert NoRecentSuccess(w, g) && RequestRemembered(o, late, w, g);
    if w.target.scanned {
      assert EntryTrue(o, w.target, w.visible, g) && EntryThere(o, w.target, w.visible, g);
    }
    if Knows(window, g) {
      ListedNewest(e.visible, since, g);
    } else if Knows(e.visible, g) {
      Unlisted(o, late, w, e.now, e.visible, g);
    }
  }

  lemma MergeRemembers(o: Options, late: int, w: World, e: Event, g: string)
    requires ValidOptions(o) && 0 <= late <= o.overlap && RequestInv(o, late, w) && SinceInv(o, w)
    requires e.Listed? && Admissible(o, late, w, e)
    ensures var t := AfterMerge(o, w.target, e.now, e.visible);
            var v := World(t, e.visible, Since(o, w.target, e.now), w.requested);
            RequestRemembered(o, late, v, g)
  {
    hide RequestInv, SinceInv, AfterMerge, Since, RequestRemembered;
    var window := Window(e.visible, Since(o, w.target, e.now));
    if Knows(window, g) {
      ListedIsRemembered(o, late, w, e, g);
    } else {
      UnlistedIsRemembered(o, late, w, e, g);
    }
  }

  // A listed GUID keeps the time of its request while it stays pending, and leaves only for a 2xx or its age.
  lemma ListedEntry(o: Options, t: Target, now: int, visible: set<Delivery>, g: string)
    requires ProperIDs(visible) && ProperIDs(Window(visible, Since(o, t, now)))
    requires Knows(Window(visible, Since(o, t, now)), g) && g != ""
    requires var n := Newest(Window(visible, Since(o, t, now)), g);
             g in t.pending && t.pending[g].latestID == n.id ==> t.pending[g].latestAt == n.at
    ensures var window, pending := Window(visible, Since(o, t, now)), AfterMerge(o, t, now, visible).pending;
            if g in pending then pending[g].requestedAt == if g in t.pending then t.pending[g].requestedAt else None
            else EverSucceeded(window, g) || Newest(window, g).at < now - o.lookback
  {
    hide Since, Window, EverSucceeded;
    var window := Window(visible, Since(o, t, now));
    assert g in Guids(window);
  }

  lemma ListedIsRemembered(o: Options, late: int, w: World, e: Event, g: string)
    requires ValidOptions(o) && 0 <= late <= o.overlap && RequestInv(o, late, w) && SinceInv(o, w)
    requires e.Listed? && Admissible(o, late, w, e)
    requires Knows(Window(e.visible, Since(o, w.target, e.now)), g)
    ensures var t := AfterMerge(o, w.target, e.now, e.visible);
            var v := World(t, e.visible, Since(o, w.target, e.now), w.requested);
            RequestRemembered(o, late, v, g)
  {
    hide AfterMerge, Summary, Guids;
    var since := Since(o, w.target, e.now);
    WindowProper(e.visible, since);
    MergedAt(o, w.target, e.now, e.visible);
    MergeKeepsCache(o, late, w, e, g);
    ListedNewest(e.visible, since, g);
    assert NoRecentSuccess(w, g) && RequestRemembered(o, late, w, g);
    if w.target.scanned {
      assert EntryTrue(o, w.target, w.visible, g);
    }
    if g in w.target.pending {
      assert Newest(w.visible, g) in e.visible;
    }
    if g != "" {
      ListedEntry(o, w.target, e.now, e.visible, g);
    }
  }

  lemma MergedAt(o: Options, t: Target, now: int, visible: set<Delivery>)
    requires ProperIDs(visible)
    ensures AfterMerge(o, t, now, visible).scanned && AfterMerge(o, t, now, visible).lastScan == now
  {
  }

  lemma UnlistedIsRemembered(o: Options, late: int, w: World, e: Event, g: string)
    requires ValidOptions(o) && 0 <= late <= o.overlap && RequestInv(o, late, w) && SinceInv(o, w)
    requires e.Listed? && Admissible(o, late, w, e)
    requires !Knows(Window(e.visible, Since(o, w.target, e.now)), g)
    ensures var t := AfterMerge(o, w.target, e.now, e.visible);
            var v := World(t, e.visible, Since(o, w.target, e.now), w.requested);
            RequestRemembered(o, late, v, g)
  {
    var since := Since(o, w.target, e.now);
    WindowProper(e.visible, since);
    MergeKeepsCache(o, late, w, e, g);
    assert NoRecentSuccess(w, g) && RequestRemembered(o, late, w, g);
    if w.target.scanned {
      assert EntryTrue(o, w.target, w.visible, g) && EntryThere(o, w.target, w.visible, g);
    }
    if Knows(e.visible, g) {
      Unlisted(o, late, w, e.now, e.visible, g);
    }
  }

  lemma MergeKeepsRequests(o: Options, late: int, w: World, e: Event, g: string)
    requires ValidOptions(o) && 0 <= late <= o.overlap && RequestInv(o, late, w) && SinceInv(o, w)
    requires e.Listed? && Admissible(o, late, w, e)
    ensures var t := AfterMerge(o, w.target, e.now, e.visible);
            var v := World(t, e.visible, Since(o, w.target, e.now), w.requested);
            NoRecentSuccess(v, g) && RequestRemembered(o, late, v, g)
  {
    hide AfterMerge;
    MergeKeepsNoSuccess(o, late, w, e, g);
    MergeRemembers(o, late, w, e, g);
  }

  lemma StepKeepsRequests(o: Options, late: int, w: World, e: Event)
    requires ValidOptions(o) && 0 <= late <= o.overlap && RequestInv(o, late, w) && SinceInv(o, w)
    requires Admissible(o, late, w, e)
    ensures RequestInv(o, late, After(o, late, w, e)) && SinceInv(o, After(o, late, w, e))
  {
    SinceAdvances(o, late, w, e);
    StepKeepsCache(o, late, w, e);
    var v := After(o, late, w, e);
    forall g
      ensures NoRecentSuccess(v, g) && RequestRemembered(o, late, v, g)
    {
      if e.Listed? {
        MergeKeepsRequests(o, late, w, e, g);
        MergeKeepsCache(o, late, w, e, g);
      }
    }
  }

  lemma {:induction false} RunKeepsRequests(o: Options, late: int, es: seq<Event>, ws: seq<World>, i: nat)
    requires ValidOptions(o) && 0 <= late <= o.overlap && IsRun(o, late, es, ws) && i < |ws|
    ensures RequestInv(o, late, ws[i]) && SinceInv(o, ws[i])
  {
    if i > 0 {
      RunKeepsRequests(o, late, es, ws, i - 1);
      StepKeepsRequests(o, late, ws[i - 1], es[i - 1]);
    }
  }

  // One step: a GUID asked for again is asked for at least grace - late after its last accepted request.
  lemma StepSpacing(o: Options, late: int, w: World, e: Event, g: string)
    requires ValidOptions(o) && 0 <= late <= o.overlap && RequestInv(o, late, w) && SinceInv(o, w)
    requires Admissible(o, late, w, e)
    requires e.Listed? && g in e.accepted && g in w.requested
    ensures e.now - w.requested[g] >= o.grace - late
  {
    MergeKeepsRequests(o, late, w, e, g);
    MergeKeepsCache(o, late, w, e, g);
  }

  lemma {:induction false} RequestStays(o: Options, late: int, es: seq<Event>, ws: seq<World>, i: nat, j: nat,
                                        g: string)
    requires ValidOptions(o) && 0 <= late <= o.overlap && IsRun(o, late, es, ws)
    requires i < j <= |es| && es[i].Listed? && g in es[i].accepted
    requires forall k :: i < k < j ==> !es[k].Restart?
    ensures g in ws[j].requested && ws[j].requested[g] >= es[i].now
  {
    hide AfterMerge, NoRecentSuccess;
    if j > i + 1 {
      RequestStays(o, late, es, ws, i, j - 1, g);
      RunKeepsRequests(o, late, es, ws, j - 1);
      assert RequestRemembered(o, late, ws[j - 1], g);
    }
  }

  // Over any run of one process, two accepted requests for a GUID are at least grace - late apart in
  // scan time, however the GUID left the pending set and came back in between. With attempts visible
  // as soon as they are made (late = 0), that is the whole grace period.
  lemma RequestsAreSpaced(o: Options, late: int, es: seq<Event>, ws: seq<World>, i: nat, j: nat, g: string)
    requires ValidOptions(o) && 0 <= late <= o.overlap && IsRun(o, late, es, ws)
    requires i < j < |es| && es[i].Listed? && es[j].Listed? && g in es[i].accepted && g in es[j].accepted
    requires forall k :: i < k < j ==> !es[k].Restart?
    ensures es[j].now - es[i].now >= o.grace - late
  {
    RequestStays(o, late, es, ws, i, j, g);
    RunKeepsRequests(o, late, es, ws, j);
    StepSpacing(o, late, ws[j], es[j], g);
  }

  // ----- fairness under the cap -----

  // The due GUIDs in the order redeliver asks for them.
  ghost predicate IsOrder(o: Options, pending: map<string, Pending>, now: int, order: seq<string>) {
    && (forall g :: g in order <==> g in pending && Due(o, pending[g], now))
    && (forall i, j :: 0 <= i < j < |order| ==> Ahead(pending[order[i]], pending[order[j]]))
  }

  function Capped(o: Options, order: seq<string>): seq<string> {
    if |order| > o.cap then order[..o.cap] else order
  }

  // Every request the scan made was accepted: the first cap due GUIDs.
  ghost predicate Served(o: Options, pending: map<string, Pending>, e: Event) {
    && e.Listed?
    && exists order :: IsOrder(o, pending, e.now, order) && e.accepted == Elements(Capped(o, order))
  }

  // The never-requested GUIDs that sort ahead of g.
  function Rivals(pending: map<string, Pending>, g: string): set<string>
    requires g in pending
  {
    set h | h in pending && pending[h].requestedAt.None? && Ahead(pending[h], pending[g])
  }

  function Elements(order: seq<string>): set<string> {
    set g | g in order
  }

  lemma {:induction false} PrefixSize(order: seq<string>, n: nat)
    requires n <= |order| && forall i, j :: 0 <= i < j < |order| ==> order[i] != order[j]
    ensures |Elements(order[..n])| == n
    decreases n
  {
    if n > 0 {
      PrefixSize(order, n - 1);
      assert order[..n] == order[..n - 1] + [order[n - 1]];
      assert Elements(order[..n]) == Elements(order[..n - 1]) + {order[n - 1]};
    }
  }

  // A served scan asks for a due, never-requested g, or else for cap of its rivals.
  lemma ServedRivals(o: Options, pending: map<string, Pending>, e: Event, g: string)
    requires ValidOptions(o) && Served(o, pending, e)
    requires g in pending && pending[g].requestedAt.None? && Due(o, pending[g], e.now)
    ensures g in e.accepted || (e.accepted <= Rivals(pending, g) && |e.accepted| == o.cap)
    ensures |Rivals(pending, g)| < o.cap ==> g in e.accepted
  {
    var order :| IsOrder(o, pending, e.now, order) && e.accepted == Elements(Capped(o, order));
    var r :| 0 <= r < |order| && order[r] == g;
    OrderDistinct(o, pending, e.now, order);
    RivalsComeFirst(o, pending, e.now, order, r);
    PrefixSize(order, r);
    if r >= o.cap {
      PrefixSize(order, o.cap);
      assert order[..o.cap] <= order[..r];
    }
  }

  lemma OrderDistinct(o: Options, pending: map<string, Pending>, now: int, order: seq<string>)
    requires IsOrder(o, pending, now, order)
    ensures forall i, j :: 0 <= i < j < |order| ==> order[i] != order[j]
  {
    forall i, j | 0 <= i < j < |order|
      ensures order[i] != order[j]
    {
      assert Ahead(pending[order[i]], pending[order[j]]);
    }
  }

  lemma RivalsComeFirst(o: Options, pending: map<string, Pending>, now: int, order: seq<string>, r: nat)
    requires IsOrder(o, pending, now, order) && r < |order| && pending[order[r]].requestedAt.None?
    ensures Rivals(pending, order[r]) == Elements(order[..r])
  {
    forall h | h in Rivals(pending, order[r])
      ensures h in order[..r]
    {
      assert h in order;
      var i :| 0 <= i < |order| && order[i] == h;
      assert i < r;
    }
  }

  // No GUID got a failed attempt after a visible 2xx.
  ghost predicate NoComeback(log: set<Delivery>)
    requires ProperIDs(log)
  {
    forall g :: g != "" && Knows(log, g) && EverSucceeded(log, g) ==> Succeeded(Newest(log, g))
  }

  ghost predicate Unchanged(w: World, e: Event, g: string) {
    e.Listed? && forall d :: d in e.visible && d.guid == g ==> d in w.visible
  }

  // A pending GUID without new attempts keeps its entry while it is within the lookback.
  lemma StaysPending(o: Options, late: int, w: World, e: Event, g: string)
    requires ValidOptions(o) && 0 <= late <= o.overlap && RequestInv(o, late, w) && SinceInv(o, w)
    requires Admissible(o, late, w, e)
    requires w.target.scanned && g in w.target.pending && Unchanged(w, e, g)
    requires w.target.pending[g].latestAt >= e.now - o.lookback
    ensures var t := AfterMerge(o, w.target, e.now, e.visible);
            g in t.pending && t.pending[g] == w.target.pending[g]
  {
    var since := Since(o, w.target, e.now);
    var window := Window(e.visible, since);
    WindowProper(e.visible, since);
    assert EntryTrue(o, w.target, w.visible, g) && NoRecentSuccess(w, g);
    assert IsNewest(e.visible, g, Newest(w.visible, g));
    NewestIs(e.visible, g, Newest(w.visible, g));
    if Knows(window, g) {
      ListedNewest(e.visible, since, g);
    }
  }

  // Nobody new sorts ahead of a GUID that was due at the previous scan, provided the overlap is shorter
  // than the grace period, or attempts show up within the grace period and no GUID fails after a 2xx.
  lemma NoNewRivals(o: Options, late: int, w: World, e: Event, g: string)
    requires ValidOptions(o) && 0 <= late <= o.overlap && RequestInv(o, late, w) && SinceInv(o, w)
    requires Admissible(o, late, w, e)
    requires o.overlap < o.grace || (late < o.grace && e.Listed? && NoComeback(e.visible))
    requires w.target.scanned && g in w.target.pending && Unchanged(w, e, g)
    requires w.target.pending[g].requestedAt.None? && Due(o, w.target.pending[g], w.target.lastScan)
    requires w.target.pending[g].latestAt >= e.now - o.lookback
    ensures var t := AfterMerge(o, w.target, e.now, e.visible);
            g in t.pending && Rivals(t.pending, g) <= Rivals(w.target.pending, g)
  {
    StaysPending(o, late, w, e, g);
    var t := AfterMerge(o, w.target, e.now, e.visible);
    forall h | h in Rivals(t.pending, g)
      ensures h in Rivals(w.target.pending, g)
    {
      OldRival(o, late, w, e, g, h);
    }
  }

  // Whoever enters the pending set at a scan has its newest attempt after that of any GUID already due.
  lemma EntrantIsYounger(o: Options, late: int, w: World, e: Event, g: string, h: string)
    requires ValidOptions(o) && 0 <= late <= o.overlap && CacheInv(o, w) && Admissible(o, late, w, e)
    requires e.Listed? && (o.overlap < o.grace || (late < o.grace && NoComeback(e.visible)))
    requires w.target.scanned && g in w.target.pending && Due(o, w.target.pending[g], w.target.lastScan)
    requires h !in w.target.pending && h in AfterMerge(o, w.target, e.now, e.visible).pending
    ensures AfterMerge(o, w.target, e.now, e.visible).pending[h].latestAt > w.target.pending[g].latestAt
  {
    var since := Since(o, w.target, e.now);
    WindowProper(e.visible, since);
    MergeKeepsCache(o, late, w, e, h);
    ListedNewest(e.visible, since, h);
    assert EntryThere(o, w.target, w.visible, h);
    var n := Newest(e.visible, h);
    if o.overlap >= o.grace {
      assert !EverSucceeded(w.visible, h);
      assert n !in w.visible;
    }
  }

  lemma OldRival(o: Options, late: int, w: World, e: Event, g: string, h: string)
    requires ValidOptions(o) && 0 <= late <= o.overlap && CacheInv(o, w) && Admissible(o, late, w, e)
    requires e.Listed? && (o.overlap < o.grace || (late < o.grace && NoComeback(e.visible)))
    requires w.target.scanned && g in w.target.pending
    requires w.target.pending[g].requestedAt.None? && Due(o, w.target.pending[g], w.target.lastScan)
    requires var t := AfterMerge(o, w.target, e.now, e.visible);
             g in t.pending && t.pending[g] == w.target.pending[g] && h in Rivals(t.pending, g)
    ensures h in Rivals(w.target.pending, g)
  {
    MergeKeepsCache(o, late, w, e, h);
    assert EntryTrue(o, w.target, w.visible, h);
    if h in w.target.pending {
      assert Newest(w.visible, h) in e.visible;
    } else {
      EntrantIsYounger(o, late, w, e, g, h);
    }
  }

  // After the listing of e, g with entry p is due and unrequested, with at most r rivals ahead of it.
  ghost predicate Queued(o: Options, w: World, e: Event, g: string, p: Pending, r: int) {
    && e.Listed? && ProperIDs(e.visible)
    && var t := AfterMerge(o, w.target, e.now, e.visible);
       && g in t.pending && t.pending[g] == p && p.requestedAt.None? && Due(o, p, e.now)
       && |Rivals(t.pending, g)| <= r
  }

  predicate Asked(e: Event, g: string) {
    e.Listed? && g in e.accepted
  }

  ghost predicate ServedScan(o: Options, w: World, e: Event) {
    && e.Listed? && ProperIDs(e.visible)
    && Served(o, AfterMerge(o, w.target, e.now, e.visible).pending, e)
  }

  // Nothing about g changes at e, and e brings nobody in ahead of it.
  ghost predicate Quiet(o: Options, late: int, w: World, e: Event, g: string, p: Pending) {
    && e.Listed? && ProperIDs(e.visible) && Unchanged(w, e, g)
    && p.latestAt >= e.now - o.lookback
    && (o.overlap < o.grace || (late < o.grace && NoComeback(e.visible)))
  }

  // A scan that passes g over serves cap of its rivals, and the next one adds none.
  lemma RivalsShrink(o: Options, late: int, w: World, e: Event, next: Event, g: string, p: Pending, r: int)
    requires ValidOptions(o) && 0 <= late <= o.overlap && RequestInv(o, late, w) && SinceInv(o, w)
    requires Admissible(o, late, w, e)
    requires Queued(o, w, e, g, p, r) && ServedScan(o, w, e) && !Asked(e, g)
    requires Admissible(o, late, After(o, late, w, e), next) && Quiet(o, late, After(o, late, w, e), next, g, p)
    ensures Queued(o, After(o, late, w, e), next, g, p, r - o.cap)
  {
    var v := After(o, late, w, e);
    StepKeepsRequests(o, late, w, e);
    var u := AfterMerge(o, w.target, e.now, e.visible);
    ServedRivals(o, u.pending, e, g);
    RivalsAfterRequests(u.pending, e.accepted, e.now, g);
    NoNewRivals(o, late, v, next, g);
    StaysPending(o, late, v, next, g);
    var t := AfterMerge(o, v.target, next.now, next.visible);
    FewerRivals(Rivals(t.pending, g), Rivals(v.target.pending, g));
  }

  lemma FewerRivals(a: set<string>, b: set<string>)
    requires a <= b
    ensures |a| <= |b|
  {
    assert b == a + (b - a);
  }

  lemma RivalsAfterRequests(pending: map<string, Pending>, accepted: set<string>, now: int, g: string)
    requires g in pending && pending[g].requestedAt.None? && g !in accepted
    requires accepted <= Rivals(pending, g)
    ensures |Rivals(MarkRequested(pending, accepted, now), g)| == |Rivals(pending, g)| - |accepted|
  {
    assert Rivals(MarkRequested(pending, accepted, now), g) == Rivals(pending, g) - accepted;
  }

  // Scans i to j all complete with their requests accepted, and after the first nothing about g changes.
  ghost predicate WaitsFrom(o: Options, late: int, es: seq<Event>, ws: seq<World>, i: nat, j: nat,
                            g: string, p: Pending)
    requires |ws| == |es| + 1 && i <= j < |es|
  {
    && (forall n :: i <= n <= j ==> ServedScan(o, ws[n], es[n]))
    && (forall n :: i < n <= j ==> Quiet(o, late, ws[n], es[n], g, p))
  }

  lemma {:induction false} PassedOver(o: Options, late: int, es: seq<Event>, ws: seq<World>, i: nat, j: nat,
                                      g: string, p: Pending, k: nat)
    requires ValidOptions(o) && 0 <= late <= o.overlap && IsRun(o, late, es, ws) && i <= j < |es|
    requires WaitsFrom(o, late, es, ws, i, j, g, p) && Queued(o, ws[i], es[i], g, p, k)
    requires forall n :: i <= n < j ==> !Asked(es[n], g)
    ensures Queued(o, ws[j], es[j], g, p, k - (j - i) * o.cap)
    decreases j - i
  {
    hide Queued, ServedScan, Quiet, RequestInv, SinceInv, Admissible, After;
    if i < j {
      PassedOver(o, late, es, ws, i, j - 1, g, p, k);
      RunKeepsRequests(o, late, es, ws, j - 1);
      assert Admissible(o, late, ws[j - 1], es[j - 1]) && Admissible(o, late, ws[j], es[j]);
      assert ServedScan(o, ws[j - 1], es[j - 1]) && Quiet(o, late, ws[j], es[j], g, p);
      RivalsShrink(o, late, ws[j - 1], es[j - 1], es[j], g, p, k - (j - 1 - i) * o.cap);
    }
  }

  // No starvation: with k rivals ahead of it, a due, never-requested GUID is asked for at the latest by
  // scan number k / cap after the present one, that is within ceil((k + 1) / cap) scans.
  lemma NoStarvation(o: Options, late: int, es: seq<Event>, ws: seq<World>, i: nat, j: nat,
                     g: string, p: Pending, k: nat)
    requires ValidOptions(o) && 0 <= late <= o.overlap && IsRun(o, late, es, ws) && i <= j < |es|
    requires WaitsFrom(o, late, es, ws, i, j, g, p) && Queued(o, ws[i], es[i], g, p, k)
    requires j - i == k / o.cap
    ensures exists n :: i <= n <= j && Asked(es[n], g)
  {
    hide Queued, ServedScan, Quiet, RequestInv, SinceInv, Admissible, After;
    if forall n :: i <= n < j ==> !Asked(es[n], g) {
      PassedOver(o, late, es, ws, i, j, g, p, k);
      assert ServedScan(o, ws[j], es[j]);
      assert k - (j - i) * o.cap == k % o.cap;
      ServedWhenFew(o, ws[j], es[j], g, p, k % o.cap);
      assert Asked(es[j], g);
    }
  }

  lemma ServedWhenFew(o: Options, w: World, e: Event, g: string, p: Pending, r: int)
    requires ValidOptions(o) && Queued(o, w, e, g, p, r) && ServedScan(o, w, e) && r < o.cap
    ensures Asked(e, g)
  {
    ServedRivals(o, AfterMerge(o, w.target, e.now, e.visible).pending, e, g);
  }
}
