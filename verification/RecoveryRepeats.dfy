/** A redelivery that brought nothing is asked for again: how long a requested GUID waits for its next turn. */
module RecoveryRepeats {
  import opened Wrappers
  import opened Deliveries
  import opened Recovery

  // a's turn comes before that of b, which was requested already: a never was, was so longer ago, or at the
  // same time with the older newest attempt.
  predicate Sooner(a: Pending, b: Pending)
    requires b.requestedAt.Some?
  {
    || a.requestedAt.None?
    || a.requestedAt.value < b.requestedAt.value
    || (a.requestedAt == b.requestedAt &&
        (a.latestAt < b.latestAt || (a.latestAt == b.latestAt && a.latestID < b.latestID)))
  }

  function InFront(pending: map<string, Pending>, g: string): set<string>
    requires g in pending && pending[g].requestedAt.Some?
  {
    set h | h in pending && Sooner(pending[h], pending[g])
  }

  // The order of requests is by turn.
  lemma AheadIsSooner(a: Pending, b: Pending)
    requires b.requestedAt.Some?
    ensures Ahead(a, b) <==> Sooner(a, b)
  {
  }

  // g, last requested at pending[g].requestedAt, may be asked for again at now.
  predicate RipeAgain(o: Options, p: Pending, now: int) {
    && p.requestedAt.Some? && p.requestedAt.value < now
    && now - p.latestAt >= o.grace && now - p.requestedAt.value >= o.grace
  }

  // A served scan asks for a ripe g again, or else for cap of those in front of it.
  lemma ServedAgain(o: Options, pending: map<string, Pending>, e: Event, g: string)
    requires ValidOptions(o) && Served(o, pending, e) && g in pending && RipeAgain(o, pending[g], e.now)
    ensures g in e.accepted || (e.accepted <= InFront(pending, g) && |e.accepted| == o.cap)
    ensures |InFront(pending, g)| < o.cap ==> g in e.accepted
  {
    var order :| IsOrder(o, pending, e.now, order) && e.accepted == Elements(Capped(o, order));
    var r :| 0 <= r < |order| && order[r] == g;
    OrderDistinct(o, pending, e.now, order);
    forall h | h in Elements(order[..r])
      ensures h in InFront(pending, g)
    {
      var i :| 0 <= i < r && order[i] == h;
      assert Ahead(pending[order[i]], pending[order[r]]);
      AheadIsSooner(pending[h], pending[g]);
    }
    PrefixSize(order, r);
    FewerRivals(Elements(order[..r]), InFront(pending, g));
    if r >= o.cap {
      PrefixSize(order, o.cap);
      assert order[..o.cap] <= order[..r];
    }
  }

  // Those asked for at now go behind everybody requested before.
  lemma AskedGoBehind(pending: map<string, Pending>, accepted: set<string>, now: int, g: string)
    requires g in pending && g !in accepted && pending[g].requestedAt.Some? && pending[g].requestedAt.value < now
    requires accepted <= InFront(pending, g)
    ensures |InFront(MarkRequested(pending, accepted, now), g)| == |InFront(pending, g)| - |accepted|
  {
    assert InFront(MarkRequested(pending, accepted, now), g) == InFront(pending, g) - accepted;
  }

  // The GUIDs that enter the pending set at e.
  ghost function Entrants(o: Options, w: World, e: Event): set<string> {
    if e.Listed? && ProperIDs(e.visible)
    then AfterMerge(o, w.target, e.now, e.visible).pending.Keys - w.target.pending.Keys
    else {}
  }

  // A merge puts only entrants in front of a requested GUID without news.
  lemma OnlyEntrantsCutIn(o: Options, late: int, w: World, e: Event, g: string, p: Pending)
    requires ValidOptions(o) && 0 <= late <= o.overlap && RequestInv(o, late, w) && SinceInv(o, w)
    requires Admissible(o, late, w, e) && NoNews(o, w, e, g, p) && e.Listed?
    requires w.target.scanned && g in w.target.pending && w.target.pending[g] == p && p.requestedAt.Some?
    ensures var t := AfterMerge(o, w.target, e.now, e.visible);
            && g in t.pending && t.pending[g] == p
            && InFront(t.pending, g) <= InFront(w.target.pending, g) + Entrants(o, w, e)
  {
    StaysPending(o, late, w, e, g);
    var t := AfterMerge(o, w.target, e.now, e.visible);
    forall h | h in InFront(t.pending, g) && h in w.target.pending
      ensures h in InFront(w.target.pending, g)
    {
      EntryOnlyAges(o, late, w, e, h);
    }
  }

  // An entry that stays keeps its request, and its newest attempt is no older than before.
  lemma EntryOnlyAges(o: Options, late: int, w: World, e: Event, h: string)
    requires ValidOptions(o) && 0 <= late <= o.overlap && CacheInv(o, w) && Admissible(o, late, w, e)
    requires e.Listed? && h in w.target.pending && h in AfterMerge(o, w.target, e.now, e.visible).pending
    ensures var p, q := w.target.pending[h], AfterMerge(o, w.target, e.now, e.visible).pending[h];
            && q.requestedAt == p.requestedAt
            && (q.latestAt > p.latestAt || (q.latestAt == p.latestAt && q.latestID >= p.latestID))
  {
    MergeKeepsCache(o, late, w, e, h);
    assert EntryTrue(o, w.target, w.visible, h);
    assert Newest(w.visible, h) in e.visible;
  }

  // Nothing about g, whose entry is p, changes at e: no attempt of it shows up, and p is within the lookback.
  ghost predicate NoNews(o: Options, w: World, e: Event, g: string, p: Pending) {
    e.FailedScan? || (e.Listed? && Unchanged(w, e, g) && p.latestAt >= e.now - o.lookback)
  }

  // After the listing of e, g with entry p may be asked for again, with at most k in front of it.
  ghost predicate InLine(o: Options, w: World, e: Event, g: string, p: Pending, k: int) {
    && e.Listed? && ProperIDs(e.visible)
    && var t := AfterMerge(o, w.target, e.now, e.visible);
       && g in t.pending && t.pending[g] == p && RipeAgain(o, p, e.now)
       && |InFront(t.pending, g)| <= k
  }

  // A served scan that passes g over takes cap away from those in front of it; the next merge adds its entrants.
  lemma LineMoves(o: Options, late: int, w: World, e: Event, next: Event, g: string, p: Pending, k: int)
    requires ValidOptions(o) && 0 <= late <= o.overlap && RequestInv(o, late, w) && SinceInv(o, w)
    requires Admissible(o, late, w, e) && InLine(o, w, e, g, p, k) && ServedScan(o, w, e) && !Asked(e, g)
    requires Admissible(o, late, After(o, late, w, e), next) && ServedScan(o, After(o, late, w, e), next)
    requires NoNews(o, After(o, late, w, e), next, g, p)
    ensures InLine(o, After(o, late, w, e), next, g, p, k - o.cap + |Entrants(o, After(o, late, w, e), next)|)
  {
    var v := After(o, late, w, e);
    StepKeepsRequests(o, late, w, e);
    var u := AfterMerge(o, w.target, e.now, e.visible);
    ServedAgain(o, u.pending, e, g);
    AskedGoBehind(u.pending, e.accepted, e.now, g);
    OnlyEntrantsCutIn(o, late, v, next, g, p);
    var t := AfterMerge(o, v.target, next.now, next.visible);
    FewerRivals(InFront(t.pending, g), InFront(v.target.pending, g) + Entrants(o, v, next));
  }

  // The GUIDs that enter at the scans after i up to j, counted each time.
  ghost function Joined(o: Options, es: seq<Event>, ws: seq<World>, i: nat, j: nat): nat
    requires |ws| == |es| + 1 && i <= j < |es|
    decreases j
  {
    if i == j then 0 else Joined(o, es, ws, i, j - 1) + |Entrants(o, ws[j], es[j])|
  }

  ghost predicate AllServed(o: Options, es: seq<Event>, ws: seq<World>, i: nat, j: nat)
    requires |ws| == |es| + 1 && i <= j < |es|
  {
    forall n :: i <= n <= j ==> ServedScan(o, ws[n], es[n])
  }

  // Nothing about g changes at the events after i up to j.
  ghost predicate NoNewsFrom(o: Options, es: seq<Event>, ws: seq<World>, i: nat, j: nat, g: string, p: Pending)
    requires |ws| == |es| + 1 && i <= j < |es|
  {
    forall n :: i < n <= j ==> NoNews(o, ws[n], es[n], g, p)
  }

  lemma {:induction false} LinePassed(o: Options, late: int, es: seq<Event>, ws: seq<World>, i: nat, j: nat,
                                      g: string, p: Pending, k: nat)
    requires ValidOptions(o) && 0 <= late <= o.overlap && IsRun(o, late, es, ws) && i <= j < |es|
    requires AllServed(o, es, ws, i, j) && NoNewsFrom(o, es, ws, i, j, g, p)
    requires forall n :: i <= n < j ==> !Asked(es[n], g)
    requires InLine(o, ws[i], es[i], g, p, k)
    ensures InLine(o, ws[j], es[j], g, p, k - (j - i) * o.cap + Joined(o, es, ws, i, j))
    decreases j - i
  {
    hide InLine, RequestInv, SinceInv, Admissible, After, Entrants, NoNews, ServedScan, Asked;
    if i < j {
      LinePassed(o, late, es, ws, i, j - 1, g, p, k);
      RunKeepsRequests(o, late, es, ws, j - 1);
      assert Admissible(o, late, ws[j - 1], es[j - 1]) && Admissible(o, late, ws[j], es[j]);
      assert ServedScan(o, ws[j - 1], es[j - 1]) && ServedScan(o, ws[j], es[j]);
      LineMoves(o, late, ws[j - 1], es[j - 1], es[j], g, p, k - (j - 1 - i) * o.cap + Joined(o, es, ws, i, j - 1));
      assert (j - i) * o.cap == (j - 1 - i) * o.cap + o.cap;
    }
  }

  // The entry g was left with by the scan that asked for it stays until it is asked for again.
  lemma {:induction false} EntryStays(o: Options, late: int, es: seq<Event>, ws: seq<World>, s: nat, n: nat,
                                      g: string, p: Pending)
    requires ValidOptions(o) && 0 <= late <= o.overlap && IsRun(o, late, es, ws) && s < n <= |es|
    requires Asked(es[s], g) && g in ws[s + 1].target.pending && ws[s + 1].target.pending[g] == p
    requires forall m :: s < m < n ==> NoNews(o, ws[m], es[m], g, p) && !Asked(es[m], g)
    ensures ws[n].target.scanned && ws[n].target.lastScan >= es[s].now
    ensures g in ws[n].target.pending && ws[n].target.pending[g] == p
    decreases n
  {
    hide AfterMerge, RequestInv, SinceInv, Unchanged, ProperIDs;
    var w, e := ws[n - 1], es[n - 1];
    assert Admissible(o, late, w, e) && ws[n] == After(o, late, w, e);
    AfterEvent(o, late, w, e, g);
    if n > s + 1 {
      EntryStays(o, late, es, ws, s, n - 1, g, p);
      RunKeepsRequests(o, late, es, ws, n - 1);
      assert NoNews(o, w, e, g, p);
      if e.Listed? {
        StaysPending(o, late, w, e, g);
      }
    }
  }

  lemma AfterEvent(o: Options, late: int, w: World, e: Event, g: string)
    requires Admissible(o, late, w, e)
    ensures var v := After(o, late, w, e);
            && (e.FailedScan? ==> v == w)
            && (e.Listed? ==>
                  var t := AfterMerge(o, w.target, e.now, e.visible);
                  && v.target.scanned && v.target.lastScan == e.now
                  && (w.target.scanned ==> e.now >= w.target.lastScan)
                  && (g in t.pending ==> g in v.target.pending)
                  && (g in t.pending && g !in e.accepted ==> v.target.pending[g] == t.pending[g])
                  && (g in e.accepted ==> g in t.pending && Due(o, t.pending[g], e.now))
                  && (g in e.accepted ==> v.target.pending[g] == t.pending[g].(requestedAt := Some(e.now))))
  {
  }

  // Those in front of g after the listing of e.
  ghost function InFrontAt(o: Options, w: World, e: Event, g: string): set<string> {
    if e.Listed? && ProperIDs(e.visible) then
      var pending := AfterMerge(o, w.target, e.now, e.visible).pending;
      if g in pending && pending[g].requestedAt.Some? then InFront(pending, g) else {}
    else {}
  }

  // At the first scan i that finds g past the grace period again, g is in line.
  lemma BackInLine(o: Options, late: int, es: seq<Event>, ws: seq<World>, s: nat, i: nat, g: string, p: Pending, k: nat)
    requires ValidOptions(o) && 0 <= late <= o.overlap && IsRun(o, late, es, ws) && s < i < |es|
    requires Asked(es[s], g) && g in ws[s + 1].target.pending && ws[s + 1].target.pending[g] == p
    requires NoNewsFrom(o, es, ws, s, i, g, p) && forall m :: s < m < i ==> !Asked(es[m], g)
    requires es[i].Listed? && es[i].now > es[s].now && es[i].now - es[s].now >= o.grace
    requires |InFrontAt(o, ws[i], es[i], g)| <= k
    ensures InLine(o, ws[i], es[i], g, p, k)
  {
    hide AfterMerge, RequestInv, SinceInv, Unchanged, InFront;
    EntryStays(o, late, es, ws, s, i, g, p);
    RunKeepsRequests(o, late, es, ws, i);
    assert NoNews(o, ws[i], es[i], g, p);
    assert Admissible(o, late, ws[s], es[s]) && Admissible(o, late, ws[i], es[i]);
    AfterEvent(o, late, ws[s], es[s], g);
    StaysPending(o, late, ws[i], es[i], g);
    assert ProperIDs(es[i].visible);
  }

  // In any run of one process, a GUID whose accepted request at scan s brought no new attempt is asked for
  // again. From the first scan i that finds it past the grace period on, it takes at most (k + m) / cap further
  // served scans, k being how many are in front of it at i (those never requested, requested longer ago, or as
  // long ago with an older attempt) and m how many GUIDs enter the pending set meanwhile.
  lemma AskedAgain(o: Options, late: int, es: seq<Event>, ws: seq<World>, s: nat, i: nat, j: nat,
                   g: string, p: Pending, k: nat, m: nat)
    requires ValidOptions(o) && 0 <= late <= o.overlap && IsRun(o, late, es, ws) && s < i <= j < |es|
    requires Asked(es[s], g) && g in ws[s + 1].target.pending && ws[s + 1].target.pending[g] == p
    requires NoNewsFrom(o, es, ws, s, j, g, p) && AllServed(o, es, ws, i, j)
    requires es[i].Listed? && es[i].now > es[s].now && es[i].now - es[s].now >= o.grace
    requires |InFrontAt(o, ws[i], es[i], g)| <= k && Joined(o, es, ws, i, j) <= m
    requires j - i == (k + m) / o.cap
    ensures exists n :: s < n <= j && Asked(es[n], g)
  {
    hide InFrontAt, RequestInv, SinceInv, Admissible, After, Entrants, NoNews, Served, InFront, AfterMerge;
    if forall n :: s < n < j ==> !Asked(es[n], g) {
      assert ServedScan(o, ws[i], es[i]) && ServedScan(o, ws[j], es[j]);
      BackInLine(o, late, es, ws, s, i, g, p, k);
      LinePassed(o, late, es, ws, i, j, g, p, k);
      assert k + m - (j - i) * o.cap == (k + m) % o.cap;
      ServedAgain(o, AfterMerge(o, ws[j].target, es[j].now, es[j].visible).pending, es[j], g);
      assert Asked(es[j], g);
    }
  }
}
