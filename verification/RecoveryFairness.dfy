/** When the bound on waiting holds: the overlap has to be shorter than the grace period. */
module RecoveryFairness {
  import opened Wrappers
  import opened Deliveries
  import opened Recovery
  import opened RecoveryBounds
  import opened RecoveryLoop

  // ----- the bound -----

  // Nothing about g changes at e, and its entry p stays within the lookback.
  ghost predicate Still(o: Options, w: World, e: Event, g: string, p: Pending) {
    e.Listed? && ProperIDs(e.visible) && Unchanged(w, e, g) && p.latestAt >= e.now - o.lookback
  }

  // From scan i on, where g with entry p is due behind at most k others, every scan up to number k / cap after
  // it is served in full and brings no news of g, and none of them asks for g.
  ghost predicate Starved(o: Options, es: seq<Event>, ws: seq<World>, i: nat, g: string, p: Pending, k: nat)
    requires o.cap > 0
  {
    var j := i + k / o.cap;
    && j < |es| && |ws| == |es| + 1
    && (forall n :: i <= n <= j ==> ServedScan(o, ws[n], es[n]))
    && (forall n :: i < n <= j ==> Still(o, ws[n], es[n], g, p))
    && Queued(o, ws[i], es[i], g, p, k)
    && forall n :: i <= n <= j ==> !Asked(es[n], g)
  }

  // No run starves anybody.
  ghost predicate NeverStarves(o: Options, late: int)
    requires o.cap > 0
  {
    forall es: seq<Event>, ws: seq<World>, i: nat, g: string, p: Pending, k: nat ::
      IsRun(o, late, es, ws) ==> !Starved(o, es, ws, i, g, p, k)
  }

  lemma ShortOverlapFeeds(o: Options, late: int, es: seq<Event>, ws: seq<World>, i: nat, g: string, p: Pending, k: nat)
    requires ValidOptions(o) && 0 <= late <= o.overlap < o.grace && IsRun(o, late, es, ws)
    ensures !Starved(o, es, ws, i, g, p, k)
  {
    hide Queued, ServedScan, IsRun, Unchanged;
    if Starved(o, es, ws, i, g, p, k) {
      var j := i + k / o.cap;
      forall n | i < n <= j
        ensures Quiet(o, late, ws[n], es[n], g, p)
      {
        assert Still(o, ws[n], es[n], g, p);
      }
      NoStarvation(o, late, es, ws, i, j, g, p, k);
    }
  }

  // ----- an order for every pending set -----

  lemma {:induction false} SortedExists(pending: map<string, Pending>, todo: set<string>) returns (order: seq<string>)
    requires todo <= pending.Keys
    ensures Sorted(pending, order) && forall g :: g in order <==> g in todo
    decreases |todo|
  {
    order := [];
    if todo != {} {
      var g :| g in todo;
      order := SortedExists(pending, todo - {g});
      var i := Place(pending, order, g);
      InsertedIsSorted(pending, order, i, g);
      order := Inserted(order, i, g);
    }
  }

  lemma {:induction false} Place(pending: map<string, Pending>, order: seq<string>, g: string) returns (i: nat)
    requires Sorted(pending, order) && g in pending
    ensures i <= |order| && (i > 0 ==> !Ahead(pending[g], pending[order[i - 1]]))
    ensures forall j :: i <= j < |order| ==> Ahead(pending[g], pending[order[j]])
  {
    i := |order|;
    while i > 0 && Ahead(pending[g], pending[order[i - 1]])
      invariant 0 <= i <= |order|
      invariant forall j :: i <= j < |order| ==> Ahead(pending[g], pending[order[j]])
    {
      i := i - 1;
    }
  }

  // Whatever is pending, some scan asks for the first cap due GUIDs and has all requests accepted.
  lemma ServedExists(o: Options, pending: map<string, Pending>, now: int) returns (accepted: set<string>)
    requires ValidOptions(o) && DistinctIDs(pending)
    ensures exists order :: IsOrder(o, pending, now, order) && accepted == Elements(Capped(o, order))
    ensures forall g :: g in accepted ==> g in pending && Due(o, pending[g], now)
  {
    var order := SortedExists(pending, set g | g in pending && Due(o, pending[g], now));
    SortedIsOrder(o, pending, now, order);
    accepted := Elements(Capped(o, order));
  }

  // A served scan does not ask for a GUID with cap others ahead of it.
  lemma PassedOverByMany(o: Options, pending: map<string, Pending>, e: Event, g: string)
    requires ValidOptions(o) && Served(o, pending, e)
    requires g in pending && pending[g].requestedAt.None? && Due(o, pending[g], e.now)
    requires |Rivals(pending, g)| >= o.cap
    ensures g !in e.accepted
    ensures e.accepted <= Rivals(pending, g) && |e.accepted| == o.cap
  {
    var order :| IsOrder(o, pending, e.now, order) && e.accepted == Elements(Capped(o, order));
    var r :| 0 <= r < |order| && order[r] == g;
    OrderDistinct(o, pending, e.now, order);
    RivalsComeFirst(o, pending, e.now, order, r);
    PrefixSize(order, r);
    PrefixSize(order, o.cap);
    assert order[..o.cap] <= order[..r];
    assert Capped(o, order) == order[..o.cap];
  }

  // Any scan can be served in full; with cap others ahead of g it then asks for cap of those.
  lemma ServedStep(o: Options, late: int, w: World, now: int, log: set<Delivery>, g: string) returns (e: Event)
    requires ValidOptions(o) && Admissible(o, late, w, Listed(now, log, {})) && ProperIDs(log)
    requires var pending := AfterMerge(o, w.target, now, log).pending;
             && DistinctIDs(pending) && g in pending && pending[g].requestedAt.None? && Due(o, pending[g], now)
             && |Rivals(pending, g)| >= o.cap
    ensures e.Listed? && e.now == now && e.visible == log && Admissible(o, late, w, e) && ServedScan(o, w, e)
    ensures g !in e.accepted && |e.accepted| == o.cap
    ensures e.accepted <= Rivals(AfterMerge(o, w.target, now, log).pending, g)
  {
    hide AfterMerge, Rivals, DistinctIDs, Due;
    var pending := AfterMerge(o, w.target, now, log).pending;
    var accepted := ServedExists(o, pending, now);
    e := Listed(now, log, accepted);
    PassedOverByMany(o, pending, e, g);
  }

  lemma MergeSets(o: Options, t: Target, now: int, log: set<Delivery>)
    requires ProperIDs(log)
    ensures AfterMerge(o, t, now, log).scanned && AfterMerge(o, t, now, log).lastScan == now
  {
  }

  lemma AfterListed(o: Options, late: int, w: World, e: Event)
    requires e.Listed? && Admissible(o, late, w, e)
    ensures var t := AfterMerge(o, w.target, e.now, e.visible);
            After(o, late, w, e).target == t.(pending := MarkRequested(t.pending, e.accepted, e.now))
    ensures After(o, late, w, e).visible == e.visible
  {
  }

  // ----- a run that starves "g" -----

  // The names of the others: longer than "g" and "h", and all of different lengths.
  function Name(x: nat): (s: string)
    ensures |s| == x + 2
  {
    seq(x + 2, _ => 'r')
  }

  function Names(m: nat): set<string> {
    set x: nat | x < m :: Name(x)
  }

  lemma {:induction false} NamesCount(m: nat)
    ensures |Names(m)| == m
    decreases m
  {
    if m > 0 {
      NamesCount(m - 1);
      assert Names(m) == Names(m - 1) + {Name(m - 1)};
      assert Name(m - 1) !in Names(m - 1) by {
        forall x: nat | x < m - 1
          ensures Name(x) != Name(m - 1)
        {
          assert |Name(x)| != |Name(m - 1)|;
        }
      }
    }
  }

  function Other(x: nat, grace: int): Delivery {
    Delivery(3 + x, Name(x), -grace, 500)
  }

  function Last(m: nat, grace: int): Delivery {
    Delivery(3 + m, "g", -grace, 500)
  }

  // One failed attempt each of m others and of "g", all at the same time, and the comeback of "h".
  function Crowd(m: nat, from: int, grace: int): set<Delivery> {
    (set x: nat | x < m :: Other(x, grace)) + {HadSuccess(from), FailedAgain(from), Last(m, grace)}
  }

  lemma CrowdIs(m: nat, from: int, grace: int, d: Delivery)
    ensures d in Crowd(m, from, grace) <==>
              || (exists x: nat :: x < m && d == Other(x, grace))
              || d == HadSuccess(from) || d == FailedAgain(from) || d == Last(m, grace)
  {
  }

  lemma CrowdProper(m: nat, from: int, grace: int)
    ensures ProperIDs(Crowd(m, from, grace))
  {
  }

  // The only attempt of its GUID is its newest.
  lemma OnlyAttempt(log: set<Delivery>, d: Delivery)
    requires ProperIDs(log) && d in log && forall e :: e in log && e.guid == d.guid ==> e == d
    ensures Newest(log, d.guid) == d && (EverSucceeded(log, d.guid) <==> Succeeded(d))
  {
    NewestIs(log, d.guid, d);
  }

  lemma NewestOfOther(m: nat, from: int, grace: int, x: nat)
    requires x < m
    ensures var log := Crowd(m, from, grace);
            && ProperIDs(log) && Knows(log, Name(x))
            && Newest(log, Name(x)) == Other(x, grace) && !EverSucceeded(log, Name(x))
  {
    CrowdProper(m, from, grace);
    var log := Crowd(m, from, grace);
    forall e | e in log && e.guid == Name(x)
      ensures e == Other(x, grace)
    {
      CrowdIs(m, from, grace, e);
      assert |e.guid| == x + 2;
    }
    assert Other(x, grace) in log;
    OnlyAttempt(log, Other(x, grace));
  }

  lemma NewestOfLast(m: nat, from: int, grace: int)
    ensures var log := Crowd(m, from, grace);
            && ProperIDs(log) && Knows(log, "g") && "g" != "h" && Name(0) != "g"
            && Newest(log, "g") == Last(m, grace) && !EverSucceeded(log, "g")
            && Knows(log, "h") && EverSucceeded(log, "h")
  {
    CrowdProper(m, from, grace);
    var log := Crowd(m, from, grace);
    assert "g"[0] != "h"[0];
    forall e | e in log && e.guid == "g"
      ensures e == Last(m, grace)
    {
      CrowdIs(m, from, grace, e);
    }
    assert Last(m, grace) in log && HadSuccess(from) in log;
    OnlyAttempt(log, Last(m, grace));
    assert Succeeded(HadSuccess(from));
  }

  // Only the GUIDs of the crowd are known.
  lemma CrowdKnows(m: nat, from: int, grace: int, g: string)
    requires Knows(Crowd(m, from, grace), g)
    ensures g in Names(m) || g == "g" || g == "h"
  {
    var d :| d in Crowd(m, from, grace) && d.guid == g;
    CrowdIs(m, from, grace, d);
  }

  // After the first scan the others and "g" are pending and "h", which got a 2xx, is not.
  lemma FirstPending(o: Options, late: int, m: nat)
    requires LongOverlap(o) && late <= o.overlap
    ensures ProperIDs(Crowd(m, SecondWindow(o), o.grace))
    ensures var pending := AfterMerge(o, FRESH, 0, Crowd(m, SecondWindow(o), o.grace)).pending;
            && pending.Keys == Names(m) + {"g"} && DistinctIDs(pending)
            && pending["g"] == Pending(3 + m, -o.grace, None)
            && forall x: nat :: x < m ==> pending[Name(x)] == Pending(3 + x, -o.grace, None)
  {
    var from := SecondWindow(o);
    var log := Crowd(m, from, o.grace);
    CrowdProper(m, from, o.grace);
    var pending := AfterMerge(o, FRESH, 0, log).pending;
    forall g
      ensures EntryTrue(o, AfterMerge(o, FRESH, 0, log), log, g) && EntryThere(o, AfterMerge(o, FRESH, 0, log), log, g)
      ensures g in pending ==> pending[g].requestedAt == None
      ensures g == "h" ==> g !in pending
    {
      FirstMerge(o, late, log, g);
      if g == "h" {
        SuccessSeen(o, m);
      }
    }
    assert FirstCache(o, m, pending);
    FirstOnes(o, m, pending);
  }

  lemma FirstMerge(o: Options, late: int, log: set<Delivery>, g: string)
    requires ValidOptions(o) && late <= o.overlap && ProperIDs(log)
    ensures var t := AfterMerge(o, FRESH, 0, log);
            EntryTrue(o, t, log, g) && EntryThere(o, t, log, g) && (g in t.pending ==> t.pending[g].requestedAt == None)
  {
    MergeKeepsCache(o, late, START, Listed(0, log, {}), g);
  }

  lemma SuccessSeen(o: Options, m: nat)
    requires LongOverlap(o)
    ensures ProperIDs(Crowd(m, SecondWindow(o), o.grace))
    ensures "h" !in AfterMerge(o, FRESH, 0, Crowd(m, SecondWindow(o), o.grace)).pending
  {
    var log := Crowd(m, SecondWindow(o), o.grace);
    CrowdProper(m, SecondWindow(o), o.grace);
    var window := Window(log, -o.lookback);
    assert Since(o, FRESH, 0) == -o.lookback;
    assert HadSuccess(SecondWindow(o)) in window;
    assert EverSucceeded(window, "h") && "h" in Guids(window);
  }

  // The cache after the first scan, as the merge lemmas describe it.
  ghost predicate FirstCache(o: Options, m: nat, pending: map<string, Pending>) {
    var log := Crowd(m, SecondWindow(o), o.grace);
    && ProperIDs(log)
    && forall g ::
         && EntryTrue(o, Target(true, 0, pending), log, g) && EntryThere(o, Target(true, 0, pending), log, g)
         && (g in pending ==> pending[g].requestedAt == None) && (g == "h" ==> g !in pending)
  }

  lemma FirstOther(o: Options, m: nat, pending: map<string, Pending>, x: nat)
    requires LongOverlap(o) && FirstCache(o, m, pending) && x < m
    ensures Name(x) in pending && pending[Name(x)] == Pending(3 + x, -o.grace, None)
  {
    hide Crowd, SecondWindow, Newest, EverSucceeded, Knows, ProperIDs, Name;
    var from := SecondWindow(o);
    NewestOfOther(m, from, o.grace, x);
    assert EntryThere(o, Target(true, 0, pending), Crowd(m, from, o.grace), Name(x));
    assert EntryTrue(o, Target(true, 0, pending), Crowd(m, from, o.grace), Name(x));
    assert Name(x) != "" by {
      assert |Name(x)| == x + 2;
    }
  }

  lemma FirstLast(o: Options, m: nat, pending: map<string, Pending>)
    requires LongOverlap(o) && FirstCache(o, m, pending)
    ensures "g" in pending && pending["g"] == Pending(3 + m, -o.grace, None)
  {
    hide Crowd, SecondWindow, Newest, EverSucceeded, Knows, ProperIDs;
    var from := SecondWindow(o);
    NewestOfLast(m, from, o.grace);
    assert EntryThere(o, Target(true, 0, pending), Crowd(m, from, o.grace), "g");
    assert EntryTrue(o, Target(true, 0, pending), Crowd(m, from, o.grace), "g");
  }

  lemma FirstKnown(o: Options, m: nat, pending: map<string, Pending>, g: string)
    requires LongOverlap(o) && FirstCache(o, m, pending) && g in pending
    ensures g in Names(m) + {"g"}
    ensures Knows(Crowd(m, SecondWindow(o), o.grace), g)
    ensures pending[g].latestID == Newest(Crowd(m, SecondWindow(o), o.grace), g).id
  {
    hide Crowd, SecondWindow, Newest, EverSucceeded, Knows, ProperIDs, Names;
    var from := SecondWindow(o);
    assert EntryTrue(o, Target(true, 0, pending), Crowd(m, from, o.grace), g);
    CrowdKnows(m, from, o.grace, g);
  }

  lemma FirstDistinct(o: Options, m: nat, pending: map<string, Pending>)
    requires LongOverlap(o) && FirstCache(o, m, pending)
    ensures DistinctIDs(pending)
  {
    forall g, h | g in pending && h in pending && g != h
      ensures pending[g].latestID != pending[h].latestID
    {
      FirstKnown(o, m, pending, g);
      FirstKnown(o, m, pending, h);
    }
  }

  lemma FirstOnes(o: Options, m: nat, pending: map<string, Pending>)
    requires LongOverlap(o) && FirstCache(o, m, pending)
    ensures pending.Keys == Names(m) + {"g"} && DistinctIDs(pending)
    ensures pending["g"] == Pending(3 + m, -o.grace, None)
    ensures forall x: nat :: x < m ==> pending[Name(x)] == Pending(3 + x, -o.grace, None)
  {
    hide FirstCache, DistinctIDs;
    FirstLast(o, m, pending);
    FirstDistinct(o, m, pending);
    forall x: nat | x < m
      ensures Name(x) in pending && pending[Name(x)] == Pending(3 + x, -o.grace, None)
    {
      FirstOther(o, m, pending, x);
    }
    forall g | g in pending
      ensures g in Names(m) + {"g"}
    {
      FirstKnown(o, m, pending, g);
    }
  }

  // Among those entries all the others sort ahead of "g", and all are due.
  lemma FirstRivals(o: Options, m: nat, pending: map<string, Pending>)
    requires pending.Keys == Names(m) + {"g"} && "g" !in Names(m)
    requires pending["g"] == Pending(3 + m, -o.grace, None)
    requires forall x: nat :: x < m ==> pending[Name(x)] == Pending(3 + x, -o.grace, None)
    ensures Rivals(pending, "g") == Names(m)
    ensures forall g :: g in pending ==> Due(o, pending[g], 0)
  {
  }

  lemma GIsNoName(m: nat)
    ensures "g" !in Names(m) && "h" !in Names(m)
  {
    forall x: nat | x < m
      ensures Name(x) != "g" && Name(x) != "h"
    {
      assert |Name(x)| == x + 2;
    }
  }

  // The second scan lists the comeback but not the 2xx: "h" enters ahead of "g".
  lemma SecondEnters(o: Options, m: nat, t: Target)
    requires LongOverlap(o) && t.scanned && t.lastScan == 0
    requires "g" in t.pending && t.pending["g"] == Pending(3 + m, -o.grace, None) && "h" !in t.pending
    ensures ProperIDs(Crowd(m, SecondWindow(o), o.grace))
    ensures var u := AfterMerge(o, t, 1, Crowd(m, SecondWindow(o), o.grace)).pending;
            "g" in u && "h" in Rivals(u, "g")
  {
    var from := SecondWindow(o);
    var log := Crowd(m, from, o.grace);
    CrowdProper(m, from, o.grace);
    var window := Window(log, from);
    assert Since(o, t, 1) == from;
    SecondListed(m, from, o.grace, window);
    hide Crowd, SecondWindow, Summary, Window, Since, Merged, Rivals, ProperIDs;
    MergeFrom(o, t, 1, log, window);
    EntersAhead(t.pending, Summary(window), "g", "h", 1 - o.lookback);
  }

  lemma SecondListed(m: nat, from: int, grace: int, window: set<Delivery>)
    requires window == Window(Crowd(m, from, grace), from) && from <= -grace
    ensures ProperIDs(window) && "g" != "h"
    ensures var listed := Summary(window);
            && "g" in listed && listed["g"] == Attempts(3 + m, -grace, false)
            && "h" in listed && listed["h"] == Attempts(2, from, false)
  {
    CrowdProper(m, from, grace);
    assert "g"[0] != "h"[0];
    forall d | d in window
      ensures d.guid == "g" ==> d == Last(m, grace)
      ensures d.guid == "h" ==> d == FailedAgain(from)
    {
      CrowdIs(m, from, grace, d);
      GIsNoName(m);
    }
    CrowdIs(m, from, grace, Last(m, grace));
    CrowdIs(m, from, grace, FailedAgain(from));
    assert Last(m, grace) in window && FailedAgain(from) in window;
    hide Crowd, Window, ProperIDs;
    OnlyAttempt(window, Last(m, grace));
    OnlyAttempt(window, FailedAgain(from));
  }

  // The others that the first scan did not ask for are still ahead of "g" after the second.
  lemma SecondKeeps(o: Options, late: int, m: nat, w: World, e: Event, x: nat)
    requires LongOverlap(o) && 0 <= late <= o.overlap && RequestInv(o, late, w) && SinceInv(o, w)
    requires Admissible(o, late, w, e) && e.Listed? && e.now == 1 && e.visible == w.visible && w.target.scanned
    requires w.target.lastScan == 0
    requires "g" in w.target.pending && w.target.pending["g"] == Pending(3 + m, -o.grace, None)
    requires x < m && Name(x) in w.target.pending && w.target.pending[Name(x)] == Pending(3 + x, -o.grace, None)
    ensures var u := AfterMerge(o, w.target, 1, e.visible).pending;
            "g" in u && u["g"] == w.target.pending["g"] && Name(x) in Rivals(u, "g")
  {
    StaysPending(o, late, w, e, "g");
    StaysPending(o, late, w, e, Name(x));
  }

  // What the first scan leaves: "g" and `rest` of the others still wait, "h" is not pending.
  ghost predicate AfterFirst(o: Options, m: nat, w: World, rest: set<string>) {
    && w.target.scanned && w.target.lastScan == 0 && w.visible == Crowd(m, SecondWindow(o), o.grace)
    && "g" in w.target.pending && w.target.pending["g"] == Pending(3 + m, -o.grace, None)
    && "h" !in w.target.pending
    && rest <= Names(m) && |rest| >= o.cap - 1
    && forall x: nat :: x < m && Name(x) in rest ==>
         Name(x) in w.target.pending && w.target.pending[Name(x)] == Pending(3 + x, -o.grace, None)
  }

  function Crowded(o: Options): nat
    requires o.cap > 0
  {
    2 * o.cap - 1
  }

  ghost predicate FirstMerged(o: Options, m: nat, t: Target) {
    && t.scanned && t.lastScan == 0 && t.pending.Keys == Names(m) + {"g"} && DistinctIDs(t.pending)
    && t.pending["g"] == Pending(3 + m, -o.grace, None)
    && (forall x: nat :: x < m ==> t.pending[Name(x)] == Pending(3 + x, -o.grace, None))
    && "g" !in Names(m) && "h" !in Names(m) && |Names(m)| == m && "g" != "h"
    && Rivals(t.pending, "g") == Names(m) && Due(o, t.pending["g"], 0)
  }

  lemma FirstIsMerged(o: Options, late: int, m: nat)
    requires LongOverlap(o) && late <= o.overlap
    ensures ProperIDs(Crowd(m, SecondWindow(o), o.grace))
    ensures FirstMerged(o, m, AfterMerge(o, FRESH, 0, Crowd(m, SecondWindow(o), o.grace)))
  {
    hide AfterMerge, Crowd, SecondWindow, Rivals, Names, Name, DistinctIDs, Due, ProperIDs;
    FirstPending(o, late, m);
    GIsNoName(m);
    NamesCount(m);
    Letters();
    MergeSets(o, FRESH, 0, Crowd(m, SecondWindow(o), o.grace));
    FirstRivals(o, m, AfterMerge(o, FRESH, 0, Crowd(m, SecondWindow(o), o.grace)).pending);
  }

  lemma Letters()
    ensures "g" != "h"
  {
    assert "g"[0] != "h"[0];
  }

  // The first scan, served in full, asks for cap of the others.
  lemma FirstServed(o: Options, late: int) returns (e: Event, rest: set<string>)
    requires LongOverlap(o) && 0 <= late <= o.overlap
    ensures e.Listed? && Admissible(o, late, START, e) && ServedScan(o, START, e) && !Asked(e, "g")
    ensures Queued(o, START, e, "g", Pending(3 + Crowded(o), -o.grace, None), Crowded(o))
    ensures AfterFirst(o, Crowded(o), After(o, late, START, e), rest)
  {
    hide AfterMerge, Crowd, SecondWindow, Names, Name, Rivals, DistinctIDs;
    hide ServedScan, AfterFirst, After, Due, ProperIDs;
    var m := Crowded(o);
    var log := Crowd(m, SecondWindow(o), o.grace);
    FirstIsMerged(o, late, m);
    FirstAdmissible(o, late, log);
    e := ServedStep(o, late, START, 0, log, "g");
    rest := Names(m) - e.accepted;
    assert Names(m) == rest + e.accepted;
    FirstLeaves(o, late, m, e, rest);
  }

  lemma FirstAdmissible(o: Options, late: int, log: set<Delivery>)
    requires ProperIDs(log)
    ensures Admissible(o, late, START, Listed(0, log, {}))
  {
  }

  lemma FirstLeaves(o: Options, late: int, m: nat, e: Event, rest: set<string>)
    requires e.Listed? && e.now == 0 && e.visible == Crowd(m, SecondWindow(o), o.grace)
    requires ProperIDs(e.visible) && Admissible(o, late, START, e) && "g" !in e.accepted
    requires FirstMerged(o, m, AfterMerge(o, FRESH, 0, e.visible))
    requires rest == Names(m) - e.accepted && |rest| >= o.cap - 1
    ensures AfterFirst(o, m, After(o, late, START, e), rest)
  {
    hide AfterMerge, Crowd, SecondWindow, Names, Name, Rivals, DistinctIDs;
    hide MarkRequested, After, Admissible, Due, ProperIDs;
    FirstRest(o, m, AfterMerge(o, FRESH, 0, e.visible), e.accepted, rest);
    AfterListed(o, late, START, e);
  }

  lemma FirstRest(o: Options, m: nat, t: Target, accepted: set<string>, rest: set<string>)
    requires FirstMerged(o, m, t) && "g" !in accepted && rest == Names(m) - accepted
    ensures var pending := MarkRequested(t.pending, accepted, 0);
            && "g" in pending && pending["g"] == t.pending["g"] && "h" !in pending
            && forall x: nat :: x < m && Name(x) in rest ==>
                 Name(x) in pending && pending[Name(x)] == Pending(3 + x, -o.grace, None)
  {
  }

  lemma DistinctFromCache(o: Options, t: Target, log: set<Delivery>)
    requires ProperIDs(log) && forall g :: EntryTrue(o, t, log, g)
    ensures DistinctIDs(t.pending)
  {
    forall g, h | g in t.pending && h in t.pending && g != h
      ensures t.pending[g].latestID != t.pending[h].latestID
    {
      assert EntryTrue(o, t, log, g) && EntryTrue(o, t, log, h);
    }
  }

  // The second scan finds cap others ahead of "g" again.
  lemma SecondRivals(o: Options, late: int, m: nat, w: World, rest: set<string>)
    requires LongOverlap(o) && 0 <= late <= o.overlap && RequestInv(o, late, w) && SinceInv(o, w)
    requires AfterFirst(o, m, w, rest) && ProperIDs(w.visible)
    ensures var u := AfterMerge(o, w.target, 1, w.visible).pending;
            && "g" in u && u["g"] == Pending(3 + m, -o.grace, None)
            && |Rivals(u, "g")| >= o.cap
  {
    var e := Listed(1, w.visible, {});
    assert Admissible(o, late, w, e);
    var u := AfterMerge(o, w.target, 1, w.visible).pending;
    SecondEnters(o, m, w.target);
    StaysPending(o, late, w, e, "g");
    forall n | n in rest
      ensures n in Rivals(u, "g")
    {
      var x: nat :| x < m && n == Name(x);
      SecondKeeps(o, late, m, w, e, x);
    }
    GIsNoName(m);
    Counted(Rivals(u, "g"), rest, "h");
  }

  lemma Counted(all: set<string>, rest: set<string>, h: string)
    requires rest <= all && h in all && h !in rest
    ensures |all| >= |rest| + 1
  {
    FewerRivals(rest + {h}, all);
  }

  lemma SecondServed(o: Options, late: int, m: nat, w: World, rest: set<string>) returns (e: Event)
    requires LongOverlap(o) && 0 <= late <= o.overlap && RequestInv(o, late, w) && SinceInv(o, w)
    requires AfterFirst(o, m, w, rest) && ProperIDs(w.visible)
    ensures e.Listed? && Admissible(o, late, w, e) && ServedScan(o, w, e) && !Asked(e, "g")
    ensures Still(o, w, e, "g", Pending(3 + m, -o.grace, None))
  {
    hide AfterMerge, Crowd, SecondWindow, Names, Name, Rivals, DistinctIDs;
    hide ServedScan, Admissible, RequestInv, SinceInv;
    SecondRivals(o, late, m, w, rest);
    SecondDistinct(o, late, w);
    SecondSettled(o, m, w, rest);
    hide AfterFirst, ProperIDs;
    e := ServedStep(o, late, w, 1, w.visible, "g");
  }

  lemma SecondSettled(o: Options, m: nat, w: World, rest: set<string>)
    requires LongOverlap(o) && AfterFirst(o, m, w, rest)
    ensures Due(o, Pending(3 + m, -o.grace, None), 1) && -o.grace >= 1 - o.lookback
  {
  }

  // The merge of the second scan leaves entries with ids of their own.
  lemma SecondDistinct(o: Options, late: int, w: World)
    requires ValidOptions(o) && 0 <= late <= o.overlap && RequestInv(o, late, w)
    requires ProperIDs(w.visible) && w.target.scanned && w.target.lastScan == 0
    ensures Admissible(o, late, w, Listed(1, w.visible, {}))
    ensures DistinctIDs(AfterMerge(o, w.target, 1, w.visible).pending)
  {
    var t := AfterMerge(o, w.target, 1, w.visible);
    forall g
      ensures EntryTrue(o, t, w.visible, g)
    {
      MergeKeepsCache(o, late, w, Listed(1, w.visible, {}), g);
    }
    DistinctFromCache(o, t, w.visible);
  }

  // A run in which both scans are served in full, "g" is due behind 2 * cap - 1 others at the first, and
  // neither asks for it.
  lemma StarvingRun(o: Options, late: int) returns (es: seq<Event>, ws: seq<World>)
    requires LongOverlap(o) && 0 <= late <= o.overlap
    ensures IsRun(o, late, es, ws)
    ensures Starved(o, es, ws, 0, "g", Pending(3 + Crowded(o), -o.grace, None), Crowded(o))
  {
    hide AfterFirst, ServedScan, Queued, Still, RequestInv, SinceInv, Admissible, After, IsRun;
    var m := Crowded(o);
    var first, rest := FirstServed(o, late);
    var w := After(o, late, START, first);
    FirstInvariants(o, late, first);
    var second := SecondServed(o, late, m, w, rest);
    es, ws := TwoScans(o, late, first, second);
    OnceOnly(o.cap);
  }

  lemma FirstInvariants(o: Options, late: int, first: Event)
    requires ValidOptions(o) && 0 <= late <= o.overlap && first.Listed? && Admissible(o, late, START, first)
    ensures var w := After(o, late, START, first);
            RequestInv(o, late, w) && SinceInv(o, w) && ProperIDs(w.visible)
  {
    RunKeepsRequests(o, late, [first], [START, After(o, late, START, first)], 1);
  }

  lemma OnceOnly(cap: nat)
    requires cap > 0
    ensures (2 * cap - 1) / cap == 1
  {
    assert 2 * cap - 1 == 1 * cap + (cap - 1);
  }

  // The bound on waiting holds in every run if and only if the overlap is shorter than the grace period.
  lemma NeverStarvesIff(o: Options, late: int)
    requires ValidOptions(o) && 0 <= late <= o.overlap && o.grace < o.lookback
    ensures NeverStarves(o, late) <==> o.overlap < o.grace
  {
    hide Starved, IsRun;
    if o.overlap < o.grace {
      forall es: seq<Event>, ws: seq<World>, i: nat, g: string, p: Pending, k: nat | IsRun(o, late, es, ws)
        ensures !Starved(o, es, ws, i, g, p, k)
      {
        ShortOverlapFeeds(o, late, es, ws, i, g, p, k);
      }
    } else {
      var es, ws := StarvingRun(o, late);
    }
  }

  // The defaults are on the starving side.
  lemma DefaultsCanStarve(o: Options)
    requires o.lookback == MAX_LOOKBACK && o.overlap == 15 * MINUTE && o.grace == 5 * MINUTE && o.cap > 0
    ensures !NeverStarves(o, 0)
  {
    NeverStarvesIff(o, 0);
  }
}
