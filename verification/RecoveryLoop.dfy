/** The recovery loop as the object it is: one hook's cached state, updated in place by each scan. */
module RecoveryLoop {
  import opened Wrappers
  import opened Deliveries
  import opened Recovery

  // GitHub's answer to one redelivery request, or the context ending during the pause before it.
  datatype Answer = Accepted | Limited | Rejected | Interrupted

  datatype Result = ScanOK | ScanError | ScanRateLimited

  // order lists the due GUIDs once each, none after one it sorts ahead of.
  ghost predicate Sorted(pending: map<string, Pending>, order: seq<string>) {
    && (forall g :: g in order ==> g in pending)
    && (forall i, j :: 0 <= i < j < |order| ==> order[i] != order[j])
    && (forall i, j :: 0 <= i < j < |order| ==> !Ahead(pending[order[j]], pending[order[i]]))
  }

  ghost predicate DistinctIDs(pending: map<string, Pending>) {
    forall g, h :: g in pending && h in pending && g != h ==> pending[g].latestID != pending[h].latestID
  }

  lemma SortedIsOrder(o: Options, pending: map<string, Pending>, now: int, order: seq<string>)
    requires Sorted(pending, order) && DistinctIDs(pending)
    requires forall g :: g in order <==> g in pending && Due(o, pending[g], now)
    ensures IsOrder(o, pending, now, order)
  {
    forall i, j | 0 <= i < j < |order|
      ensures Ahead(pending[order[i]], pending[order[j]])
    {
      assert pending[order[i]].latestID != pending[order[j]].latestID;
    }
  }

  lemma InsertedIsSorted(pending: map<string, Pending>, order: seq<string>, i: nat, g: string)
    requires Sorted(pending, order) && g in pending && g !in order && i <= |order|
    requires i > 0 ==> !Ahead(pending[g], pending[order[i - 1]])
    requires forall j :: i <= j < |order| ==> Ahead(pending[g], pending[order[j]])
    ensures Sorted(pending, Inserted(order, i, g))
    ensures forall h :: h in Inserted(order, i, g) <==> h in order || h == g
  {
    hide Ahead;
    var r := Inserted(order, i, g);
    InsertedHolds(order, i, g);
    forall j | 0 <= j < i
      ensures !Ahead(pending[g], pending[order[j]])
    {
      if j < i - 1 {
        assert !Ahead(pending[order[i - 1]], pending[order[j]]);
        NotAheadTransitive(pending[g], pending[order[i - 1]], pending[order[j]]);
      }
    }
    forall j | i <= j < |order|
      ensures !Ahead(pending[order[j]], pending[g])
    {
      AheadIsAsymmetric(pending[g], pending[order[j]]);
    }
    forall j, k | 0 <= j < k < |r|
      ensures r[j] != r[k] && !Ahead(pending[r[k]], pending[r[j]])
    {
      var a, b := if j < i then j else j - 1, if k < i then k else k - 1;
      if j != i && k != i {
        assert order[a] != order[b] && !Ahead(pending[order[b]], pending[order[a]]);
      }
    }
  }

  lemma InsertedHolds(order: seq<string>, i: nat, g: string)
    requires i <= |order|
    ensures forall h :: h in Inserted(order, i, g) <==> h in order || h == g
  {
    assert order == order[..i] + order[i..];
  }

  function Inserted(order: seq<string>, i: nat, g: string): (r: seq<string>)
    requires i <= |order|
    ensures |r| == |order| + 1 && r[i] == g
    ensures forall j :: 0 <= j < i ==> r[j] == order[j]
    ensures forall j :: i < j < |r| ==> r[j] == order[j - 1]
  {
    order[..i] + [g] + order[i..]
  }

  lemma NotAheadTransitive(a: Pending, b: Pending, c: Pending)
    requires !Ahead(a, b) && !Ahead(b, c)
    ensures !Ahead(a, c)
  {
  }

  lemma AheadIsAsymmetric(a: Pending, b: Pending)
    requires Ahead(a, b)
    ensures !Ahead(b, a)
  {
  }

  lemma MarkNone(pending: map<string, Pending>, now: int)
    ensures MarkRequested(pending, {}, now) == pending
  {
  }

  lemma MarkOneMore(pending: map<string, Pending>, accepted: set<string>, now: int, g: string)
    requires g in pending && g !in accepted
    ensures var marked := MarkRequested(pending, accepted, now);
            && g in marked
            && marked[g := marked[g].(requestedAt := Some(now))] == MarkRequested(pending, accepted + {g}, now)
  {
  }

  // The first request, from n on, whose answer ends the scan; len when none does.
  function StopAt(answer: nat -> Answer, n: nat, len: nat): (s: nat)
    requires n <= len
    ensures n <= s <= len
    decreases len - n
  {
    if n == len || answer(n).Limited? || answer(n).Interrupted? then n else StopAt(answer, n + 1, len)
  }

  lemma {:induction false} StopsAtFirst(answer: nat -> Answer, n: nat, len: nat)
    requires n <= len
    ensures var s := StopAt(answer, n, len);
            && (forall k: nat :: n <= k < s ==> !answer(k).Limited? && !answer(k).Interrupted?)
            && (s < len ==> answer(s).Limited? || answer(s).Interrupted?)
    decreases len - n
  {
    if StopAt(answer, n, len) > n {
      StopsAtFirst(answer, n + 1, len);
    }
  }

  // The GUIDs among the first n whose request was accepted.
  function Granted(todo: seq<string>, answer: nat -> Answer, n: nat): set<string>
    requires n <= |todo|
  {
    if n == 0 then {}
    else Granted(todo, answer, n - 1) + if answer(n - 1).Accepted? then {todo[n - 1]} else {}
  }

  lemma {:induction false} GrantedIs(todo: seq<string>, answer: nat -> Answer, n: nat, g: string)
    requires n <= |todo|
    ensures g in Granted(todo, answer, n) <==> exists k :: 0 <= k < n && todo[k] == g && answer(k).Accepted?
    decreases n
  {
    if n > 0 {
      GrantedIs(todo, answer, n - 1, g);
    }
  }

  // When GitHub accepts everything, every candidate left after the cap is granted.
  lemma AllGranted(todo: seq<string>, answer: nat -> Answer)
    requires forall k :: answer(k).Accepted?
    ensures Granted(todo, answer, StopAt(answer, 0, |todo|)) == Elements(todo)
  {
    StopsAtFirst(answer, 0, |todo|);
    forall g
      ensures g in Granted(todo, answer, |todo|) <==> g in todo
    {
      GrantedIs(todo, answer, |todo|, g);
    }
  }

  // The first n requests were all accepted.
  lemma NotYetGranted(todo: seq<string>, answer: nat -> Answer, n: nat)
    requires n < |todo| && forall i, j :: 0 <= i < j < |todo| ==> todo[i] != todo[j]
    ensures todo[n] !in Granted(todo, answer, n)
  {
    GrantedIs(todo, answer, n, todo[n]);
  }

  predicate AllAccepted(answer: nat -> Answer, n: nat) {
    n == 0 || (AllAccepted(answer, n - 1) && answer(n - 1).Accepted?)
  }

  lemma {:induction false} NotAllAccepted(answer: nat -> Answer, n: nat, k: nat)
    requires k < n && !answer(k).Accepted?
    ensures !AllAccepted(answer, n)
    decreases n
  {
    if k < n - 1 {
      NotAllAccepted(answer, n - 1, k);
    }
  }

  lemma NothingAsked(todo: seq<string>, answer: nat -> Answer)
    ensures Granted(todo, answer, 0) == {} && AllAccepted(answer, 0)
    ensures StopAt(answer, |todo|, |todo|) == |todo|
  {
  }

  // What one more request adds to the ones before.
  lemma OneMoreAnswer(todo: seq<string>, answer: nat -> Answer, n: nat)
    requires n < |todo|
    ensures Granted(todo, answer, n + 1) ==
            Granted(todo, answer, n) + if answer(n).Accepted? then {todo[n]} else {}
    ensures AllAccepted(answer, n + 1) <==> AllAccepted(answer, n) && answer(n).Accepted?
    ensures StopAt(answer, n, |todo|) ==
            if answer(n).Limited? || answer(n).Interrupted? then n else StopAt(answer, n + 1, |todo|)
  {
  }

  class HookLoop {
    const opts: Options
    var scanned: bool
    var lastScan: int
    var pending: map<string, Pending>
    var redelivered: nat

    ghost function View(): Target
      reads this
    {
      Target(scanned, lastScan, pending)
    }

    constructor (opts: Options)
      ensures this.opts == opts && View() == FRESH && redelivered == 0
    {
      this.opts := opts;
      scanned, lastScan, pending, redelivered := false, ZERO_TIME, map[], 0;
    }

    // Apply one listing's attempts, then drop what is older than the lookback.
    method Merge(ds: seq<Delivery>, now: int)
      modifies this`pending
      ensures pending == Merged(old(pending), Fold(ds), now - opts.lookback)
    {
      var listed := Group(ds);
      Refresh(listed);
      Expire(now - opts.lookback);
    }

    method Refresh(listed: map<string, Attempts>)
      modifies this`pending
      ensures pending == Refreshed(old(pending), listed)
    {
      ghost var was := pending;
      var todo := listed.Keys;
      while todo != {}
        invariant todo <= listed.Keys
        invariant forall g :: g in todo || g !in listed ==>
                    (g in pending <==> g in was) && (g in pending ==> pending[g] == was[g])
        invariant forall g :: g in listed && g !in todo ==>
                    (g in pending <==> !listed[g].succeeded) && (g in pending ==> pending[g] == Entry(was, listed, g))
      {
        var g :| g in todo;
        todo := todo - {g};
        var a := listed[g];
        if a.succeeded {
          pending := pending - {g};
        } else {
          var p := if g in pending then pending[g] else NO_PENDING;
          if a.latestID != p.latestID {
            p := p.(latestID := a.latestID, latestAt := a.latestAt);
          }
          pending := pending[g := p];
        }
      }
    }

    method Expire(horizon: int)
      modifies this`pending
      ensures pending == Unexpired(old(pending), horizon)
    {
      ghost var was := pending;
      var todo := pending.Keys;
      while todo != {}
        invariant todo <= pending.Keys <= was.Keys
        invariant forall g :: g in was ==> (g in pending <==> g in todo || was[g].latestAt >= horizon)
        invariant forall g :: g in pending ==> pending[g] == was[g]
      {
        var g :| g in todo;
        todo := todo - {g};
        if pending[g].latestAt < horizon {
          pending := pending - {g};
        }
      }
    }

    // Where g goes among the sorted GUIDs.
    method Insert(order: seq<string>, g: string) returns (r: seq<string>)
      requires Sorted(pending, order) && g in pending && g !in order
      ensures Sorted(pending, r)
      ensures forall h :: h in r <==> h in order || h == g
    {
      var i := |order|;
      while i > 0 && Ahead(pending[g], pending[order[i - 1]])
        invariant 0 <= i <= |order|
        invariant forall j :: i <= j < |order| ==> Ahead(pending[g], pending[order[j]])
      {
        i := i - 1;
      }
      r := Inserted(order, i, g);
      InsertedIsSorted(pending, order, i, g);
    }

    // The due GUIDs, in request order: those past the grace period since their newest attempt and, if asked
    // for before, since that request.
    method Candidates(now: int) returns (order: seq<string>)
      ensures Sorted(pending, order)
      ensures forall g :: g in order <==> g in pending && Due(opts, pending[g], now)
      ensures forall g :: g in order <==>
                && g in pending && now - pending[g].latestAt >= opts.grace
                && (pending[g].requestedAt.Some? ==> now - pending[g].requestedAt.value >= opts.grace)
    {
      order := [];
      var todo := pending.Keys;
      while todo != {}
        invariant todo <= pending.Keys
        invariant Sorted(pending, order)
        invariant forall g :: g in order <==> g in pending && g !in todo && Due(opts, pending[g], now)
      {
        var g :| g in todo;
        todo := todo - {g};
        if now - pending[g].latestAt >= opts.grace {
          if pending[g].requestedAt.None? || now - pending[g].requestedAt.value >= opts.grace {
            order := Insert(order, g);
          }
        }
      }
    }

    // Ask for the due GUIDs up to the cap. A rate limit or an interruption ends the scan, any other refusal does not.
    method Redeliver(now: int, answer: nat -> Answer)
      returns (accepted: set<string>, order: seq<string>, result: Result)
      modifies this`pending, this`redelivered
      ensures Sorted(old(pending), order)
      ensures forall g :: g in order <==> g in old(pending) && Due(opts, old(pending)[g], now)
      // In times: past the grace period since the newest attempt and since the last accepted request, if any.
      ensures forall g :: g in order <==>
                && g in old(pending) && now - old(pending)[g].latestAt >= opts.grace
                && (old(pending)[g].requestedAt.Some? ==> now - old(pending)[g].requestedAt.value >= opts.grace)
      // Never-requested GUIDs first, then the least recently requested, then the oldest attempt.
      ensures forall i, j :: 0 <= i < j < |order| ==>
                var a, b := old(pending)[order[i]], old(pending)[order[j]];
                && (b.requestedAt.None? ==> a.requestedAt.None?)
                && (a.requestedAt.Some? ==> b.requestedAt.Some? && a.requestedAt.value <= b.requestedAt.value)
                && (a.requestedAt == b.requestedAt ==>
                      a.latestAt < b.latestAt || (a.latestAt == b.latestAt && a.latestID <= b.latestID))
      ensures accepted == Granted(Capped(opts, order), answer, StopAt(answer, 0, |Capped(opts, order)|))
      ensures pending == MarkRequested(old(pending), accepted, now)
      ensures redelivered == old(redelivered) + |accepted|
      ensures result == ScanOK <==> AllAccepted(answer, |Capped(opts, order)|)
      ensures var len := |Capped(opts, order)|;
              result == ScanRateLimited <==> StopAt(answer, 0, len) < len && answer(StopAt(answer, 0, len)).Limited?
      ensures |Capped(opts, order)| == (if |order| <= opts.cap then |order| else opts.cap)
      ensures Capped(opts, order) <= order
    {
      order := Candidates(now);
      var todo := order;
      if |order| > opts.cap {
        todo := order[..opts.cap];
      }
      accepted, result := Ask(todo, now, answer);
    }

    // One request was accepted: the entry remembers when.
    method Mark(ghost was: map<string, Pending>, ghost accepted: set<string>, now: int, g: string)
      requires pending == MarkRequested(was, accepted, now) && g in was && g !in accepted
      modifies this`pending, this`redelivered
      ensures pending == MarkRequested(was, accepted + {g}, now)
      ensures redelivered == old(redelivered) + 1
    {
      MarkOneMore(was, accepted, now, g);
      pending := pending[g := pending[g].(requestedAt := Some(now))];
      redelivered := redelivered + 1;
    }

    // The request loop over the candidates left after the cap.
    method Ask(todo: seq<string>, now: int, answer: nat -> Answer) returns (accepted: set<string>, result: Result)
      requires forall i, j :: 0 <= i < j < |todo| ==> todo[i] != todo[j]
      requires forall g :: g in todo ==> g in pending
      modifies this`pending, this`redelivered
      ensures accepted == Granted(todo, answer, StopAt(answer, 0, |todo|))
      ensures pending == MarkRequested(old(pending), accepted, now)
      ensures redelivered == old(redelivered) + |accepted|
      ensures result == ScanOK <==> AllAccepted(answer, |todo|)
      ensures result == ScanRateLimited <==>
                StopAt(answer, 0, |todo|) < |todo| && answer(StopAt(answer, 0, |todo|)).Limited?
    {
      hide MarkRequested, Granted, StopAt, AllAccepted;
      MarkNone(pending, now);
      NothingAsked(todo, answer);
      accepted, result := {}, ScanOK;
      for n := 0 to |todo|
        invariant accepted == Granted(todo, answer, n)
        invariant StopAt(answer, 0, |todo|) == StopAt(answer, n, |todo|)
        invariant pending == MarkRequested(old(pending), accepted, now)
        invariant redelivered == old(redelivered) + |accepted|
        invariant (result == ScanOK <==> AllAccepted(answer, n)) && result != ScanRateLimited
      {
        NotYetGranted(todo, answer, n);
        OneMoreAnswer(todo, answer, n);
        match answer(n)
        case Accepted =>
          Mark(old(pending), accepted, now, todo[n]);
          accepted := accepted + {todo[n]};
        case Limited =>
          NotAllAccepted(answer, |todo|, n);
          return accepted, ScanRateLimited;
        case Interrupted =>
          NotAllAccepted(answer, |todo|, n);
          return accepted, ScanError;
        case Rejected =>
          result := ScanError;
      }
    }

    // One scan at now: nothing changes when the listing failed, else merge it and ask for redeliveries.
    method Scan(now: int, listing: Option<seq<Delivery>>, answer: nat -> Answer)
      returns (accepted: set<string>, result: Result)
      modifies this
      ensures listing.None? ==>
                View() == old(View()) && redelivered == old(redelivered) && accepted == {} && result != ScanOK
      ensures listing.Some? ==>
                && View() == Scanned(opts, old(View()), now, listing.value).(
                     pending := MarkRequested(Scanned(opts, old(View()), now, listing.value).pending, accepted, now))
                && redelivered == old(redelivered) + |accepted|
                && (exists order ::
                      && IsRequestOrder(opts, Scanned(opts, old(View()), now, listing.value).pending, now, order)
                      && accepted == Granted(Capped(opts, order), answer, StopAt(answer, 0, |Capped(opts, order)|)))
    {
      if listing.None? {
        return {}, ScanError;
      }
      scanned, lastScan := true, now;
      Merge(listing.value, now);
      var order;
      accepted, order, result := Redeliver(now, answer);
    }

    // One scan of the hook: list the attempts since the start of its window, then scan with the answer.
    method Visit(now: int, serve: string -> Response, answer: nat -> Answer)
      returns (accepted: set<string>, result: Result)
      modifies this
      ensures Visited(opts, old(View()), View(), now,
                ListFrom(serve, "", MAX_PAGES, Since(opts, old(View()), now)), answer, accepted)
      ensures redelivered == old(redelivered) + |accepted|
    {
      var listing := ListDeliveries(serve, Since(opts, Target(scanned, lastScan, pending), now));
      accepted, result := Scan(now, listing, answer);
    }
  }

  // t became u by one scan that was given listing.
  ghost predicate Visited(o: Options, t: Target, u: Target, now: int, listing: Option<seq<Delivery>>,
                          answer: nat -> Answer, accepted: set<string>) {
    match listing
    case None => u == t && accepted == {}
    case Some(ds) =>
      var s := Scanned(o, t, now, ds);
      && u == s.(pending := MarkRequested(s.pending, accepted, now))
      && exists order ::
           && IsRequestOrder(o, s.pending, now, order)
           && accepted == Granted(Capped(o, order), answer, StopAt(answer, 0, |Capped(o, order)|))
  }

  ghost predicate IsRequestOrder(o: Options, pending: map<string, Pending>, now: int, order: seq<string>) {
    && Sorted(pending, order)
    && forall g :: g in order <==> g in pending && Due(o, pending[g], now)
  }

  // The state once a listing has been merged.
  function Scanned(o: Options, t: Target, now: int, ds: seq<Delivery>): Target {
    Target(true, now, Merged(t.pending, Fold(ds), now - o.lookback))
  }

  // A scan that was given exactly the attempts of its window is the Listed event of the run model.
  lemma ScanIsListed(o: Options, late: int, w: World, now: int, visible: set<Delivery>, ds: seq<Delivery>,
                     order: seq<string>, answer: nat -> Answer)
    requires ValidOptions(o) && Covered(o, late) && CacheInv(o, w)
    requires Admissible(o, late, w, Listed(now, visible, {}))
    requires SetOf(ds) == Window(visible, Since(o, w.target, now))
    requires IsRequestOrder(o, Scanned(o, w.target, now, ds).pending, now, order)
    ensures var accepted := Granted(Capped(o, order), answer, StopAt(answer, 0, |Capped(o, order)|));
            var e := Listed(now, visible, accepted);
            var t := Scanned(o, w.target, now, ds);
            && Admissible(o, late, w, e)
            && After(o, late, w, e).target == t.(pending := MarkRequested(t.pending, accepted, now))
            && ((forall k :: answer(k).Accepted?) ==> ServedScan(o, w, e))
  {
    hide Since, Merged, Window, CacheInv, Due, SetOf, Fold;
    var t := Scanned(o, w.target, now, ds);
    ScannedIsMerged(o, w.target, now, visible, ds);
    var todo := Capped(o, order);
    var accepted := Granted(todo, answer, StopAt(answer, 0, |todo|));
    forall g | g in accepted
      ensures g in t.pending && Due(o, t.pending[g], now)
    {
      GrantedIs(todo, answer, StopAt(answer, 0, |todo|), g);
      assert g in order;
    }
    MergedIDsDiffer(o, late, w, now, visible);
    SortedIsOrder(o, t.pending, now, order);
    if forall k :: answer(k).Accepted? {
      AllGranted(todo, answer);
    }
  }

  lemma ScannedIsMerged(o: Options, t: Target, now: int, visible: set<Delivery>, ds: seq<Delivery>)
    requires ProperIDs(visible) && SetOf(ds) == Window(visible, Since(o, t, now))
    ensures Scanned(o, t, now, ds) == AfterMerge(o, t, now, visible)
  {
    hide Since, Merged;
    WindowProper(visible, Since(o, t, now));
    FoldIsSummary(ds);
  }

  // The entries after a merge are of different attempts.
  lemma MergedIDsDiffer(o: Options, late: int, w: World, now: int, visible: set<Delivery>)
    requires ValidOptions(o) && Covered(o, late) && CacheInv(o, w)
    requires Admissible(o, late, w, Listed(now, visible, {}))
    ensures DistinctIDs(AfterMerge(o, w.target, now, visible).pending)
  {
    hide AfterMerge, CacheInv, Covered;
    var t := AfterMerge(o, w.target, now, visible);
    forall g, h | g in t.pending && h in t.pending && g != h
      ensures t.pending[g].latestID != t.pending[h].latestID
    {
      MergeKeepsCache(o, late, w, Listed(now, visible, {}), g);
      MergeKeepsCache(o, late, w, Listed(now, visible, {}), h);
    }
  }

  // From pages to a step of a run: when the pages hold the visible attempts, newest first and nothing new
  // behind an empty page, a listing from the start of the window that returns gives exactly the window, and
  // the scan that merges it is the Listed event of the run model.
  lemma PagesAreListed(o: Options, late: int, w: World, now: int, visible: set<Delivery>,
                       serve: string -> Response, pages: seq<Page>, order: seq<string>, answer: nat -> Answer)
    requires ValidOptions(o) && Covered(o, late) && CacheInv(o, w)
    requires Admissible(o, late, w, Listed(now, visible, {}))
    requires Chain(serve, "", pages) && NewestFirst(Flatten(pages)) && SetOf(Flatten(pages)) == visible
    requires NothingHidden(pages, Since(o, w.target, now))
    requires ListFrom(serve, "", MAX_PAGES, Since(o, w.target, now)).Some?
    requires var ds := ListFrom(serve, "", MAX_PAGES, Since(o, w.target, now)).value;
             IsRequestOrder(o, Scanned(o, w.target, now, ds).pending, now, order)
    ensures var ds := ListFrom(serve, "", MAX_PAGES, Since(o, w.target, now)).value;
            var accepted := Granted(Capped(o, order), answer, StopAt(answer, 0, |Capped(o, order)|));
            var e := Listed(now, visible, accepted);
            var t := Scanned(o, w.target, now, ds);
            && SetOf(ds) == Window(visible, Since(o, w.target, now))
            && Admissible(o, late, w, e)
            && After(o, late, w, e).target == t.(pending := MarkRequested(t.pending, accepted, now))
            && ((forall k :: answer(k).Accepted?) ==> ServedScan(o, w, e))
  {
    var since := Since(o, w.target, now);
    ListingIsWhole(serve, since, pages);
    var ds := ListFrom(serve, "", MAX_PAGES, since).value;
    WindowOfPages(ds, Flatten(pages), since);
    ScanIsListed(o, late, w, now, visible, ds, order, answer);
  }

  lemma WindowOfPages(ds: seq<Delivery>, log: seq<Delivery>, since: int)
    requires forall d :: d in ds <==> d in log && d.at >= since
    ensures SetOf(ds) == Window(SetOf(log), since)
  {
  }
}
