/** The recovery loop driven over any sequence of scans and restarts: what the object does is a run of the model. */
module RecoveryRuns {
  import opened Wrappers
  import opened Deliveries
  import opened Recovery
  import opened RecoveryLoop

  /** One thing that happens to a hook: the process restarts, or a scan at now. At that time GitHub has the
      attempts of `pages`, which `full` serves; `serve` is what this scan's calls get, faults included, and
      `answer` the replies to its redelivery requests. */
  datatype Round =
    | Reboot
    | Visit(now: int, pages: seq<Page>, full: string -> Response, serve: string -> Response, answer: nat -> Answer)

  function Log(r: Round): set<Delivery>
    requires r.Visit?
  {
    SetOf(Flatten(r.pages))
  }

  // The pages are a proper log, newest first, with nothing of the lookback behind an empty page.
  ghost predicate Proper(o: Options, r: Round) {
    r.Visit? ==>
      && (forall c :: r.serve(c).Fault? || r.serve(c) == r.full(c))
      && Chain(r.full, "", r.pages)
      && NewestFirst(Flatten(r.pages)) && ProperIDs(Log(r))
      && NothingHidden(r.pages, r.now - o.lookback)
  }

  // Between two scans time does not go back, no attempt disappears, and what shows up only at the second was
  // made at most `late` before the first.
  ghost predicate Grows(late: int, r: Round, s: Round) {
    r.Visit? && s.Visit? ==>
      r.now <= s.now && Log(r) <= Log(s) && forall d :: d in Log(s) && d !in Log(r) ==> d.at >= r.now - late
  }

  ghost predicate Faithful(o: Options, late: int, rounds: seq<Round>) {
    && (forall i :: 0 <= i < |rounds| ==> Proper(o, rounds[i]))
    && (forall i, j :: 0 <= i < j < |rounds| ==> Grows(late, rounds[i], rounds[j]))
  }

  // What the loop last saw is what one of the first n rounds showed, at the time of that round.
  ghost predicate SawEarlier(rounds: seq<Round>, n: nat, w: World)
    requires n <= |rounds|
  {
    && (w.visible == {} || exists k :: 0 <= k < n && rounds[k].Visit? && w.visible == Log(rounds[k]))
    && (w.target.scanned ==>
          exists k ::
            && 0 <= k < n && rounds[k].Visit?
            && w.visible == Log(rounds[k]) && w.target.lastScan == rounds[k].now)
  }

  // The listing a scan in world w gets.
  function ListingOf(o: Options, w: World, r: Round): Option<seq<Delivery>>
    requires r.Visit?
  {
    ListFrom(r.serve, "", MAX_PAGES, Since(o, w.target, r.now))
  }

  // The event of the run model that a round is: a completed listing shows the whole log of the round.
  ghost predicate Follows(o: Options, w: World, r: Round, e: Event) {
    match r
    case Reboot => e == Restart
    case Visit(now, _, _, _, _) =>
      if ListingOf(o, w, r).None? then e == FailedScan
      else e.Listed? && e.now == now && e.visible == Log(r)
  }

  // The pending set is right for every GUID of the log.
  ghost predicate HoldsOwed(o: Options, log: set<Delivery>, now: int, pending: map<string, Pending>) {
    forall g :: g != "" ==> PendingRight(o, log, now, pending, g)
  }

  // A scan every call of which is answered, over a log within the page cap.
  ghost predicate Answered(r: Round) {
    r.Visit? && (forall c :: r.serve(c).Got?) && |r.pages| <= MAX_PAGES
  }

  lemma AnsweredCompletes(o: Options, w: World, r: Round)
    requires Proper(o, r) && Answered(r)
    ensures ListingOf(o, w, r).Some?
  {
    hide ListFrom, Chain, Recent;
    var since := Since(o, w.target, r.now);
    FaultsOnlyFail(r.serve, r.full, "", MAX_PAGES, since);
    ListFromChain(r.full, "", MAX_PAGES, since, r.pages);
  }

  lemma RoundAdmissible(o: Options, late: int, rounds: seq<Round>, n: nat, w: World)
    requires Faithful(o, late, rounds) && n < |rounds| && rounds[n].Visit? && SawEarlier(rounds, n, w)
    ensures Admissible(o, late, w, Listed(rounds[n].now, Log(rounds[n]), {}))
  {
    hide AfterMerge, NewestFirst, Chain;
    assert Proper(o, rounds[n]);
    forall k | 0 <= k < n
      ensures Grows(late, rounds[k], rounds[n])
    {
    }
  }

  // One scan of the object is one event of the model.
  lemma VisitIsEvent(o: Options, late: int, w: World, r: Round, u: Target, accepted: set<string>) returns (e: Event)
    requires ValidOptions(o) && Covered(o, late) && CacheInv(o, w)
    requires r.Visit? && Proper(o, r) && Admissible(o, late, w, Listed(r.now, Log(r), {}))
    requires Visited(o, w.target, u, r.now, ListingOf(o, w, r), r.answer, accepted)
    ensures Admissible(o, late, w, e) && After(o, late, w, e).target == u && Follows(o, w, r, e)
  {
    hide ListFrom, CacheInv, Chain, NewestFirst;
    if ListingOf(o, w, r).None? {
      e := FailedScan;
    } else {
      e := Listed(r.now, Log(r), accepted);
      FaultsOnlyFail(r.serve, r.full, "", MAX_PAGES, Since(o, w.target, r.now));
      var s := Scanned(o, w.target, r.now, ListingOf(o, w, r).value);
      var order :| IsRequestOrder(o, s.pending, r.now, order) &&
                   accepted == Granted(Capped(o, order), r.answer, StopAt(r.answer, 0, |Capped(o, order)|));
      PagesAreListed(o, late, w, r.now, Log(r), r.full, r.pages, order, r.answer);
    }
  }

  lemma OneMoreRound(o: Options, late: int, rounds: seq<Round>, es: seq<Event>, ws: seq<World>, e: Event, v: World)
    requires |es| < |rounds| && IsRun(o, late, es, ws) && SawEarlier(rounds, |es|, ws[|es|])
    requires Admissible(o, late, ws[|es|], e) && v == After(o, late, ws[|es|], e)
    requires Follows(o, ws[|es|], rounds[|es|], e)
    ensures IsRun(o, late, es + [e], ws + [v]) && SawEarlier(rounds, |es| + 1, v)
  {
    hide Admissible, AfterMerge, ListFrom;
    var n := |es|;
    AfterSees(o, late, ws[n], e);
    forall i | 0 <= i < n + 1
      ensures Admissible(o, late, (ws + [v])[i], (es + [e])[i])
      ensures (ws + [v])[i + 1] == After(o, late, (ws + [v])[i], (es + [e])[i])
    {
    }
  }

  lemma AfterSees(o: Options, late: int, w: World, e: Event)
    requires Admissible(o, late, w, e)
    ensures var v := After(o, late, w, e);
            if e.Listed? then v.visible == e.visible && v.target.lastScan == e.now
            else v.visible == w.visible && (v.target == w.target || !v.target.scanned)
  {
  }

  /** Any sequence of scans and restarts, with any listing failing: the loop's cached state goes through the
      states of a run of the model whose completed listings show the log as it was. So after every completed
      listing, an answered scan among them, the object holds exactly the GUIDs still owed a redelivery, each
      with its newest attempt. */
  method Drive(o: Options, late: int, rounds: seq<Round>)
    returns (loop: HookLoop, ghost es: seq<Event>, ghost ws: seq<World>)
    requires ValidOptions(o) && Covered(o, late) && Faithful(o, late, rounds)
    ensures IsRun(o, late, es, ws) && |es| == |rounds|
    ensures forall i :: 0 <= i < |rounds| ==> Follows(o, ws[i], rounds[i], es[i])
    ensures loop.View() == ws[|rounds|].target
    ensures rounds != [] && es[|es| - 1].Listed? ==>
              HoldsOwed(o, es[|es| - 1].visible, es[|es| - 1].now, loop.pending)
    ensures rounds != [] && Answered(rounds[|rounds| - 1]) ==>
              HoldsOwed(o, Log(rounds[|rounds| - 1]), rounds[|rounds| - 1].now, loop.pending)
  {
    hide IsRun, Faithful, SawEarlier, Follows, Admissible, After, Visited, CacheInv, HoldsOwed, AfterMerge;
    loop := new HookLoop(o);
    es, ws := [], [START];
    StartIsRun(o, late, rounds);
    for n := 0 to |rounds|
      invariant fresh(loop) && loop.opts == o
      invariant |es| == n && |ws| == n + 1 && IsRun(o, late, es, ws) && SawEarlier(rounds, n, ws[n])
      invariant loop.View() == ws[n].target
      invariant forall i :: 0 <= i < n ==> Follows(o, ws[i], rounds[i], es[i])
    {
      ghost var w, e := ws[n], Restart;
      RunKeepsCache(o, late, es, ws, n);
      match rounds[n] {
        case Reboot =>
          loop := new HookLoop(o);
          RebootIsEvent(o, late, w, rounds[n]);
        case Visit(now, _, _, serve, answer) =>
          var accepted, _ := loop.Visit(now, serve, answer);
          ProperRound(o, late, rounds, n);
          RoundAdmissible(o, late, rounds, n, w);
          e := VisitIsEvent(o, late, w, rounds[n], loop.View(), accepted);
      }
      ghost var v := After(o, late, w, e);
      OneMoreRound(o, late, rounds, es, ws, e, v);
      es, ws := es + [e], ws + [v];
    }
    if rounds != [] {
      LastIsExact(o, late, rounds, es, ws);
    }
  }

  lemma LastIsExact(o: Options, late: int, rounds: seq<Round>, es: seq<Event>, ws: seq<World>)
    requires ValidOptions(o) && Covered(o, late) && Faithful(o, late, rounds) && IsRun(o, late, es, ws)
    requires |rounds| == |es| > 0 && Follows(o, ws[|es| - 1], rounds[|es| - 1], es[|es| - 1])
    ensures var e, r, pending := es[|es| - 1], rounds[|es| - 1], ws[|es|].target.pending;
            && (e.Listed? ==> HoldsOwed(o, e.visible, e.now, pending))
            && (Answered(r) ==> HoldsOwed(o, Log(r), r.now, pending))
  {
    hide PendingRight, ListFrom, Admissible, After, Proper, Grows;
    var e, r := es[|es| - 1], rounds[|es| - 1];
    if e.Listed? {
      forall g | g != ""
        ensures PendingRight(o, e.visible, e.now, ws[|es|].target.pending, g)
      {
        PendingIsExact(o, late, es, ws, |es| - 1, g);
      }
    }
    if Answered(r) {
      AnsweredCompletes(o, ws[|es| - 1], r);
    }
  }

  lemma StartIsRun(o: Options, late: int, rounds: seq<Round>)
    ensures IsRun(o, late, [], [START]) && SawEarlier(rounds, 0, START)
  {
  }

  lemma ProperRound(o: Options, late: int, rounds: seq<Round>, n: nat)
    requires Faithful(o, late, rounds) && n < |rounds|
    ensures Proper(o, rounds[n])
  {
  }

  lemma RebootIsEvent(o: Options, late: int, w: World, r: Round)
    requires r.Reboot?
    ensures Admissible(o, late, w, Restart) && After(o, late, w, Restart).target == FRESH && Follows(o, w, r, Restart)
  {
  }
}
