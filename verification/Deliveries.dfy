/** Webhook delivery attempts: listing them page by page and folding them by GUID. */
module Deliveries {
  import opened Wrappers

  datatype Delivery = Delivery(id: int, guid: string, at: int, status: int)

  predicate Succeeded(d: Delivery) {
    200 <= d.status <= 299
  }

  // ----- the newest attempt of a GUID -----

  predicate Before(a: Delivery, b: Delivery) {
    a.at < b.at || (a.at == b.at && a.id < b.id)
  }

  // Attempts carry IDs of their own, and zero is none of them.
  ghost predicate ProperIDs(log: set<Delivery>) {
    && (forall d :: d in log ==> d.id != 0)
    && (forall d, e :: d in log && e in log && d.id == e.id ==> d == e)
  }

  ghost predicate Knows(log: set<Delivery>, guid: string) {
    exists d :: d in log && d.guid == guid
  }

  ghost predicate EverSucceeded(log: set<Delivery>, guid: string) {
    exists d :: d in log && d.guid == guid && Succeeded(d)
  }

  ghost predicate IsNewest(log: set<Delivery>, guid: string, d: Delivery) {
    && d in log && d.guid == guid
    && forall e :: e in log && e.guid == guid ==> e == d || Before(e, d)
  }

  lemma {:induction false} NewestExists(log: set<Delivery>, guid: string)
    requires ProperIDs(log) && Knows(log, guid)
    ensures exists d :: IsNewest(log, guid, d)
    decreases |log|
  {
    var c :| c in log && c.guid == guid;
    if !IsNewest(log, guid, c) {
      var rest := log - {c};
      var e :| e in log && e.guid == guid && e != c && !Before(e, c);
      assert e in rest;
      NewestExists(rest, guid);
      var d :| IsNewest(rest, guid, d);
      assert Before(c, e);
      assert IsNewest(log, guid, d);
    }
  }

  ghost function Newest(log: set<Delivery>, guid: string): (d: Delivery)
    requires ProperIDs(log) && Knows(log, guid)
    ensures IsNewest(log, guid, d)
  {
    NewestExists(log, guid);
    var d :| IsNewest(log, guid, d);
    d
  }

  // ----- grouping -----

  datatype Attempts = Attempts(latestID: int, latestAt: int, succeeded: bool)

  // The zero value of a fresh map entry.
  const NO_ATTEMPTS := Attempts(0, ZERO_TIME, false)

  function Add(out: map<string, Attempts>, d: Delivery): map<string, Attempts> {
    if d.guid == "" then out
    else
      var a := if d.guid in out then out[d.guid] else NO_ATTEMPTS;
      var newer := a.latestID == 0 || d.at > a.latestAt || (d.at == a.latestAt && d.id > a.latestID);
      out[d.guid := Attempts(
            if newer then d.id else a.latestID,
            if newer then d.at else a.latestAt,
            a.succeeded || Succeeded(d))]
  }

  function Fold(ds: seq<Delivery>): map<string, Attempts> {
    if ds == [] then map[] else Add(Fold(ds[..|ds| - 1]), ds[|ds| - 1])
  }

  method Group(ds: seq<Delivery>) returns (out: map<string, Attempts>)
    ensures out == Fold(ds)
    ensures ProperIDs(SetOf(ds)) ==> out == Summary(SetOf(ds))
  {
    out := map[];
    for i := 0 to |ds|
      invariant out == Fold(ds[..i])
    {
      assert ds[..i + 1][..i] == ds[..i];
      var d := ds[i];
      if d.guid != "" {
        var a := if d.guid in out then out[d.guid] else NO_ATTEMPTS;
        if Succeeded(d) {
          a := a.(succeeded := true);
        }
        if a.latestID == 0 || d.at > a.latestAt || (d.at == a.latestAt && d.id > a.latestID) {
          a := a.(latestID := d.id, latestAt := d.at);
        }
        out := out[d.guid := a];
      }
    }
    assert ds[..|ds|] == ds;
    if ProperIDs(SetOf(ds)) {
      FoldIsSummary(ds);
    }
  }

  function SetOf(ds: seq<Delivery>): set<Delivery> {
    set d | d in ds
  }

  function Guids(log: set<Delivery>): set<string> {
    set d | d in log && d.guid != "" :: d.guid
  }

  // Per GUID, its newest attempt and whether any attempt got a 2xx.
  ghost function Summary(log: set<Delivery>): map<string, Attempts>
    requires ProperIDs(log)
  {
    map g | g in Guids(log) :: Attempts(Newest(log, g).id, Newest(log, g).at, EverSucceeded(log, g))
  }

  lemma NewestIs(log: set<Delivery>, guid: string, d: Delivery)
    requires ProperIDs(log) && IsNewest(log, guid, d)
    ensures Newest(log, guid) == d
  {
  }

  // The fold depends only on which attempts were listed, not on their order or repetition.
  lemma {:induction false} FoldIsSummary(ds: seq<Delivery>)
    requires ProperIDs(SetOf(ds))
    ensures Fold(ds) == Summary(SetOf(ds))
    decreases |ds|
  {
    if ds != [] {
      var init, d := ds[..|ds| - 1], ds[|ds| - 1];
      var was, log := SetOf(init), SetOf(ds);
      assert forall e :: e in log <==> e in was || e == d by {
        assert ds == init + [d];
      }
      FoldIsSummary(init);
      AddIsSummary(was, d, log);
    }
  }

  // In plain terms: every non-empty GUID of the listing has one entry, with the id and time of its latest
  // attempt by time, then id, and whether any attempt was answered with 200 to 299.
  lemma GroupedByGuid(ds: seq<Delivery>, g: string)
    requires ProperIDs(SetOf(ds))
    ensures g in Fold(ds) <==> g != "" && exists d :: d in ds && d.guid == g
    ensures g in Fold(ds) ==>
              && (exists d :: d in ds && d.guid == g && d.id == Fold(ds)[g].latestID && d.at == Fold(ds)[g].latestAt)
              && (forall d :: d in ds && d.guid == g ==>
                    || d.at < Fold(ds)[g].latestAt
                    || (d.at == Fold(ds)[g].latestAt && d.id <= Fold(ds)[g].latestID))
              && (Fold(ds)[g].succeeded <==> exists d :: d in ds && d.guid == g && 200 <= d.status <= 299)
  {
    hide Fold;
    FoldIsSummary(ds);
    if g in Guids(SetOf(ds)) {
      assert Newest(SetOf(ds), g) in ds;
    }
  }

  lemma AddIsSummary(was: set<Delivery>, d: Delivery, log: set<Delivery>)
    requires ProperIDs(log) && ProperIDs(was)
    requires forall e :: e in log <==> e in was || e == d
    ensures Add(Summary(was), d) == Summary(log)
  {
    var out := Add(Summary(was), d);
    assert out.Keys == Guids(log) by {
      assert d in log;
    }
    forall g | g in out
      ensures out[g] == Attempts(Newest(log, g).id, Newest(log, g).at, EverSucceeded(log, g))
    {
      AddOne(was, d, log, g);
    }
  }

  // How one more attempt changes the newest attempt and the verdict of a GUID.
  lemma AddOne(was: set<Delivery>, d: Delivery, log: set<Delivery>, g: string)
    requires ProperIDs(log) && g in Guids(log)
    requires forall e :: e in log <==> e in was || e == d
    ensures g != d.guid ==> g in Guids(was) && Newest(log, g) == Newest(was, g)
    ensures g == d.guid && !Knows(was, g) ==> Newest(log, g) == d
    ensures g == d.guid && Knows(was, g) ==> Newest(log, g) == if Before(Newest(was, g), d) then d else Newest(was, g)
    ensures EverSucceeded(log, g) <==> EverSucceeded(was, g) || (g == d.guid && Succeeded(d))
  {
    var e :| e in log && e.guid == g;
    if g != d.guid {
      NewestIs(log, g, Newest(was, g));
    } else if !Knows(was, g) {
      NewestIs(log, g, d);
    } else {
      var n := Newest(was, g);
      if Before(n, d) {
        NewestIs(log, g, d);
      } else {
        NewestIs(log, g, n);
      }
    }
    assert d in log;
  }

  // ----- listing -----

  datatype Page = Page(items: seq<Delivery>, cursor: string)

  datatype Response = Got(page: Page) | Fault

  const MAX_PAGES := 500

  // The attempts before the first one older than since.
  function Recent(items: seq<Delivery>, since: int): (r: seq<Delivery>)
    ensures r <= items
  {
    if items == [] || items[0].at < since then [] else [items[0]] + Recent(items[1..], since)
  }

  // The listing from cursor on, with budget pages left; None on a fault or when the budget runs out.
  function ListFrom(serve: string -> Response, cursor: string, budget: nat, since: int): Option<seq<Delivery>>
    decreases budget
  {
    if budget == 0 || serve(cursor).Fault? then None
    else
      var page := serve(cursor).page;
      var recent := Recent(page.items, since);
      if |recent| < |page.items| || page.items == [] || page.cursor == "" || page.cursor == cursor then Some(recent)
      else
        Prepend(recent, ListFrom(serve, page.cursor, budget - 1, since))
  }

  function Prepend(out: seq<Delivery>, rest: Option<seq<Delivery>>): Option<seq<Delivery>> {
    match rest case None => None case Some(more) => Some(out + more)
  }

  lemma PrependTwice(a: seq<Delivery>, b: seq<Delivery>, rest: Option<seq<Delivery>>)
    ensures Prepend(a, Prepend(b, rest)) == Prepend(a + b, rest)
    ensures Prepend([], rest) == rest
  {
    match rest
    case None =>
    case Some(more) =>
      assert a + (b + more) == (a + b) + more;
      assert [] + more == more;
  }

  lemma RecentIs(items: seq<Delivery>, since: int, n: nat)
    requires n <= |items|
    requires forall i :: 0 <= i < n ==> items[i].at >= since
    requires n < |items| ==> items[n].at < since
    ensures Recent(items, since) == items[..n]
  {
    if n > 0 {
      RecentIs(items[1..], since, n - 1);
      assert items[1..][..n - 1] == items[1..n];
      assert items[..n] == [items[0]] + items[1..n];
    }
  }

  // One page of the listing loop: append its items up to the first one older than since.
  method TakePage(out: seq<Delivery>, items: seq<Delivery>, since: int) returns (more: seq<Delivery>, ended: bool)
    ensures more == out + Recent(items, since)
    ensures ended <==> |Recent(items, since)| < |items|
  {
    more := out;
    for i := 0 to |items|
      invariant more == out + items[..i]
      invariant forall j :: 0 <= j < i ==> items[j].at >= since
    {
      if items[i].at < since {
        RecentIs(items, since, i);
        return more, true;
      }
      more := more + [items[i]];
    }
    RecentIs(items, since, |items|);
    return more, false;
  }

  method ListDeliveries(serve: string -> Response, since: int) returns (r: Option<seq<Delivery>>)
    ensures r == ListFrom(serve, "", MAX_PAGES, since)
  {
    var out: seq<Delivery> := [];
    var cursor := "";
    PrependTwice([], [], ListFrom(serve, cursor, MAX_PAGES, since));
    for page := 0 to MAX_PAGES
      invariant ListFrom(serve, "", MAX_PAGES, since) == Prepend(out, ListFrom(serve, cursor, MAX_PAGES - page, since))
    {
      var response := serve(cursor);
      if response.Fault? {
        return None;
      }
      ghost var before, items := out, response.page.items;
      var ended;
      out, ended := TakePage(out, response.page.items, since);
      if ended || |response.page.items| == 0 || response.page.cursor == "" || response.page.cursor == cursor {
        return Some(out);
      }
      PrependTwice(before, Recent(items, since), ListFrom(serve, response.page.cursor, MAX_PAGES - page - 1, since));
      cursor := response.page.cursor;
    }
    return None;
  }

  // What following the cursors from `cursor` yields: only the last page carries no cursor, or its own.
  ghost predicate Chain(serve: string -> Response, cursor: string, pages: seq<Page>)
    decreases |pages|
  {
    && pages != []
    && serve(cursor) == Got(pages[0])
    && if |pages| == 1 then pages[0].cursor == "" || pages[0].cursor == cursor
       else pages[0].cursor != "" && pages[0].cursor != cursor && Chain(serve, pages[0].cursor, pages[1..])
  }

  // The pages before the first empty one.
  function Unbroken(pages: seq<Page>): seq<Page> {
    if pages == [] || pages[0].items == [] then [] else [pages[0]] + Unbroken(pages[1..])
  }

  function Flatten(pages: seq<Page>): seq<Delivery> {
    if pages == [] then [] else pages[0].items + Flatten(pages[1..])
  }

  ghost predicate NewestFirst(log: seq<Delivery>) {
    forall i, j :: 0 <= i < j < |log| ==> log[i].at >= log[j].at
  }

  // The listing stops at a page with an old item, or with nothing behind it.
  lemma LastPage(serve: string -> Response, cursor: string, budget: nat, since: int, pages: seq<Page>)
    requires Chain(serve, cursor, pages) && budget > 0
    requires |Recent(pages[0].items, since)| < |pages[0].items| || pages[0].items == [] || |pages| == 1
    ensures ListFrom(serve, cursor, budget, since) == Some(Recent(pages[0].items, since))
  {
    hide Recent;
  }

  // Otherwise it takes the page whole and goes on.
  lemma NextPage(serve: string -> Response, cursor: string, budget: nat, since: int, pages: seq<Page>)
    requires Chain(serve, cursor, pages) && budget > 0
    requires |Recent(pages[0].items, since)| == |pages[0].items| > 0 && |pages| > 1
    ensures Chain(serve, pages[0].cursor, pages[1..])
    ensures ListFrom(serve, cursor, budget, since) ==
            Prepend(Recent(pages[0].items, since), ListFrom(serve, pages[0].cursor, budget - 1, since))
  {
    hide Recent, Prepend;
  }

  lemma {:induction false} RecentIsShorter(items: seq<Delivery>, since: int)
    ensures |Recent(items, since)| <= |items|
    ensures |Recent(items, since)| == |items| ==> Recent(items, since) == items
  {
    if items != [] {
      RecentIsShorter(items[1..], since);
      assert items == [items[0]] + items[1..];
    }
  }

  lemma {:induction false} ListFromChain(serve: string -> Response, cursor: string, budget: nat, since: int,
                                         pages: seq<Page>)
    requires Chain(serve, cursor, pages)
    ensures match ListFrom(serve, cursor, budget, since)
            case Some(out) => out == Recent(Flatten(Unbroken(pages)), since)
            case None => |pages| > budget
    decreases |pages|
  {
    var items, rest := pages[0].items, pages[1..];
    if budget == 0 {
    } else if items == [] {
      LastPage(serve, cursor, budget, since, pages);
    } else {
      assert rest == [] ==> Recent(Flatten(Unbroken(rest)), since) == [];
      UnbrokenStep(pages);
      RecentOfConcat(items, Flatten(Unbroken(rest)), since);
      RecentIsShorter(items, since);
      hide Recent, Flatten, Unbroken, Chain, ListFrom;
      if |Recent(items, since)| < |items| || |pages| == 1 {
        LastPage(serve, cursor, budget, since, pages);
      } else {
        NextPage(serve, cursor, budget, since, pages);
        ListFromChain(serve, pages[0].cursor, budget - 1, since, rest);
      }
    }
  }

  lemma UnbrokenStep(pages: seq<Page>)
    requires pages != [] && pages[0].items != []
    ensures Flatten(Unbroken(pages)) == pages[0].items + Flatten(Unbroken(pages[1..]))
  {
    assert Unbroken(pages)[1..] == Unbroken(pages[1..]);
  }

  lemma {:induction false} RecentOfConcat(a: seq<Delivery>, b: seq<Delivery>, since: int)
    ensures Recent(a + b, since) == if |Recent(a, since)| < |a| then Recent(a, since) else a + Recent(b, since)
    decreases |a|
  {
    if a == [] {
      assert a + b == b;
    } else {
      assert (a + b)[1..] == a[1..] + b;
      RecentOfConcat(a[1..], b, since);
    }
  }

  lemma {:induction false} RecentIsAllSince(log: seq<Delivery>, since: int)
    requires NewestFirst(log)
    ensures forall d :: d in Recent(log, since) <==> d in log && d.at >= since
    decreases |log|
  {
    if log != [] {
      RecentIsAllSince(log[1..], since);
      assert log == [log[0]] + log[1..];
    }
  }

  // Pages before an empty one hold a prefix of the log; without an empty page, all of it.
  lemma {:induction false} UnbrokenIsPrefix(pages: seq<Page>)
    ensures Flatten(Unbroken(pages)) <= Flatten(pages)
    ensures (forall p :: p in pages ==> p.items != []) ==> Unbroken(pages) == pages
    decreases |pages|
  {
    if pages != [] && pages[0].items != [] {
      UnbrokenIsPrefix(pages[1..]);
      assert Unbroken(pages)[1..] == Unbroken(pages[1..]);
      assert pages == [pages[0]] + pages[1..];
    }
  }

  // However the log is split into non-empty pages, a listing that returns holds exactly the
  // attempts at or after since, newest first; it fails only when the pages outnumber the cap.
  lemma ListingIsExact(serve: string -> Response, since: int, pages: seq<Page>)
    requires Chain(serve, "", pages) && NewestFirst(Flatten(pages))
    requires forall p :: p in pages ==> p.items != []
    ensures var r := ListFrom(serve, "", MAX_PAGES, since);
            && (r.None? ==> |pages| > MAX_PAGES)
            && (r.Some? ==>
                  && r.value <= Flatten(pages)
                  && forall d :: d in r.value <==> d in Flatten(pages) && d.at >= since)
  {
    UnbrokenIsPrefix(pages);
    ListFromChain(serve, "", MAX_PAGES, since, pages);
    RecentIsAllSince(Flatten(pages), since);
  }

  // An empty page ends a listing, so with empty pages allowed it is exact if and only if every
  // attempt behind the first of them is older than since.
  lemma ListingIsExactIff(serve: string -> Response, since: int, pages: seq<Page>)
    requires Chain(serve, "", pages) && NewestFirst(Flatten(pages))
    ensures var r := ListFrom(serve, "", MAX_PAGES, since);
            var seen := |Flatten(Unbroken(pages))|;
            && seen <= |Flatten(pages)|
            && (r.Some? ==>
                  ((forall d :: d in r.value <==> d in Flatten(pages) && d.at >= since) <==>
                   (forall d :: d in Flatten(pages)[seen..] && d.at >= since ==> d in Flatten(pages)[..seen])))
  {
    UnbrokenIsPrefix(pages);
    ListFromChain(serve, "", MAX_PAGES, since, pages);
    var log, seen := Flatten(pages), Flatten(Unbroken(pages));
    assert log[..|seen|] == seen;
    assert log == log[..|seen|] + log[|seen|..];
    RecentIsAllSince(seen, since);
  }

  // The pages before the first empty one hold every attempt at or after since; behind it there is nothing
  // new, or nothing at all.
  ghost predicate NothingHidden(pages: seq<Page>, since: int) {
    forall d :: d in Flatten(pages) && d.at >= since ==> d in Flatten(Unbroken(pages))
  }

  // Then a listing that returns is exact, empty pages and all.
  lemma ListingIsWhole(serve: string -> Response, since: int, pages: seq<Page>)
    requires Chain(serve, "", pages) && NewestFirst(Flatten(pages)) && NothingHidden(pages, since)
    ensures var r := ListFrom(serve, "", MAX_PAGES, since);
            r.Some? ==> forall d :: d in r.value <==> d in Flatten(pages) && d.at >= since
  {
    UnbrokenIsPrefix(pages);
    ListingIsExactIff(serve, since, pages);
    assert Flatten(pages)[..|Flatten(Unbroken(pages))|] == Flatten(Unbroken(pages));
  }

  // A fault makes a listing fail or does not matter; without faults nothing differs.
  lemma {:induction false} FaultsOnlyFail(serve: string -> Response, full: string -> Response, cursor: string,
                                          budget: nat, since: int)
    requires forall c :: serve(c).Fault? || serve(c) == full(c)
    ensures var r := ListFrom(serve, cursor, budget, since);
            && (r.None? || r == ListFrom(full, cursor, budget, since))
            && ((forall c :: serve(c).Got?) ==> r == ListFrom(full, cursor, budget, since))
    decreases budget
  {
    if budget > 0 && serve(cursor).Got? {
      FaultsOnlyFail(serve, full, serve(cursor).page.cursor, budget - 1, since);
    }
  }

  const MISSED := Delivery(1, "g", 7, 500)

  // Three pages, the second of them empty: the attempt on the third is recent and not returned.
  lemma EmptyPageHidesAttempt()
    ensures
      var first := Page([Delivery(2, "g", 8, 500)], "a");
      var pages := [first, Page([], "b"), Page([MISSED], "")];
      var serve := (c: string) => if c == "" then Got(pages[0]) else if c == "a" then Got(pages[1]) else Got(pages[2]);
      && Chain(serve, "", pages) && NewestFirst(Flatten(pages))
      && MISSED in Flatten(pages) && MISSED.at >= 5
      && ListFrom(serve, "", MAX_PAGES, 5) == Some(first.items)
  {
    var first := Page([Delivery(2, "g", 8, 500)], "a");
    var pages := [first, Page([], "b"), Page([MISSED], "")];
    var serve := (c: string) => if c == "" then Got(pages[0]) else if c == "a" then Got(pages[1]) else Got(pages[2]);
    assert "a"[0] != "b"[0];
    assert Chain(serve, "b", pages[2..]);
    assert pages[1..][1..] == pages[2..];
    assert Chain(serve, "a", pages[1..]);
    assert Flatten(pages[2..]) == [MISSED] by {
      assert pages[2..][1..] == [];
    }
    assert Flatten(pages[1..]) == [MISSED];
    assert Flatten(pages) == first.items + [MISSED];
    assert ListFrom(serve, "a", MAX_PAGES - 1, 5) == Some([]);
    assert Recent(first.items, 5) == first.items;
  }
}
