/** When grouping attempts depends on the order they are listed in. */
module GroupOrder {
  import opened Deliveries

  ghost predicate Mentions(ds: seq<Delivery>, g: string) {
    exists d :: d in ds && d.guid == g
  }

  predicate SameStamp(a: Delivery, b: Delivery) {
    a.at == b.at && a.id == b.id
  }

  predicate Shows(a: Attempts, d: Delivery) {
    a.latestAt == d.at && a.latestID == d.id
  }

  // No attempt of g comes after m by time, then id.
  ghost predicate AtMost(ds: seq<Delivery>, g: string, m: Delivery) {
    forall d :: d in ds && d.guid == g ==> SameStamp(d, m) || Before(d, m)
  }

  ghost predicate AllSame(ds: seq<Delivery>, g: string, m: Delivery) {
    forall d :: d in ds && d.guid == g ==> SameStamp(d, m)
  }

  // m is a newest attempt of g, and is told from a fresh entry or has no rival.
  ghost predicate Decides(ds: seq<Delivery>, g: string, m: Delivery) {
    m in ds && m.guid == g && AtMost(ds, g, m) && (m.id != 0 || AllSame(ds, g, m))
  }

  // The newest attempt of every GUID has a non-zero id, or all its attempts share time and id.
  ghost predicate Decided(ds: seq<Delivery>) {
    forall g :: g != "" && Mentions(ds, g) ==> exists m :: Decides(ds, g, m)
  }

  // An entry shows some attempt of its GUID.
  lemma {:induction false} EntryIsSome(ds: seq<Delivery>, g: string)
    requires g != ""
    ensures g in Fold(ds) <==> Mentions(ds, g)
    ensures g in Fold(ds) ==> exists d :: d in ds && d.guid == g && Shows(Fold(ds)[g], d)
    ensures g in Fold(ds) ==> (Fold(ds)[g].succeeded <==> EverSucceeded(SetOf(ds), g))
    decreases |ds|
  {
    if ds != [] {
      var init, d := ds[..|ds| - 1], ds[|ds| - 1];
      assert ds == init + [d];
      EntryIsSome(init, g);
      assert forall e :: e in SetOf(ds) <==> e in SetOf(init) || e == d;
      if d.guid == g {
        assert d in ds;
        if g in Fold(init) && !Shows(Fold(ds)[g], d) {
          var e :| e in init && e.guid == g && Shows(Fold(init)[g], e);
          assert e in ds && Shows(Fold(ds)[g], e);
        }
      } else if g in Fold(init) {
        var e :| e in init && e.guid == g && Shows(Fold(init)[g], e);
        assert e in ds && Shows(Fold(ds)[g], e);
      }
    }
  }

  // Once the deciding attempt was listed its entry shows it, and keeps showing it.
  lemma {:induction false} EntryShows(ds: seq<Delivery>, g: string, m: Delivery)
    requires g != "" && AtMost(ds, g, m) && (m.id != 0 || AllSame(ds, g, m))
    requires exists d :: d in ds && d.guid == g && SameStamp(d, m)
    ensures g in Fold(ds) && Shows(Fold(ds)[g], m)
    decreases |ds|
  {
    var init, d := ds[..|ds| - 1], ds[|ds| - 1];
    assert ds == init + [d];
    EntryIsSome(init, g);
    if exists e :: e in init && e.guid == g && SameStamp(e, m) {
      EntryShows(init, g, m);
      assert d.guid == g ==> d in ds;
    } else {
      assert d.guid == g && SameStamp(d, m);
      if g in Fold(init) {
        var e :| e in init && e.guid == g && Shows(Fold(init)[g], e);
        assert e in ds;
      }
    }
  }

  // When every GUID is decided, only which attempts were listed matters, not in what order or how often.
  lemma DecidedIgnoresOrder(ds: seq<Delivery>, es: seq<Delivery>)
    requires SetOf(ds) == SetOf(es) && Decided(ds)
    ensures Fold(ds) == Fold(es)
  {
    assert forall d :: d in ds <==> d in es by {
      assert forall d :: d in ds <==> d in SetOf(ds);
      assert forall d :: d in es <==> d in SetOf(es);
    }
    forall g
      ensures (g in Fold(ds) <==> g in Fold(es)) && (g in Fold(ds) ==> Fold(ds)[g] == Fold(es)[g])
    {
      if g == "" {
        NoEmptyGUID(ds);
        NoEmptyGUID(es);
      } else {
        EntryIsSome(ds, g);
        EntryIsSome(es, g);
        if Mentions(ds, g) {
          var m :| Decides(ds, g, m);
          assert SameStamp(m, m);
          EntryShows(ds, g, m);
          EntryShows(es, g, m);
        }
      }
    }
  }

  lemma {:induction false} NoEmptyGUID(ds: seq<Delivery>)
    ensures "" !in Fold(ds)
    decreases |ds|
  {
    if ds != [] {
      NoEmptyGUID(ds[..|ds| - 1]);
    }
  }

  lemma {:induction false} NewestOf(ds: seq<Delivery>, g: string) returns (m: Delivery)
    requires Mentions(ds, g)
    ensures m in ds && m.guid == g && AtMost(ds, g, m)
    decreases |ds|
  {
    var init, d := ds[..|ds| - 1], ds[|ds| - 1];
    assert ds == init + [d];
    m := d;
    if Mentions(init, g) {
      m := NewestOf(init, g);
      if d.guid == g && Before(m, d) {
        m := d;
      }
    } else {
      assert forall e :: e in ds && e.guid == g ==> e == d;
    }
  }

  // With no zero id every GUID is decided, repeated ids or not.
  lemma GroupIgnoresOrder(ds: seq<Delivery>, es: seq<Delivery>)
    requires SetOf(ds) == SetOf(es) && forall d :: d in ds ==> d.id != 0
    ensures Fold(ds) == Fold(es)
  {
    forall g | g != "" && Mentions(ds, g)
      ensures exists m :: Decides(ds, g, m)
    {
      var m := NewestOf(ds, g);
      assert Decides(ds, g, m);
    }
    DecidedIgnoresOrder(ds, es);
  }

  lemma FoldOfLast(init: seq<Delivery>, d: Delivery)
    ensures Fold(init + [d]) == Add(Fold(init), d)
  {
    assert (init + [d])[..|init|] == init;
  }

  // Listed last, a newest attempt with a zero id is shown; listed before another one it is not.
  lemma LastTwo(rest: seq<Delivery>, m: Delivery, d: Delivery)
    requires m.guid == d.guid != "" && m.id == 0 && Before(d, m) && AtMost(rest, m.guid, m)
    ensures Fold(rest + [m] + [d]) != Fold(rest + [d] + [m])
  {
    var g := m.guid;
    EntryIsSome(rest, g);
    EntryIsSome(rest + [d], g);
    FoldOfLast(rest, m);
    FoldOfLast(rest + [m], d);
    FoldOfLast(rest + [d], m);
    assert Shows(Fold(rest + [m])[g], m);
    assert Shows(Fold(rest + [m] + [d])[g], d);
    assert Shows(Fold(rest + [d] + [m])[g], m);
  }

  // An undecided GUID shows one attempt or another depending on the order.
  lemma UndecidedDependsOnOrder(ds: seq<Delivery>) returns (a: seq<Delivery>, b: seq<Delivery>)
    requires !Decided(ds)
    ensures multiset(a) == multiset(b) == multiset(ds) && Fold(a) != Fold(b)
  {
    var g :| g != "" && Mentions(ds, g) && !exists m :: Decides(ds, g, m);
    var m := NewestOf(ds, g);
    assert !Decides(ds, g, m);
    var d :| d in ds && d.guid == g && !SameStamp(d, m);
    var others := Without(ds, m);
    var rest := Without(others, d);
    a, b := rest + [m] + [d], rest + [d] + [m];
    LastTwo(rest, m, d);
  }

  lemma Without(ds: seq<Delivery>, m: Delivery) returns (rest: seq<Delivery>)
    requires m in ds
    ensures multiset(rest) == multiset(ds) - multiset{m}
    ensures forall e :: e in rest ==> e in ds
    ensures forall e :: e in ds && e != m ==> e in rest
  {
    var i :| 0 <= i < |ds| && ds[i] == m;
    rest := ds[..i] + ds[i + 1..];
    assert ds == ds[..i] + [m] + ds[i + 1..];
  }

  // Grouping is the same for every order of the attempts if and only if every GUID is decided.
  lemma OrderIrrelevantIff(ds: seq<Delivery>)
    ensures (forall es: seq<Delivery> :: multiset(es) == multiset(ds) ==> Fold(es) == Fold(ds)) <==> Decided(ds)
  {
    if Decided(ds) {
      forall es: seq<Delivery> | multiset(es) == multiset(ds)
        ensures Fold(es) == Fold(ds)
      {
        assert forall d :: d in es <==> d in multiset(es);
        assert forall d :: d in ds <==> d in multiset(ds);
        DecidedIgnoresOrder(ds, es);
      }
    } else {
      var a, b := UndecidedDependsOnOrder(ds);
    }
  }

  // For instance an attempt without an id that is newer than another.
  lemma OrderMattersForZeroID()
    ensures var a, b := Delivery(0, "g", 5, 500), Delivery(3, "g", 4, 500);
            Fold([a, b]) != Fold([b, a])
  {
    var a, b := Delivery(0, "g", 5, 500), Delivery(3, "g", 4, 500);
    assert [a, b][..1] == [a] && [b, a][..1] == [b] && [a][..0] == [] && [b][..0] == [];
    assert Fold([a]) == Add(map[], a);
    assert Fold([b]) == Add(map[], b);
  }
}
