/** The deduplicating view: one row per record, the most advanced one. */
module CurrentView {
  import opened Wrappers

  datatype Row = Row(
    recordID: string,
    status: Option<string>,
    rank: nat,
    createdAt: Option<int>,
    startedAt: Option<int>,
    completedAt: Option<int>,
    queuedMs: Option<int>,
    durationMs: Option<int>,
    eventTime: int,
    receivedAt: int,
    deliveryGUID: string)

  // status_rank, then event_time, then received_at.
  predicate Below(a: Row, b: Row) {
    || a.rank < b.rank
    || (a.rank == b.rank && a.eventTime < b.eventTime)
    || (a.rank == b.rank && a.eventTime == b.eventTime && a.receivedAt < b.receivedAt)
  }

  predicate SameKey(a: Row, b: Row) {
    a.rank == b.rank && a.eventTime == b.eventTime && a.receivedAt == b.receivedAt
  }

  // ----- row numbers -----

  function Partition(rows: seq<Row>, id: string): (p: seq<Row>)
    ensures forall r :: r in p <==> r in rows && r.recordID == id
  {
    if rows == [] then []
    else
      assert rows == [rows[0]] + rows[1..];
      (if rows[0].recordID == id then [rows[0]] else []) + Partition(rows[1..], id)
  }

  ghost predicate Descending(o: seq<Row>) {
    forall i, j :: 0 <= i < j < |o| ==> !Below(o[i], o[j])
  }

  // o is an order the query may number the rows of one record in; ties fall either way.
  ghost predicate Numbered(rows: seq<Row>, id: string, o: seq<Row>) {
    multiset(o) == multiset(Partition(rows, id)) && Descending(o)
  }

  // w is a row no other row of its record outranks.
  ghost predicate Wins(rows: seq<Row>, w: Row) {
    w in rows && forall r :: r in rows && r.recordID == w.recordID ==> !Below(w, r)
  }

  function Insert(o: seq<Row>, r: Row): (p: seq<Row>)
    ensures multiset(p) == multiset(o) + multiset{r}
    ensures forall x :: x in p <==> x == r || x in o
  {
    if o == [] then [r]
    else
      assert o == [o[0]] + o[1..];
      if Below(o[0], r) then [r] + o else [o[0]] + Insert(o[1..], r)
  }

  lemma {:induction false} InsertKeepsOrder(o: seq<Row>, r: Row)
    requires Descending(o)
    ensures Descending(Insert(o, r))
  {
    if o != [] && !Below(o[0], r) {
      InsertKeepsOrder(o[1..], r);
      assert forall x :: x in Insert(o[1..], r) ==> !Below(o[0], x);
    }
  }

  function Ordered(s: seq<Row>): (o: seq<Row>)
    ensures multiset(o) == multiset(s)
  {
    if s == [] then []
    else
      assert s == s[..|s| - 1] + [s[|s| - 1]];
      Insert(Ordered(s[..|s| - 1]), s[|s| - 1])
  }

  lemma {:induction false} OrderedDescends(s: seq<Row>)
    ensures Descending(Ordered(s))
  {
    if s != [] {
      OrderedDescends(s[..|s| - 1]);
      InsertKeepsOrder(Ordered(s[..|s| - 1]), s[|s| - 1]);
    }
  }

  // A row can be given number one exactly when no row of its record outranks it.
  lemma NumberOneIffWins(rows: seq<Row>, w: Row)
    ensures Wins(rows, w) <==> exists o :: Numbered(rows, w.recordID, o) && |o| > 0 && o[0] == w
  {
    if Wins(rows, w) {
      var o := WinnerFirst(rows, w);
    }
    forall o | Numbered(rows, w.recordID, o) && |o| > 0 && o[0] == w ensures Wins(rows, w) {
      FirstWins(rows, w, o);
    }
  }

  lemma FirstWins(rows: seq<Row>, w: Row, o: seq<Row>)
    requires Numbered(rows, w.recordID, o) && |o| > 0 && o[0] == w
    ensures Wins(rows, w)
  {
    var p := Partition(rows, w.recordID);
    assert w in multiset(o) && w in p;
    forall r | r in rows && r.recordID == w.recordID ensures !Below(w, r) {
      assert r in p && r in multiset(p) && r in o;
    }
  }

  lemma WinnerFirst(rows: seq<Row>, w: Row) returns (o: seq<Row>)
    requires Wins(rows, w)
    ensures Numbered(rows, w.recordID, o) && |o| > 0 && o[0] == w
  {
    var p := Partition(rows, w.recordID);
    var i :| 0 <= i < |p| && p[i] == w;
    var rest := p[..i] + p[i + 1..];
    SetAside(p, i);
    OrderedDescends(rest);
    o := [w] + Ordered(rest);
    SameElements(Ordered(rest), rest);
  }

  lemma SetAside(p: seq<Row>, i: nat)
    requires i < |p|
    ensures multiset(p) == multiset{p[i]} + multiset(p[..i] + p[i + 1..])
    ensures forall x :: x in p[..i] + p[i + 1..] ==> x in p
  {
    assert p == p[..i] + [p[i]] + p[i + 1..];
  }

  lemma SameElements(a: seq<Row>, b: seq<Row>)
    requires multiset(a) == multiset(b)
    ensures forall x :: x in a ==> x in b
  {
    forall x | x in a ensures x in b {
      assert x in multiset(a);
    }
  }

  // ----- the view -----

  ghost predicate IsView(rows: seq<Row>, v: map<string, Row>) {
    && (forall r :: r in rows ==> r.recordID in v)
    && (forall id :: id in v ==> v[id].recordID == id && Wins(rows, v[id]))
  }

  // One more row replaces the winner of its record exactly when it outranks it, or may when it ties.
  lemma AppendRow(rows: seq<Row>, v: map<string, Row>, r: Row)
    requires IsView(rows, v)
    ensures IsView(rows + [r], if r.recordID in v && !Below(v[r.recordID], r) then v else v[r.recordID := r])
    ensures IsView(rows + [r], v[r.recordID := r]) <==> r.recordID !in v || !Below(r, v[r.recordID])
  {
    var all := rows + [r];
    assert forall x :: x in all <==> x in rows || x == r;
    if r.recordID in v && Below(r, v[r.recordID]) {
      assert v[r.recordID] in all;
      assert !Wins(all, r);
    }
  }

  lemma {:induction false} ViewExists(rows: seq<Row>) returns (v: map<string, Row>)
    ensures IsView(rows, v)
  {
    v := map[];
    if rows != [] {
      var n := |rows| - 1;
      v := ViewExists(rows[..n]);
      AppendRow(rows[..n], v, rows[n]);
      assert rows == rows[..n] + [rows[n]];
      v := if rows[n].recordID in v && !Below(v[rows[n].recordID], rows[n]) then v else v[rows[n].recordID := rows[n]];
    }
  }

  ghost predicate SameRows(a: seq<Row>, b: seq<Row>) {
    forall r :: r in a <==> r in b
  }

  // No two rows of one record tie.
  ghost predicate KeysDistinct(rows: seq<Row>) {
    forall r, s :: r in rows && s in rows && r.recordID == s.recordID && SameKey(r, s) ==> r == s
  }

  // The order and the repetition of rows do not matter: every winner has the same key,
  // and is the same row when no two rows of a record tie.
  lemma ViewIgnoresOrder(a: seq<Row>, b: seq<Row>, v: map<string, Row>, w: map<string, Row>)
    requires SameRows(a, b) && IsView(a, v) && IsView(b, w)
    ensures v.Keys == w.Keys && forall id :: id in v ==> SameKey(v[id], w[id])
    ensures KeysDistinct(a) ==> v == w
  {
    forall id | id in v ensures id in w && SameKey(v[id], w[id]) {
      assert v[id] in a && v[id] in b;
      assert w[id] in b && w[id] in a;
    }
    forall id | id in w ensures id in v {
      assert w[id] in b && w[id] in a;
    }
    if KeysDistinct(a) {
      forall id | id in v ensures v[id] == w[id] {
        assert v[id] in a && w[id] in b && w[id] in a;
      }
    }
  }

  // Appending rows only moves winners up.
  lemma AppendMovesUp(a: seq<Row>, b: seq<Row>, u: map<string, Row>, w: map<string, Row>)
    requires IsView(a, u) && (forall r :: r in a ==> r in b) && IsView(b, w)
    ensures forall id :: id in u ==> id in w && !Below(w[id], u[id])
  {
    forall id | id in u ensures id in w && !Below(w[id], u[id]) {
      assert u[id] in a && u[id] in b;
    }
  }

  // The view of two logs together is the record-wise maximum of their views.
  lemma AppendIsJoin(a: seq<Row>, b: seq<Row>, u: map<string, Row>, v: map<string, Row>, w: map<string, Row>)
    requires IsView(a, u) && IsView(b, v) && IsView(a + b, w)
    ensures w.Keys == u.Keys + v.Keys
    ensures forall id :: id in u ==> !Below(w[id], u[id])
    ensures forall id :: id in v ==> !Below(w[id], v[id])
    ensures forall id :: id in w ==> (id in u && SameKey(w[id], u[id])) || (id in v && SameKey(w[id], v[id]))
  {
    AppendMovesUp(a, a + b, u, w);
    AppendMovesUp(b, a + b, v, w);
    forall id | id in w ensures (id in u && SameKey(w[id], u[id])) || (id in v && SameKey(w[id], v[id])) {
      assert w[id] in a + b;
    }
  }

  // Rows strictly below the winner of their record change nothing.
  lemma OlderRowsChangeNothing(a: seq<Row>, b: seq<Row>, v: map<string, Row>, w: map<string, Row>)
    requires IsView(a, v)
    requires forall r :: r in b ==> r.recordID in v && Below(r, v[r.recordID])
    ensures IsView(a + b, w) <==> IsView(a, w)
  {
    var all := a + b;
    assert forall r :: r in all <==> r in a || r in b;
    if IsView(a, w) {
      forall id | id in w ensures Wins(all, w[id]) {
        assert v[id] in a && w[id] in a;
      }
    }
    if IsView(all, w) {
      forall id | id in w ensures Wins(a, w[id]) {
        assert w[id] in all && v[id] in all;
      }
    }
  }
}
