/** The `requests` table: its rows, the WHERE clauses and the ORDER BY of the
    three SELECT statements of the matching pass, and the cursors they open. */
module Orders {

  datatype Option<+T> = None | Some(value: T) {
    function GetOr(default: T): T {
      match this
      case None => default
      case Some(v) => v
    }
  }

  datatype Side = Buy | Sell

  /** A row of `requests` without its id.  `arrival` is not a column: it numbers the
      requests in the order they were made, so that a request can still be named after
      its id has been given to another one.  No code branches on it. */
  datatype Request = Request(
    user: nat, currency: string, amount: real, price: real, side: Side, arrival: nat)

  type Table = map<nat, Request>

  /** A row as a cursor hands it out. */
  datatype Row = Row(id: nat, req: Request)

  /** WHERE request_type = 1 and price <= ? and currency = ? and user_id != ?,
      bound to the columns of the buy request `b`. */
  predicate Eligible(s: Request, b: Request) {
    s.side.Sell? && s.price <= b.price && s.currency == b.currency && s.user != b.user
  }

  function Buyers(t: Table): set<nat> {
    set id | id in t && t[id].side.Buy?
  }

  function Covering(t: Table, b: Request): set<nat> {
    set id | id in t && Eligible(t[id], b) && t[id].amount >= b.amount
  }

  function Smaller(t: Table, b: Request): set<nat> {
    set id | id in t && Eligible(t[id], b) && t[id].amount < b.amount
  }

  /** ORDER BY price DESC, id ASC for buy requests; price ASC, id ASC for sell requests. */
  predicate Ahead(a: Row, b: Row) {
    Rank(a.req) < Rank(b.req) || (Rank(a.req) == Rank(b.req) && a.id < b.id)
  }

  function Rank(r: Request): real {
    if r.side.Buy? then -r.price else r.price
  }

  /** The better offer, and the older of two equal ones. */
  predicate AsksLess(a: Row, b: Row) {
    a.req.price < b.req.price || (a.req.price == b.req.price && a.id < b.id)
  }

  /** The better bid, and the older of two equal ones. */
  predicate BidsMore(a: Row, b: Row) {
    a.req.price > b.req.price || (a.req.price == b.req.price && a.id < b.id)
  }

  /** Among rows of one side the sort key means this. */
  lemma AheadMeans(a: Row, b: Row)
    ensures a.req.side.Sell? && b.req.side.Sell? ==> (Ahead(a, b) <==> AsksLess(a, b))
    ensures a.req.side.Buy? && b.req.side.Buy? ==> (Ahead(a, b) <==> BidsMore(a, b))
  {
  }

  function RowOf(t: Table, id: nat): Row
    requires id in t
  {
    Row(id, t[id])
  }

  /** The row LIMIT 1 leaves. */
  ghost function First(t: Table, ids: set<nat>): (id: nat)
    requires ids != {} && ids <= t.Keys
    ensures id in ids
    ensures forall j :: j in ids && j != id ==> Ahead(RowOf(t, id), RowOf(t, j))
  {
    var x :| x in ids;
    if ids == {x} then x
    else
      assert ids - {x} != {};
      var y := First(t, ids - {x});
      if Ahead(RowOf(t, x), RowOf(t, y)) then x else y
  }

  /** The rows `ids` of `t`, in ORDER BY order, as they were when the cursor was opened. */
  ghost function Cursor(t: Table, ids: set<nat>): (rows: seq<Row>)
    requires ids <= t.Keys
  {
    if ids == {} then [] else [RowOf(t, First(t, ids))] + Cursor(t, ids - {First(t, ids)})
  }

  ghost predicate Ascending(rows: seq<Row>) {
    forall i, j :: 0 <= i < j < |rows| ==> Ahead(rows[i], rows[j])
  }

  /** What the SELECT promises: every row of `ids` once, with its current columns, in order. */
  ghost predicate IsListing(t: Table, ids: set<nat>, rows: seq<Row>) {
    && (forall i :: 0 <= i < |rows| ==> rows[i].id in ids && rows[i].id in t && rows[i].req == t[rows[i].id])
    && (forall id :: id in ids ==> exists i :: 0 <= i < |rows| && rows[i].id == id)
    && Ascending(rows)
  }

  lemma {:induction false} CursorLists(t: Table, ids: set<nat>)
    requires ids <= t.Keys
    ensures IsListing(t, ids, Cursor(t, ids))
  {
    if ids == {} {
    } else {
      var f := First(t, ids);
      CursorLists(t, ids - {f});
      ListingExtends(t, ids, f, Cursor(t, ids - {f}));
    }
  }

  /** A buyers' cursor goes from the highest bid down and a sellers' cursor from the lowest ask up,
      rows of equal price in the order of their ids. */
  lemma CursorIsOrdered(t: Table, ids: set<nat>)
    requires ids <= t.Keys
    ensures var rows := Cursor(t, ids);
            && ((forall id :: id in ids ==> t[id].side.Sell?) ==>
                  forall i, j :: 0 <= i < j < |rows| ==> AsksLess(rows[i], rows[j]))
            && ((forall id :: id in ids ==> t[id].side.Buy?) ==>
                  forall i, j :: 0 <= i < j < |rows| ==> BidsMore(rows[i], rows[j]))
  {
    var rows := Cursor(t, ids);
    CursorLists(t, ids);
    forall i, j | 0 <= i < j < |rows| ensures Ahead(rows[i], rows[j]) {
      AheadMeans(rows[i], rows[j]);
    }
    forall i, j | 0 <= i < j < |rows|
      ensures (forall id :: id in ids ==> t[id].side.Sell?) ==> AsksLess(rows[i], rows[j])
      ensures (forall id :: id in ids ==> t[id].side.Buy?) ==> BidsMore(rows[i], rows[j])
    {
      AheadMeans(rows[i], rows[j]);
      assert rows[i].id in ids && rows[j].id in ids;
    }
  }

  lemma ListingExtends(t: Table, ids: set<nat>, f: nat, rest: seq<Row>)
    requires ids <= t.Keys && f in ids
    requires forall j :: j in ids && j != f ==> Ahead(RowOf(t, f), RowOf(t, j))
    requires IsListing(t, ids - {f}, rest)
    ensures IsListing(t, ids, [RowOf(t, f)] + rest)
  {
    var rows := [RowOf(t, f)] + rest;
    forall id | id in ids ensures exists i :: 0 <= i < |rows| && rows[i].id == id {
      if id == f {
        assert rows[0].id == f;
      } else {
        assert id in ids - {f};
        var k :| 0 <= k < |rest| && rest[k].id == id;
        assert rows[k + 1].id == id;
      }
    }
    AscendingPrepends(RowOf(t, f), rest);
  }

  lemma AscendingPrepends(row: Row, rest: seq<Row>)
    requires Ascending(rest) && forall i :: 0 <= i < |rest| ==> Ahead(row, rest[i])
    ensures Ascending([row] + rest)
  {
    var rows := [row] + rest;
    assert forall i :: 1 <= i < |rows| ==> rows[i] == rest[i - 1];
  }

  lemma RowListed(t: Table, ids: set<nat>, id: nat)
    requires ids <= t.Keys && id in ids
    ensures RowOf(t, id) in Cursor(t, ids)
  {
  }

  /** Dropping the head of a listing leaves the listing of the remaining ids. */
  lemma ListingTail(t: Table, ids: set<nat>, rows: seq<Row>)
    requires ids <= t.Keys && IsListing(t, ids, rows) && rows != []
    ensures IsListing(t, ids - {rows[0].id}, rows[1..])
  {
  }

  lemma ListingEmpty(t: Table, ids: set<nat>, rows: seq<Row>)
    requires IsListing(t, ids, rows)
    ensures rows == [] <==> ids == {}
  {
    if rows != [] {
      assert rows[0].id in ids;
    } else {
      assert forall id :: id in ids ==> false;
    }
  }

  lemma ListingHead(t: Table, ids: set<nat>, rows: seq<Row>)
    requires ids <= t.Keys && IsListing(t, ids, rows) && ids != {}
    ensures rows != [] && rows[0] == RowOf(t, First(t, ids))
  {
    ListingEmpty(t, ids, rows);
    var f := First(t, ids);
    var k :| 0 <= k < |rows| && rows[k].id == f;
    assert rows[k] == RowOf(t, f) && rows[0] == RowOf(t, rows[0].id);
  }

  lemma CursorUnfolds(t: Table, ids: set<nat>, head: Row, tail: seq<Row>)
    requires ids <= t.Keys && ids != {} && head == RowOf(t, First(t, ids))
    requires tail == Cursor(t, ids - {head.id})
    ensures [head] + tail == Cursor(t, ids)
  {
  }

  lemma {:induction false} ListingIsCursor(t: Table, ids: set<nat>, rows: seq<Row>)
    requires ids <= t.Keys && IsListing(t, ids, rows)
    ensures rows == Cursor(t, ids)
    decreases |rows|
  {
    ListingEmpty(t, ids, rows);
    if rows != [] {
      var head, tail := rows[0], rows[1..];
      ListingHead(t, ids, rows);
      ListingTail(t, ids, rows);
      ListingIsCursor(t, ids - {head.id}, tail);
      CursorUnfolds(t, ids, head, tail);
    }
  }

  /** ORDER BY leaves no freedom: two listings of the same rows are the same sequence. */
  lemma ListingUnique(t: Table, ids: set<nat>, a: seq<Row>, b: seq<Row>)
    requires ids <= t.Keys && IsListing(t, ids, a) && IsListing(t, ids, b)
    ensures a == b
  {
    ListingIsCursor(t, ids, a);
    ListingIsCursor(t, ids, b);
  }

  /** A cursor depends only on the rows it lists. */
  lemma CursorFrame(t: Table, u: Table, ids: set<nat>)
    requires ids <= t.Keys && ids <= u.Keys
    requires forall id :: id in ids ==> t[id] == u[id]
    ensures Cursor(t, ids) == Cursor(u, ids)
  {
  }

  /** What the rows ask for or offer together. */
  function Amounts(rows: seq<Row>): real
    decreases |rows|
  {
    if rows == [] then 0.0 else rows[0].req.amount + Amounts(rows[1..])
  }

  /** The rows of a cursor whose id is in `keep`. */
  function Pick(rows: seq<Row>, keep: set<nat>): (r: seq<Row>)
  {
    if rows == [] then []
    else (if rows[0].id in keep then [rows[0]] else []) + Pick(rows[1..], keep)
  }

  /** Filtering a cursor and narrowing its WHERE clause are the same thing. */
  lemma {:induction false} PickListing(t: Table, ids: set<nat>, rows: seq<Row>, keep: set<nat>)
    requires ids <= t.Keys && IsListing(t, ids, rows)
    ensures IsListing(t, ids * keep, Pick(rows, keep))
    decreases |rows|
  {
    if rows == [] {
      ListingEmpty(t, ids, rows);
    } else {
      var f := rows[0].id;
      ListingTail(t, ids, rows);
      PickListing(t, ids - {f}, rows[1..], keep);
      if f in keep {
        assert (ids - {f}) * keep == ids * keep - {f};
        forall j | j in ids * keep && j != f ensures Ahead(RowOf(t, f), RowOf(t, j)) {
          var k :| 0 <= k < |rows| && rows[k].id == j;
          assert Ahead(rows[0], rows[k]);
        }
        ListingExtends(t, ids * keep, f, Pick(rows[1..], keep));
      } else {
        assert (ids - {f}) * keep == ids * keep;
        assert Pick(rows, keep) == Pick(rows[1..], keep);
      }
    }
  }

  lemma PickCursor(t: Table, ids: set<nat>, keep: set<nat>)
    requires ids <= t.Keys
    ensures Pick(Cursor(t, ids), keep) == Cursor(t, ids * keep)
  {
    CursorLists(t, ids);
    CursorLists(t, ids * keep);
    PickListing(t, ids, Cursor(t, ids), keep);
    ListingUnique(t, ids * keep, Pick(Cursor(t, ids), keep), Cursor(t, ids * keep));
  }

  /** ORDER BY by insertion: what the SQL sorter hands to the cursor. */
  method OrderBy(t: Table, ids: set<nat>) returns (rows: seq<Row>)
    requires ids <= t.Keys
    ensures rows == Cursor(t, ids)
  {
    rows := [];
    var todo, done := ids, {};
    while todo != {}
      invariant todo + done == ids && todo !! done
      invariant IsListing(t, done, rows)
      decreases todo
    {
      var id :| id in todo;
      todo, done := todo - {id}, done + {id};
      rows := Insert(t, done - {id}, rows, id);
    }
    assert done == ids;
    CursorLists(t, ids);
    ListingUnique(t, ids, rows, Cursor(t, ids));
  }

  method Insert(t: Table, ids: set<nat>, rows: seq<Row>, id: nat) returns (r: seq<Row>)
    requires ids <= t.Keys && id in t && id !in ids && IsListing(t, ids, rows)
    ensures IsListing(t, ids + {id}, r)
  {
    var row := Row(id, t[id]);
    var k := 0;
    while k < |rows| && Ahead(rows[k], row)
      invariant 0 <= k <= |rows|
      invariant forall i :: 0 <= i < k ==> Ahead(rows[i], row)
    {
      k := k + 1;
    }
    r := rows[..k] + [row] + rows[k..];
    forall i | k <= i < |rows| ensures Ahead(row, rows[i]) {
      assert !Ahead(rows[k], row);
      assert rows[k].id != id;
      assert i == k || Ahead(rows[k], rows[i]);
    }
    ListingInserts(t, ids, rows, id, k);
  }

  lemma ListingInserts(t: Table, ids: set<nat>, rows: seq<Row>, id: nat, k: nat)
    requires ids <= t.Keys && id in t && id !in ids && IsListing(t, ids, rows) && k <= |rows|
    requires forall i :: 0 <= i < k ==> Ahead(rows[i], Row(id, t[id]))
    requires forall i :: k <= i < |rows| ==> Ahead(Row(id, t[id]), rows[i])
    ensures IsListing(t, ids + {id}, rows[..k] + [Row(id, t[id])] + rows[k..])
  {
    var r := rows[..k] + [Row(id, t[id])] + rows[k..];
    AscendingInserts(rows, Row(id, t[id]), k);
    forall j | j in ids + {id} ensures exists i :: 0 <= i < |r| && r[i].id == j {
      if j == id {
        assert r[k].id == j;
      } else {
        var i :| 0 <= i < |rows| && rows[i].id == j;
        assert r[if i < k then i else i + 1].id == j;
      }
    }
  }

  lemma AscendingInserts(rows: seq<Row>, row: Row, k: nat)
    requires Ascending(rows) && k <= |rows|
    requires forall i :: 0 <= i < k ==> Ahead(rows[i], row)
    requires forall i :: k <= i < |rows| ==> Ahead(row, rows[i])
    ensures Ascending(rows[..k] + [row] + rows[k..])
  {
  }
}
