/** Retention: which rows a purge removes. */
module Retention {

  import opened ClipModel

  const DAY_MS: int := 86_400_000

  function ExpiredIds(rows: seq<Row>, retentionDays: nat, now: int): set<nat> {
    if retentionDays == 0 then {}
    else set r | r in rows && !r.pinned && r.createdAt < now - retentionDays * DAY_MS :: r.id
  }

  // ---------- newest first ----------

  function PlaceNewest(r: Row, q: seq<Row>): (p: seq<Row>)
    ensures |p| == |q| + 1
  {
    if q == [] || q[0].createdAt < r.createdAt then [r] + q else [q[0]] + PlaceNewest(r, q[1..])
  }

  /** ORDER BY created_at DESC; rows of the same moment stay in row order. */
  function NewestFirst(rows: seq<Row>): (q: seq<Row>)
    ensures |q| == |rows|
  {
    if rows == [] then [] else PlaceNewest(rows[|rows| - 1], NewestFirst(rows[..|rows| - 1]))
  }

  function Unpinned(rows: seq<Row>): seq<Row> {
    if rows == [] then []
    else Unpinned(rows[..|rows| - 1]) + if rows[|rows| - 1].pinned then [] else [rows[|rows| - 1]]
  }

  /** The unpinned rows from the (max + 1)-th newest on. */
  function OverflowIds(rows: seq<Row>, maxEntries: nat): set<nat> {
    var q := NewestFirst(Unpinned(rows));
    if maxEntries < |q| then Ids(q[maxEntries..]) else {}
  }

  function Purged(s: Store, retentionDays: nat, maxEntries: nat, now: int): Store {
    var mid := Dropped(s, ExpiredIds(s.rows, retentionDays, now));
    Dropped(mid, OverflowIds(mid.rows, maxEntries))
  }

  // ---------- the order is a sort ----------

  ghost predicate NewestOrder(q: seq<Row>) {
    forall i, j :: 0 <= i < j < |q| ==> q[i].createdAt >= q[j].createdAt
  }

  lemma {:induction false} PlaceNewestElements(r: Row, q: seq<Row>)
    ensures forall x :: x in PlaceNewest(r, q) <==> x == r || x in q
    ensures multiset(PlaceNewest(r, q)) == multiset(q) + multiset{r}
  {
    if !(q == [] || q[0].createdAt < r.createdAt) {
      PlaceNewestElements(r, q[1..]);
      assert q == [q[0]] + q[1..];
    }
  }

  lemma {:induction false} PlaceNewestOrder(r: Row, q: seq<Row>)
    requires NewestOrder(q)
    ensures NewestOrder(PlaceNewest(r, q))
  {
    if !(q == [] || q[0].createdAt < r.createdAt) {
      PlaceNewestOrder(r, q[1..]);
      PlaceNewestElements(r, q[1..]);
      var p := PlaceNewest(r, q[1..]);
      forall i | 0 <= i < |p| ensures q[0].createdAt >= p[i].createdAt {
        assert p[i] == r || p[i] in q[1..];
      }
    }
  }

  lemma {:induction false} NewestFirstOrder(rows: seq<Row>)
    ensures NewestOrder(NewestFirst(rows))
  {
    if rows != [] {
      NewestFirstOrder(rows[..|rows| - 1]);
      PlaceNewestOrder(rows[|rows| - 1], NewestFirst(rows[..|rows| - 1]));
    }
  }

  lemma {:induction false} NewestFirstElements(rows: seq<Row>)
    ensures multiset(NewestFirst(rows)) == multiset(rows)
  {
    if rows != [] {
      var n := |rows| - 1;
      NewestFirstElements(rows[..n]);
      PlaceNewestElements(rows[n], NewestFirst(rows[..n]));
      assert rows == rows[..n] + [rows[n]];
    }
  }

  lemma NewestFirstMembers(rows: seq<Row>)
    ensures forall r :: r in NewestFirst(rows) <==> r in rows
  {
    NewestFirstElements(rows);
    forall r ensures r in NewestFirst(rows) <==> r in rows {
      assert r in multiset(NewestFirst(rows)) <==> r in multiset(rows);
    }
  }

  lemma {:induction false} UnpinnedMembers(rows: seq<Row>)
    ensures forall r :: r in Unpinned(rows) <==> r in rows && !r.pinned
  {
    if rows != [] {
      var n := |rows| - 1;
      UnpinnedMembers(rows[..n]);
      assert rows == rows[..n] + [rows[n]];
    }
  }
}
