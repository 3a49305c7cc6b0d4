/** Which rows survive a purge, told without sorting: all pinned ones, and of the unpinned ones
  * inside the retention period the newest.
  */
module PurgeExact {

  import opened ClipModel
  import opened Retention
  import opened ClipInvariant

  predicate InRetention(r: Row, days: nat, now: int) {
    days == 0 || r.createdAt >= now - days * DAY_MS
  }

  /** The unpinned rows inside the retention period. */
  function Candidates(rows: seq<Row>, days: nat, now: int): set<Row> {
    set r | r in rows && !r.pinned && InRetention(r, days, now)
  }

  function Elements(rows: seq<Row>): set<Row> {
    set r | r in rows
  }

  ghost predicate NoRepeats(rows: seq<Row>) {
    forall i, j :: 0 <= i < j < |rows| ==> rows[i].id != rows[j].id
  }

  lemma {:induction false} PlaceKeepsNoRepeats(r: Row, q: seq<Row>)
    requires NoRepeats(q) && forall x :: x in q ==> x.id != r.id
    ensures NoRepeats(PlaceNewest(r, q))
  {
    if !(q == [] || q[0].createdAt < r.createdAt) {
      PlaceKeepsNoRepeats(r, q[1..]);
      PlaceNewestElements(r, q[1..]);
      var p := PlaceNewest(r, q[1..]);
      forall i | 0 <= i < |p| ensures p[i].id != q[0].id {
        assert p[i] == r || p[i] in q[1..];
        assert q[0] in q;
      }
    }
  }

  lemma {:induction false} NewestFirstNoRepeats(rows: seq<Row>)
    requires NoRepeats(rows)
    ensures NoRepeats(NewestFirst(rows))
  {
    if rows != [] {
      var n := |rows| - 1;
      NewestFirstNoRepeats(rows[..n]);
      NewestFirstMembers(rows[..n]);
      PlaceKeepsNoRepeats(rows[n], NewestFirst(rows[..n]));
    }
  }

  lemma {:induction false} UnpinnedNoRepeats(rows: seq<Row>)
    requires NoRepeats(rows)
    ensures NoRepeats(Unpinned(rows))
  {
    if rows != [] {
      var n := |rows| - 1;
      var u := Unpinned(rows[..n]);
      UnpinnedNoRepeats(rows[..n]);
      UnpinnedMembers(rows[..n]);
      forall k | 0 <= k < |u| ensures u[k].id != rows[n].id {
        assert u[k] in rows[..n];
      }
    }
  }

  lemma {:induction false} ElementsCount(rows: seq<Row>)
    requires NoRepeats(rows)
    ensures |Elements(rows)| == |rows|
  {
    if rows != [] {
      var n := |rows| - 1;
      ElementsCount(rows[..n]);
      assert rows == rows[..n] + [rows[n]];
      assert Elements(rows) == Elements(rows[..n]) + {rows[n]};
      assert rows[n] !in rows[..n];
    }
  }

  lemma {:induction false} WithoutNoRepeats(rows: seq<Row>, ids: set<nat>)
    requires NoRepeats(rows)
    ensures NoRepeats(WithoutRows(rows, ids))
  {
    if rows != [] {
      var n := |rows| - 1;
      var w := WithoutRows(rows[..n], ids);
      WithoutNoRepeats(rows[..n], ids);
      forall k | 0 <= k < |w| ensures w[k].id != rows[n].id {
        assert w[k] in rows[..n];
      }
    }
  }

  // ---------- the second stage ----------

  /** The unpinned rows, newest first. */
  lemma OrderedUnpinned(rows: seq<Row>)
    requires NoRepeats(rows)
    ensures NoRepeats(NewestFirst(Unpinned(rows)))
    ensures forall r :: r in NewestFirst(Unpinned(rows)) <==> r in rows && !r.pinned
  {
    UnpinnedMembers(rows);
    NewestFirstMembers(Unpinned(rows));
    UnpinnedNoRepeats(rows);
    NewestFirstNoRepeats(Unpinned(rows));
  }

  lemma SplitIds(q: seq<Row>, n: nat, r: Row)
    requires NoRepeats(q) && n <= |q| && r in q
    ensures r in q[..n] <==> r.id !in Ids(q[n..])
  {
    var i :| 0 <= i < |q| && q[i] == r;
    if i < n {
      assert q[..n][i] == r;
      forall x | x in q[n..] ensures x.id != r.id {
        var j :| 0 <= j < |q| - n && q[n..][j] == x;
        assert q[n + j] == x;
      }
    } else {
      assert q[n..][i - n] == r;
      forall j | 0 <= j < n ensures q[..n][j] != r {
        assert q[j].id != q[i].id;
      }
    }
  }

  lemma SplitOrder(q: seq<Row>, n: nat, k: Row, d: Row)
    requires NewestOrder(q) && n <= |q| && k in q[..n] && d in q && d !in q[..n]
    ensures k.createdAt >= d.createdAt
  {
    var i :| 0 <= i < n && q[i] == k;
    var j :| 0 <= j < |q| && q[j] == d;
    assert j < n ==> q[..n][j] == d;
  }

  function KeptCount(rows: seq<Row>, max: nat): nat {
    if max < |Unpinned(rows)| then max else |Unpinned(rows)|
  }

  /** The rows the second stage keeps, as a set. */
  ghost function Kept(rows: seq<Row>, max: nat): set<Row> {
    Elements(NewestFirst(Unpinned(rows))[..KeptCount(rows, max)])
  }

  lemma OverflowIsTheRest(rows: seq<Row>, max: nat)
    ensures OverflowIds(rows, max) == Ids(NewestFirst(Unpinned(rows))[KeptCount(rows, max)..])
  {
  }

  lemma KeptAreChosen(rows: seq<Row>, max: nat, r: Row)
    requires NoRepeats(rows) && r in Kept(rows, max)
    ensures r in rows && !r.pinned && r.id !in OverflowIds(rows, max)
  {
    var q, n := NewestFirst(Unpinned(rows)), KeptCount(rows, max);
    OrderedUnpinned(rows);
    assert r in q[..n] && r in q;
    SplitIds(q, n, r);
    OverflowIsTheRest(rows, max);
  }

  lemma ChosenAreKept(rows: seq<Row>, max: nat, r: Row)
    requires NoRepeats(rows) && r in rows && !r.pinned && r.id !in OverflowIds(rows, max)
    ensures r in Kept(rows, max)
  {
    OrderedUnpinned(rows);
    OverflowIsTheRest(rows, max);
    SplitIds(NewestFirst(Unpinned(rows)), KeptCount(rows, max), r);
  }

  lemma KeptMembers(rows: seq<Row>, max: nat, r: Row)
    requires NoRepeats(rows)
    ensures r in Kept(rows, max) <==> r in rows && !r.pinned && r.id !in OverflowIds(rows, max)
  {
    if r in Kept(rows, max) {
      KeptAreChosen(rows, max, r);
    } else if r in rows && !r.pinned && r.id !in OverflowIds(rows, max) {
      ChosenAreKept(rows, max, r);
    }
  }

  lemma KeptSize(rows: seq<Row>, max: nat)
    requires NoRepeats(rows)
    ensures |Kept(rows, max)| == KeptCount(rows, max)
  {
    OrderedUnpinned(rows);
    ElementsCount(NewestFirst(Unpinned(rows))[..KeptCount(rows, max)]);
  }

  lemma KeptIsNewer(rows: seq<Row>, max: nat, k: Row, d: Row)
    requires NoRepeats(rows) && k in Kept(rows, max) && d in rows && !d.pinned && d !in Kept(rows, max)
    ensures k.createdAt >= d.createdAt
  {
    OrderedUnpinned(rows);
    NewestFirstOrder(Unpinned(rows));
    SplitOrder(NewestFirst(Unpinned(rows)), KeptCount(rows, max), k, d);
  }

  // ---------- both stages ----------

  lemma FirstStage(s: Store, days: nat, now: int)
    requires Inv(s)
    ensures var mid := Dropped(s, ExpiredIds(s.rows, days, now));
            && NoRepeats(mid.rows)
            && forall r :: r in mid.rows <==> r in s.rows && (r.pinned || InRetention(r, days, now))
  {
    var ids := ExpiredIds(s.rows, days, now);
    WithoutNoRepeats(s.rows, ids);
    forall r | r in s.rows ensures r.id in ids <==> !r.pinned && !InRetention(r, days, now) {
      if r.id in ids {
        var q :| q in s.rows && !q.pinned && q.createdAt < now - days * DAY_MS && q.id == r.id;
        SameIdSameRow(s.rows, q, r);
      }
    }
  }

  /** The unpinned rows a purge leaves. */
  ghost function Survivors(s: Store, days: nat, max: nat, now: int): set<Row> {
    set r | r in Purged(s, days, max, now).rows && !r.pinned
  }

  lemma SurvivorsAreKept(s: Store, days: nat, max: nat, now: int)
    requires Inv(s)
    ensures var mid := Dropped(s, ExpiredIds(s.rows, days, now));
            NoRepeats(mid.rows) && Survivors(s, days, max, now) == Kept(mid.rows, max)
  {
    var mid := Dropped(s, ExpiredIds(s.rows, days, now));
    FirstStage(s, days, now);
    forall r ensures r in Survivors(s, days, max, now) <==> r in Kept(mid.rows, max) {
      KeptMembers(mid.rows, max, r);
    }
  }

  lemma CandidatesAfterFirstStage(s: Store, days: nat, now: int)
    requires Inv(s)
    ensures var mid := Dropped(s, ExpiredIds(s.rows, days, now));
            && |Unpinned(mid.rows)| == |Candidates(s.rows, days, now)|
            && forall r :: r in Candidates(s.rows, days, now) <==> r in mid.rows && !r.pinned
  {
    var mid := Dropped(s, ExpiredIds(s.rows, days, now));
    FirstStage(s, days, now);
    UnpinnedMembers(mid.rows);
    UnpinnedNoRepeats(mid.rows);
    ElementsCount(Unpinned(mid.rows));
    assert Elements(Unpinned(mid.rows)) == Candidates(s.rows, days, now);
  }

  /** A purge keeps every pinned row, and of the unpinned candidates as many as fit; nothing else. */
  lemma PurgeSurvivors(s: Store, days: nat, max: nat, now: int)
    requires Inv(s)
    ensures forall r :: r in s.rows && r.pinned ==> r in Purged(s, days, max, now).rows
    ensures forall r :: r in Purged(s, days, max, now).rows ==> r in s.rows
    ensures Survivors(s, days, max, now) <= Candidates(s.rows, days, now)
    ensures var n := |Candidates(s.rows, days, now)|; |Survivors(s, days, max, now)| == if max < n then max else n
  {
    var mid := Dropped(s, ExpiredIds(s.rows, days, now));
    FirstStage(s, days, now);
    CandidatesAfterFirstStage(s, days, now);
    SurvivorsAreKept(s, days, max, now);
    KeptSize(mid.rows, max);
    forall r | r in s.rows && r.pinned ensures r in Purged(s, days, max, now).rows {
      PinnedStays(mid.rows, max, r);
    }
  }

  /** Every candidate kept is at least as new as every candidate removed. */
  lemma PurgeKeepsNewest(s: Store, days: nat, max: nat, now: int, k: Row, d: Row)
    requires Inv(s) && k in Survivors(s, days, max, now)
    requires d in Candidates(s.rows, days, now) && d !in Survivors(s, days, max, now)
    ensures k.createdAt >= d.createdAt
  {
    var mid := Dropped(s, ExpiredIds(s.rows, days, now));
    CandidatesAfterFirstStage(s, days, now);
    SurvivorsAreKept(s, days, max, now);
    KeptIsNewer(mid.rows, max, k, d);
  }

  lemma PinnedStays(rows: seq<Row>, max: nat, r: Row)
    requires NoRepeats(rows) && r in rows && r.pinned
    ensures r.id !in OverflowIds(rows, max)
  {
    var q := NewestFirst(Unpinned(rows));
    OrderedUnpinned(rows);
    var i :| 0 <= i < |rows| && rows[i] == r;
    forall x | x in q ensures x.id != r.id {
      var j :| 0 <= j < |rows| && rows[j] == x;
    }
    if max < |q| {
      assert forall x :: x in q[max..] ==> x in q;
    }
  }

  // ---------- files and stack ----------

  /** The files removed are exactly those of the removed rows. */
  lemma PurgeRemovesTheirFiles(s: Store, days: nat, max: nat, now: int)
    requires Inv(s)
    ensures var t := Purged(s, days, max, now);
            t.blobs.Keys == s.blobs.Keys - BlobsOf(s.rows, Ids(s.rows) - Ids(t.rows))
  {
    var a := ExpiredIds(s.rows, days, now);
    var mid := Dropped(s, a);
    var b := OverflowIds(mid.rows, max);
    var t := Purged(s, days, max, now);
    var gone := Ids(s.rows) - Ids(t.rows);
    assert Ids(t.rows) == Ids(s.rows) - a - b;
    forall n ensures n in BlobsOf(s.rows, gone) <==> n in BlobsOf(s.rows, a) || n in BlobsOf(mid.rows, b) {
      if n in BlobsOf(s.rows, gone) {
        var r :| r in s.rows && r.id in gone && r.blob.Some? && r.blob.value == n;
        if r.id !in a { assert r in mid.rows; }
      }
      if n in BlobsOf(s.rows, a) {
        var r :| r in s.rows && r.id in a && r.blob.Some? && r.blob.value == n;
        assert r.id in gone;
      }
      if n in BlobsOf(mid.rows, b) {
        var r :| r in mid.rows && r.id in b && r.blob.Some? && r.blob.value == n;
        assert r.id in gone;
      }
    }
  }

  // ---------- clear ----------

  /** A clear leaves exactly the pinned rows, or none, and their files. */
  lemma ClearLeavesThePinned(s: Store, keepPinned: bool, r: Row)
    requires Inv(s)
    ensures var t := Dropped(s, ClearIds(s.rows, keepPinned));
            && (r in t.rows <==> r in s.rows && keepPinned && r.pinned)
            && (r in t.rows && r.blob.Some? ==> r.blob.value in t.blobs)
  {
    var ids := ClearIds(s.rows, keepPinned);
    if r in s.rows && r.id in ids {
      var q :| q in s.rows && (keepPinned ==> !q.pinned) && q.id == r.id;
      SameIdSameRow(s.rows, q, r);
    }
    DroppedKeeps(s, ids);
    if r in Dropped(s, ids).rows { StoredRow(Dropped(s, ids), r); }
  }
}
