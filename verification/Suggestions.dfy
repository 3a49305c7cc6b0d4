/** Accepting and dismissing group suggestions: how many rows a batch changes, and that a batch
  * accepted twice changes nothing the second time.
  */
module Suggestions {

  import opened ClipModel

  /** The rows one UPDATE of the batch matches. */
  function Matched(s: Store, id: nat, accept: bool): nat {
    var i := IndexOfId(s.rows, id);
    if i < |s.rows| && (accept ==> s.rows[i].suggested.Some? && s.rows[i].group.None?) then 1 else 0
  }

  function MatchedAll(s: Store, ids: seq<nat>, accept: bool): nat {
    if ids == [] then 0
    else
      var init := ids[..|ids| - 1];
      MatchedAll(s, init, accept) + Matched(Decided(s, init, accept), ids[|ids| - 1], accept)
  }

  /** Accepting has nothing to do on this row. */
  predicate Settled(r: Row) {
    r.suggested.None? || r.group.Some?
  }

  predicate SettledAt(s: Store, id: nat) {
    var i := IndexOfId(s.rows, id);
    i < |s.rows| ==> Settled(s.rows[i])
  }

  lemma {:induction false} SameIdsSameIndex(a: seq<Row>, b: seq<Row>, id: nat)
    requires |a| == |b| && forall i :: 0 <= i < |a| ==> a[i].id == b[i].id
    ensures IndexOfId(a, id) == IndexOfId(b, id)
  {
    if a != [] {
      assert a[0].id == b[0].id;
      SameIdsSameIndex(a[1..], b[1..], id);
    }
  }

  lemma DecideOneSettles(s: Store, id: nat, other: nat)
    ensures SettledAt(DecidedOne(s, id, true), id)
    ensures SettledAt(s, other) ==> SettledAt(DecidedOne(s, id, true), other)
  {
    var t := DecidedOne(s, id, true);
    SameIdsSameIndex(s.rows, t.rows, id);
    SameIdsSameIndex(s.rows, t.rows, other);
  }

  lemma {:induction false} DecideSettles(s: Store, ids: seq<nat>, k: nat)
    requires k < |ids|
    ensures SettledAt(Decided(s, ids, true), ids[k])
  {
    var n := |ids| - 1;
    DecideOneSettles(Decided(s, ids[..n], true), ids[n], ids[k]);
    if k < n { DecideSettles(s, ids[..n], k); }
  }

  lemma {:induction false} SettledStays(s: Store, ids: seq<nat>)
    requires forall k :: 0 <= k < |ids| ==> SettledAt(s, ids[k])
    ensures Decided(s, ids, true) == s && MatchedAll(s, ids, true) == 0
  {
    if ids != [] {
      var n := |ids| - 1;
      SettledStays(s, ids[..n]);
      assert SettledAt(s, ids[n]);
    }
  }

  /** Accepting a batch again changes no row and reports no change. */
  lemma AcceptTwice(s: Store, ids: seq<nat>)
    ensures var t := Decided(s, ids, true);
            Decided(t, ids, true) == t && MatchedAll(t, ids, true) == 0
  {
    var t := Decided(s, ids, true);
    forall k | 0 <= k < |ids| ensures SettledAt(t, ids[k]) {
      DecideSettles(s, ids, k);
    }
    SettledStays(t, ids);
  }

  // ---------- what the answered count means ----------

  /** How many rows differ. */
  function Changed(a: seq<Row>, b: seq<Row>): nat
    requires |a| == |b|
  {
    if a == [] then 0
    else Changed(a[..|a| - 1], b[..|b| - 1]) + if a[|a| - 1] == b[|b| - 1] then 0 else 1
  }

  lemma {:induction false} NothingChanged(a: seq<Row>)
    ensures Changed(a, a) == 0
  {
    if a != [] { NothingChanged(a[..|a| - 1]); }
  }

  lemma {:induction false} OneMoreChanged(a: seq<Row>, b: seq<Row>, i: nat, r: Row)
    requires |a| == |b| && i < |a| && a[i] == b[i] && r != b[i]
    ensures Changed(a, b[i := r]) == Changed(a, b) + 1
  {
    var n := |a| - 1;
    if i == n {
      assert b[i := r][..n] == b[..n];
    } else {
      assert b[i := r][..n] == b[..n][i := r];
      OneMoreChanged(a[..n], b[..n], i, r);
    }
  }

  /** A row is as it was, or was filed. */
  ghost predicate KeptOrFiled(a: seq<Row>, b: seq<Row>) {
    |a| == |b| && forall i :: 0 <= i < |a| ==> b[i] == a[i] || b[i].group.Some?
  }

  lemma {:induction false} AcceptKeepsOrFiles(s: Store, ids: seq<nat>)
    ensures KeptOrFiled(s.rows, Decided(s, ids, true).rows)
  {
    if ids != [] { AcceptKeepsOrFiles(s, ids[..|ids| - 1]); }
  }

  lemma AcceptOneCounts(s: Store, t: Store, id: nat)
    requires KeptOrFiled(s.rows, t.rows)
    ensures |DecidedOne(t, id, true).rows| == |s.rows|
    ensures Changed(s.rows, DecidedOne(t, id, true).rows) == Changed(s.rows, t.rows) + Matched(t, id, true)
  {
    var i := IndexOfId(t.rows, id);
    if Matched(t, id, true) == 1 {
      OneMoreChanged(s.rows, t.rows, i, DecidedRow(t.rows[i], true));
    } else {
      assert DecidedOne(t, id, true).rows == t.rows;
    }
  }

  /** Accepting answers the number of rows it changed, ... */
  lemma {:induction false} AcceptCountsChanges(s: Store, ids: seq<nat>)
    ensures |Decided(s, ids, true).rows| == |s.rows|
    ensures MatchedAll(s, ids, true) == Changed(s.rows, Decided(s, ids, true).rows)
  {
    if ids == [] {
      NothingChanged(s.rows);
    } else {
      var init := ids[..|ids| - 1];
      AcceptCountsChanges(s, init);
      AcceptKeepsOrFiles(s, init);
      AcceptOneCounts(s, Decided(s, init, true), ids[|ids| - 1]);
    }
  }

  function Known(rows: seq<Row>, ids: seq<nat>): nat {
    if ids == [] then 0
    else Known(rows, ids[..|ids| - 1]) + if HasId(rows, ids[|ids| - 1]) then 1 else 0
  }

  lemma {:induction false} DismissKeepsIds(s: Store, ids: seq<nat>)
    ensures var t := Decided(s, ids, false);
            |t.rows| == |s.rows| && forall i :: 0 <= i < |s.rows| ==> t.rows[i].id == s.rows[i].id
  {
    if ids != [] { DismissKeepsIds(s, ids[..|ids| - 1]); }
  }

  /** ... dismissing the number of listed ids that have a row. */
  lemma {:induction false} DismissCountsRows(s: Store, ids: seq<nat>)
    ensures MatchedAll(s, ids, false) == Known(s.rows, ids)
  {
    if ids != [] {
      var init := ids[..|ids| - 1];
      var t := Decided(s, init, false);
      DismissCountsRows(s, init);
      DismissKeepsIds(s, init);
      SameIdsSameIndex(t.rows, s.rows, ids[|ids| - 1]);
    }
  }
}
