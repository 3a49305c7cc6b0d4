/** The counts beside the group names against the filters behind them. */
module GroupCounts {

  import opened Wrappers
  import opened ClipModel

  // ---------- the filters ----------

  /** The rows a search with this group looks at. */
  predicate Selects(group: string, r: Row) {
    if group == "all" then true
    else if group == "secret" then r.secret
    else if group == "files" then r.kind.Files?
    else if group == "text" then r.group.None? && !r.secret && r.kind.Text?
    else r.group == Some(group)
  }

  function FilterCount(rows: seq<Row>, group: string): nat {
    if rows == [] then 0
    else FilterCount(rows[..|rows| - 1], group) + if Selects(group, rows[|rows| - 1]) then 1 else 0
  }

  // ---------- the counting statements ----------

  /** COALESCE(group_name, CASE WHEN secret = 1 THEN 'secret' END) */
  function KeyOfRow(r: Row): Option<string> {
    if r.group.Some? then r.group else if r.secret then Some("secret") else None
  }

  function Keys(rows: seq<Row>): set<string> {
    set r | r in rows && KeyOfRow(r).Some? :: KeyOfRow(r).value
  }

  /** The rows whose key is one of the given ones. */
  function KeyedCount(rows: seq<Row>, keys: set<string>): nat {
    if rows == [] then 0
    else
      var k := KeyOfRow(rows[|rows| - 1]);
      KeyedCount(rows[..|rows| - 1], keys) + if k.Some? && k.value in keys then 1 else 0
  }

  /** GROUP BY: how many rows have each of the keys. */
  function Grouping(rows: seq<Row>, keys: set<string>): map<string, nat> {
    map k | k in keys :: KeyedCount(rows, {k})
  }

  /** What the panel shows. A later statement overwrites the bucket of an earlier one. */
  function Counts(rows: seq<Row>): map<string, nat> {
    var text, files := FilterCount(rows, "text"), FilterCount(rows, "files");
    var all := text + KeyedCount(rows, Keys(rows)) + files;
    (map["text" := text] + Grouping(rows, Keys(rows)))["files" := files]["all" := all]
  }

  function Bucket(counts: map<string, nat>, group: string): nat {
    if group in counts then counts[group] else 0
  }

  /** The loop over the groups, in whatever order the statement answers them. */
  method AddGroups(rows: seq<Row>, base: map<string, nat>, start: nat) returns (counts: map<string, nat>, total: nat)
    ensures counts == base + Grouping(rows, Keys(rows))
    ensures total == start + KeyedCount(rows, Keys(rows))
  {
    counts, total := base, start;
    var left, done: set<string> := Keys(rows), {};
    KeyedCountNone(rows);
    while left != {}
      invariant left + done == Keys(rows) && left !! done
      invariant counts == base + Grouping(rows, done)
      invariant total == start + KeyedCount(rows, done)
      decreases |left|
    {
      var g :| g in left;
      var n := KeyedCount(rows, {g});
      KeyedCountAdds(rows, done, g);
      GroupingAdds(rows, base, done, g);
      counts := counts[g := n];
      total := total + n;
      left, done := left - {g}, done + {g};
    }
    assert done == Keys(rows);
  }

  method GroupCounts(rows: seq<Row>) returns (counts: map<string, nat>)
    ensures counts == Counts(rows)
  {
    var text := FilterCount(rows, "text");
    counts := map["text" := text];
    var total;
    counts, total := AddGroups(rows, counts, text);
    var files := FilterCount(rows, "files");
    counts := counts["files" := files];
    total := total + files;
    counts := counts["all" := total];
  }

  lemma {:induction false} KeyedCountAdds(rows: seq<Row>, done: set<string>, g: string)
    requires g !in done
    ensures KeyedCount(rows, done + {g}) == KeyedCount(rows, done) + KeyedCount(rows, {g})
  {
    if rows != [] { KeyedCountAdds(rows[..|rows| - 1], done, g); }
  }

  lemma {:induction false} KeyedCountNone(rows: seq<Row>)
    ensures KeyedCount(rows, {}) == 0
  {
    if rows != [] { KeyedCountNone(rows[..|rows| - 1]); }
  }

  lemma GroupingAdds(rows: seq<Row>, base: map<string, nat>, done: set<string>, g: string)
    ensures (base + Grouping(rows, done))[g := KeyedCount(rows, {g})] == base + Grouping(rows, done + {g})
  {
  }

  // ---------- which buckets agree with their filter ----------

  lemma {:induction false} KeyedIsGrouped(rows: seq<Row>, g: string)
    requires g != "all" && g != "text" && g != "secret" && g != "files"
    ensures KeyedCount(rows, {g}) == FilterCount(rows, g)
  {
    if rows != [] { KeyedIsGrouped(rows[..|rows| - 1], g); }
  }

  lemma {:induction false} UnkeyedCountsNothing(rows: seq<Row>, g: string)
    requires g !in Keys(rows)
    ensures KeyedCount(rows, {g}) == 0
  {
    if rows != [] {
      var n := |rows| - 1;
      assert rows == rows[..n] + [rows[n]];
      UnkeyedCountsNothing(rows[..n], g);
    }
  }

  /** For every ordinary group name, and for "files" even when a user group has that name, the bucket is
    * the number of rows the filter selects. */
  lemma BucketIsFilter(rows: seq<Row>, g: string)
    requires g != "all" && g != "text" && g != "secret"
    ensures Bucket(Counts(rows), g) == FilterCount(rows, g)
  {
    if g != "files" {
      KeyedIsGrouped(rows, g);
      if g !in Keys(rows) { UnkeyedCountsNothing(rows, g); }
    }
  }

  /** The rows a user put into a group of this name. */
  function GroupedCount(rows: seq<Row>, g: string): nat {
    if rows == [] then 0
    else GroupedCount(rows[..|rows| - 1], g) + if rows[|rows| - 1].group == Some(g) then 1 else 0
  }

  lemma {:induction false} GroupedCountPositive(rows: seq<Row>, g: string)
    ensures GroupedCount(rows, g) > 0 <==> exists i :: 0 <= i < |rows| && rows[i].group == Some(g)
  {
    if rows != [] {
      var n := |rows| - 1;
      GroupedCountPositive(rows[..n], g);
      if GroupedCount(rows[..n], g) > 0 {
        var i :| 0 <= i < n && rows[..n][i].group == Some(g);
        assert rows[i].group == Some(g);
      }
      if i :| 0 <= i < |rows| && rows[i].group == Some(g) {
        assert i < n ==> rows[..n][i].group == Some(g);
      }
    }
  }

  lemma {:induction false} TextKeyIsGrouped(rows: seq<Row>)
    ensures KeyedCount(rows, {"text"}) == GroupedCount(rows, "text")
  {
    if rows != [] { TextKeyIsGrouped(rows[..|rows| - 1]); }
  }

  lemma KeyIffGrouped(rows: seq<Row>)
    ensures "text" in Keys(rows) <==> GroupedCount(rows, "text") > 0
  {
    GroupedCountPositive(rows, "text");
    if "text" in Keys(rows) {
      var r :| r in rows && KeyOfRow(r) == Some("text");
      var i :| 0 <= i < |rows| && rows[i] == r;
    }
    if i :| 0 <= i < |rows| && rows[i].group == Some("text") {
      assert rows[i] in rows;
    }
  }

  /** "text" agrees unless a user group of that name, of another size, overwrites it. */
  lemma TextBucketIff(rows: seq<Row>)
    ensures Bucket(Counts(rows), "text") == FilterCount(rows, "text") <==>
            GroupedCount(rows, "text") == 0 || GroupedCount(rows, "text") == FilterCount(rows, "text")
  {
    TextKeyIsGrouped(rows);
    KeyIffGrouped(rows);
    assert Bucket(Counts(rows), "text") ==
           if "text" in Keys(rows) then KeyedCount(rows, {"text"}) else FilterCount(rows, "text");
  }

  /** It does happen: one row that a user put into a group named "text". */
  lemma TextBucketCanDisagree(r: Row)
    requires r.group == Some("text")
    ensures Bucket(Counts([r]), "text") == 1 && FilterCount([r], "text") == 0
  {
    OneRow(r);
    TextKeyIsGrouped([r]);
    KeyIffGrouped([r]);
  }

  lemma OneRow(r: Row)
    ensures forall g :: FilterCount([r], g) == if Selects(g, r) then 1 else 0
    ensures forall g :: GroupedCount([r], g) == if r.group == Some(g) then 1 else 0
    ensures MisfiledSecrets([r]) == if r.secret && r.group.Some? && r.group.value != "secret" then 1 else 0
    ensures FalseSecrets([r]) == if !r.secret && r.group == Some("secret") then 1 else 0
  {
    assert [r][..0] == [];
  }

  /** Secret rows filed under a group of another name, and other rows filed under "secret". */
  function MisfiledSecrets(rows: seq<Row>): nat {
    if rows == [] then 0
    else
      var r := rows[|rows| - 1];
      MisfiledSecrets(rows[..|rows| - 1]) + if r.secret && r.group.Some? && r.group.value != "secret" then 1 else 0
  }

  function FalseSecrets(rows: seq<Row>): nat {
    if rows == [] then 0
    else
      var r := rows[|rows| - 1];
      FalseSecrets(rows[..|rows| - 1]) + if !r.secret && r.group == Some("secret") then 1 else 0
  }

  lemma {:induction false} SecretCountsDiffer(rows: seq<Row>)
    ensures KeyedCount(rows, {"secret"}) + MisfiledSecrets(rows) == FilterCount(rows, "secret") + FalseSecrets(rows)
  {
    if rows != [] { SecretCountsDiffer(rows[..|rows| - 1]); }
  }

  /** "secret" agrees exactly when as many secrets are filed elsewhere as other rows under that name. */
  lemma SecretBucketIff(rows: seq<Row>)
    ensures Bucket(Counts(rows), "secret") == FilterCount(rows, "secret") <==>
            MisfiledSecrets(rows) == FalseSecrets(rows)
  {
    SecretCountsDiffer(rows);
    if "secret" !in Keys(rows) { UnkeyedCountsNothing(rows, "secret"); }
  }

  /** It does happen: one secret that a user filed under another name. */
  lemma SecretBucketCanDisagree(r: Row)
    requires r.secret && r.group.Some? && r.group.value != "secret"
    ensures Bucket(Counts([r]), "secret") != FilterCount([r], "secret")
  {
    OneRow(r);
    SecretBucketIff([r]);
  }

  // ---------- "all" ----------

  /** Images in no group, which no statement counts. */
  function Uncounted(rows: seq<Row>): nat {
    if rows == [] then 0
    else
      var r := rows[|rows| - 1];
      Uncounted(rows[..|rows| - 1]) + if r.kind.Image? && KeyOfRow(r).None? then 1 else 0
  }

  /** File lists that also have a key, which two statements count. */
  function CountedTwice(rows: seq<Row>): nat {
    if rows == [] then 0
    else
      var r := rows[|rows| - 1];
      CountedTwice(rows[..|rows| - 1]) + if r.kind.Files? && KeyOfRow(r).Some? then 1 else 0
  }

  lemma {:induction false} StatementsCover(rows: seq<Row>, keys: set<string>)
    requires Keys(rows) <= keys
    ensures FilterCount(rows, "text") + KeyedCount(rows, keys) + FilterCount(rows, "files") + Uncounted(rows) ==
            |rows| + CountedTwice(rows)
  {
    if rows != [] {
      var n := |rows| - 1;
      assert rows == rows[..n] + [rows[n]];
      StatementsCover(rows[..n], keys);
    }
  }

  /** The filter behind "all" lets everything through. */
  lemma {:induction false} AllFilter(rows: seq<Row>)
    ensures FilterCount(rows, "all") == |rows|
  {
    if rows != [] { AllFilter(rows[..|rows| - 1]); }
  }

  /** "all" is the number of rows, less the images in no group, plus the file lists in one. */
  lemma AllBucket(rows: seq<Row>)
    ensures Bucket(Counts(rows), "all") + Uncounted(rows) == |rows| + CountedTwice(rows)
    ensures FilterCount(rows, "all") == |rows|
  {
    AllFilter(rows);
    StatementsCover(rows, Keys(rows));
  }

  // ---------- renaming ----------

  /** Renaming a group, or taking it away, moves all of its rows and none of the others. */
  lemma {:induction false} RenameMovesTheGroup(
      rows: seq<Row>, rows': seq<Row>, from: string, to: Option<string>, g: string)
    requires |rows'| == |rows| && to != Some(from)
    requires forall i :: 0 <= i < |rows| ==> rows'[i] == RegroupedRow(rows[i], from, to)
    ensures GroupedCount(rows', from) == 0
    ensures g != from ==>
              GroupedCount(rows', g) == GroupedCount(rows, g) + if to == Some(g) then GroupedCount(rows, from) else 0
  {
    if rows != [] {
      var n := |rows| - 1;
      RenameMovesTheGroup(rows[..n], rows'[..n], from, to, g);
      assert rows'[n] == RegroupedRow(rows[n], from, to);
    }
  }
}
