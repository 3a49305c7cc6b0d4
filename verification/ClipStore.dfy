/** The clipboard store as it works: tables and blob directory updated in place. Each method is
  * proved to make of the state what the model says.
  */
module ClipStore {

  import opened Wrappers
  import opened Utf8
  import opened PasteStack
  import opened ClipModel
  import opened Retention
  import opened ClipInvariant
  import opened GroupCounts
  import opened Suggestions
  import opened FileLists
  import opened Backup
  import Text

  datatype StackError = NoSuchEntry | NotStacked
  datatype GroupError = BadGroupName | NoEntry

  // ---------- statements ----------

  /** SELECT blob_path ... WHERE id IN ids AND blob_path IS NOT NULL */
  function BlobNames(rows: seq<Row>, ids: set<nat>): (names: seq<BlobName>)
    ensures forall n :: n in names <==> n in BlobsOf(rows, ids)
  {
    if rows == [] then []
    else
      var r := rows[|rows| - 1];
      assert rows == rows[..|rows| - 1] + [r];
      BlobNames(rows[..|rows| - 1], ids) + if r.id in ids && r.blob.Some? then [r.blob.value] else []
  }

  /** SELECT blob_path ... WHERE id = id, without the NULL. */
  function BlobOfRow(rows: seq<Row>, id: nat): seq<BlobName> {
    var i := IndexOfId(rows, id);
    if i < |rows| && rows[i].blob.Some? then [rows[i].blob.value] else []
  }

  /** DELETE FROM paste_stack WHERE id = rowId */
  function WithoutStackRow(stack: seq<StackRow>, rowId: nat): seq<StackRow> {
    if stack == [] then []
    else (if stack[0].rowId == rowId then [] else [stack[0]]) + WithoutStackRow(stack[1..], rowId)
  }

  lemma {:induction false} OneRowOneEntry(stack: seq<StackRow>, h: StackRow)
    requires forall r :: r in stack ==> (r.rowId == h.rowId <==> r.entryId == h.entryId)
    ensures WithoutStackRow(stack, h.rowId) == Without(stack, {h.entryId})
  {
    if stack != [] {
      assert stack[0] in stack;
      OneRowOneEntry(stack[1..], h);
    }
  }

  /** UPDATE paste_stack SET position = p WHERE entry_id = id */
  function WithPosition(stack: seq<StackRow>, id: nat, p: int): (out: seq<StackRow>)
    ensures |out| == |stack|
    ensures forall k :: 0 <= k < |stack| ==>
      out[k] == if stack[k].entryId == id then stack[k].(position := p) else stack[k]
  {
    seq(|stack|, k requires 0 <= k < |stack| =>
      if stack[k].entryId == id then stack[k].(position := p) else stack[k])
  }

  lemma IndexInPrefix(order: seq<nat>, i: nat, id: nat)
    requires i < |order| && NoDuplicates(order)
    ensures id in order[..i + 1] <==> id in order[..i] || id == order[i]
    ensures id in order[..i] ==> id != order[i] && IndexIn(order[..i + 1], id) == IndexIn(order[..i], id)
    ensures id == order[i] ==> IndexIn(order[..i + 1], id) == i
  {
    assert order[..i + 1] == order[..i] + [order[i]];
    var p, q := order[..i], order[..i + 1];
    if id in p {
      var k := IndexIn(p, id);
      assert order[k] == id;
      var l := IndexIn(q, id);
      assert q[k] == id && order[l] == id;
    }
    if id == order[i] {
      var l := IndexIn(q, id);
      assert order[l] == id;
    }
  }

  lemma RepositionStep(stack: seq<StackRow>, order: seq<nat>, i: nat)
    requires i < |order| && NoDuplicates(order)
    ensures WithPosition(Repositioned(stack, order[..i]), order[i], i) == Repositioned(stack, order[..i + 1])
  {
    forall k | 0 <= k < |stack|
      ensures WithPosition(Repositioned(stack, order[..i]), order[i], i)[k] == Repositioned(stack, order[..i + 1])[k]
    {
      IndexInPrefix(order, i, stack[k].entryId);
    }
  }

  // ---------- facts the methods use ----------

  lemma OneRowOneBlob(s: Store, i: nat)
    requires Inv(s) && i < |s.rows|
    ensures BlobsOf(s.rows, {s.rows[i].id}) == if s.rows[i].blob.Some? then {s.rows[i].blob.value} else {}
  {
    var r := s.rows[i];
    assert r in s.rows;
    forall q | q in s.rows && q.id == r.id ensures q == r {
      SameIdSameRow(s.rows, q, r);
    }
  }

  /** The files that were there are there, and what a file name promises was not overwritten. */
  ghost predicate FilesGrow(before: map<BlobName, Bytes>, after: map<BlobName, Bytes>) {
    forall n :: n in before ==> n in after && (after[n] == before[n] || after[n] == n.digest.of)
  }

  lemma ImportRowGrowsFiles(p: Progress, row: BackupRow, cipher: string, now: int)
    ensures FilesGrow(p.store.blobs, ImportRow(p, row, cipher, now).store.blobs)
  {
  }

  lemma FilesGrowTransitive(a: map<BlobName, Bytes>, b: map<BlobName, Bytes>, c: map<BlobName, Bytes>)
    requires FilesGrow(a, b) && FilesGrow(b, c)
    ensures FilesGrow(a, c)
  {
  }

  lemma GrownFilesKeep(s: Store, t: Store)
    requires Inv(s) && t.rows == s.rows && t.stack == s.stack && FilesGrow(s.blobs, t.blobs)
    requires s.nextId <= t.nextId && s.nextStackRow <= t.nextStackRow
    ensures Inv(t)
  {
    forall i | 0 <= i < |t.rows| ensures Stored(t.rows[i], t.blobs) && Shaped(t.rows[i]) {
      assert Stored(s.rows[i], s.blobs);
    }
    assert IdsBelow(t.rows, t.nextId);
    forall k | 0 <= k < |t.stack| ensures HasId(t.rows, t.stack[k].entryId) && t.stack[k].rowId < t.nextStackRow {
      assert HasId(s.rows, s.stack[k].entryId);
    }
  }

  class ClipStore {
    var rows: seq<Row>
    var stack: seq<StackRow>
    var blobs: map<BlobName, Bytes>
    var nextId: nat
    var nextStackRow: nat

    function State(): Store
      reads this
    {
      Store(rows, stack, blobs, nextId, nextStackRow)
    }

    ghost predicate Valid()
      reads this
    {
      Inv(State())
    }

    constructor ()
      ensures Valid() && State() == EMPTY
    {
      rows, stack, blobs, nextId, nextStackRow := [], [], map[], 0, 0;
    }

    // ---------- captures ----------

    /** Refreshes the row at i; html is filled in when it is missing. */
    method Refresh(i: nat, origin: Origin, html: Option<string>, now: int)
      requires i < |rows|
      modifies this`rows
      ensures |rows| == |old(rows)|
      ensures forall k :: 0 <= k < |rows| && k != i ==> rows[k] == old(rows[k])
      ensures rows[i] == old(rows[i]).(createdAt := now, usage := old(rows[i]).usage + 1,
                                       origin := if origin.Local? then Local else old(rows[i]).origin,
                                       html := if old(rows[i]).html.Some? then old(rows[i]).html else html)
    {
      var r := rows[i];
      var origin' := if origin.Local? then Local else r.origin;
      var html' := if r.html.Some? then r.html else html;
      rows := rows[i := r.(createdAt := now, usage := r.usage + 1, origin := origin', html := html')];
    }

    method InsertRow(text: string, group: Option<string>, suggested: Option<Suggestion>, app: Option<string>,
                     origin: Origin, html: Option<string>, now: int)
      returns (id: nat)
      modifies this
      ensures var c := TextCapture(text, group, suggested, app, origin, html);
              State() == Captured(old(State()), c, now) && id == CapturedId(old(State()), c)
      ensures Names(rows, id, Sha256(Encode(text)))
      ensures old(Valid()) ==> Valid()
    {
      ghost var s, c := State(), TextCapture(text, group, suggested, app, origin, html);
      var hash := Sha256(Encode(text));
      var i := IndexOfDigest(rows, hash);
      if i < |rows| {
        id := rows[i].id;
        Refresh(i, origin, html, now);
        assert rows == Captured(s, c, now).rows;
      } else {
        id := nextId;
        var content, blob := text, None;
        if |Encode(text)| > BLOB_THRESHOLD {
          var name := BlobName(hash, "txt");
          blobs := blobs[name := Encode(text)];
          content, blob := Preview(text), Some(name);
        }
        rows := rows +
          [Row(id, Text, content, hash, blob, origin, app, false, group, false, now, 0, suggested, false, html)];
        nextId := nextId + 1;
        assert !Hits(s, c);
      }
      AnswerNamesTheCapture(s, c, now);
      if Inv(s) { CapturedKeeps(s, c, now); }
    }

    method InsertEncrypted(cipher: string, group: Option<string>, suggested: Option<Suggestion>, app: Option<string>,
                           origin: Origin, now: int)
      returns (id: nat)
      modifies this
      ensures var c := SecretCapture(cipher, group, suggested, app, origin);
              State() == Captured(old(State()), c, now) && id == CapturedId(old(State()), c)
      ensures Names(rows, id, Sha256(Encode(cipher)))
      ensures old(Valid()) ==> (Valid() <==> !HasDigest(old(rows), Sha256(Encode(cipher))))
    {
      ghost var s, c := State(), SecretCapture(cipher, group, suggested, app, origin);
      var hash := Sha256(Encode(cipher));
      id := nextId;
      var content, blob := cipher, None;
      if |Encode(cipher)| > BLOB_THRESHOLD {
        var name := BlobName(hash, "enc");
        blobs := blobs[name := Encode(cipher)];
        content, blob := "", Some(name);
      }
      rows := rows +
        [Row(id, Text, content, hash, blob, origin, app, false, group, true, now, 0, suggested, false, None)];
      nextId := nextId + 1;
      AnswerNamesTheCapture(s, c, now);
      if Inv(s) { CapturedKeepsIff(s, c, now); }
    }

    method InsertImage(format: string, width: nat, height: nat, bytes: Bytes, app: Option<string>, origin: Origin,
                       now: int)
      returns (id: nat)
      modifies this
      ensures var c := ImageCapture(format, width, height, bytes, app, origin);
              State() == Captured(old(State()), c, now) && id == CapturedId(old(State()), c)
      ensures Names(rows, id, Sha256(bytes))
      ensures old(Valid()) ==> Valid()
    {
      ghost var s, c := State(), ImageCapture(format, width, height, bytes, app, origin);
      var hash := Sha256(bytes);
      var i := IndexOfDigest(rows, hash);
      if i < |rows| {
        id := rows[i].id;
        Refresh(i, origin, None, now);
        assert rows == Captured(s, c, now).rows;
      } else {
        id := nextId;
        var blob := BlobName(hash, format);
        blobs := blobs[blob := bytes];
        var size := Text.Decimal(width) + "x" + Text.Decimal(height);
        rows := rows +
          [Row(id, Image, size, hash, Some(blob), origin, app, false, None, false, now, 0, None, false, None)];
        nextId := nextId + 1;
        assert !Hits(s, c);
      }
      AnswerNamesTheCapture(s, c, now);
      if Inv(s) { CapturedKeeps(s, c, now); }
    }

    method InsertTyped(list: string, app: Option<string>, origin: Origin, now: int) returns (id: nat)
      modifies this
      ensures var c := FilesCapture(list, app, origin);
              State() == Captured(old(State()), c, now) && id == CapturedId(old(State()), c)
      ensures Names(rows, id, Sha256(Encode(list)))
      ensures old(Valid()) ==> Valid()
    {
      ghost var s, c := State(), FilesCapture(list, app, origin);
      var hash := Sha256(Encode(list));
      var i := IndexOfDigest(rows, hash);
      if i < |rows| {
        id := rows[i].id;
        Refresh(i, origin, None, now);
        assert rows == Captured(s, c, now).rows;
      } else {
        id := nextId;
        rows := rows + [Row(id, Files, list, hash, None, origin, app, false, None, false, now, 0, None, false, None)];
        nextId := nextId + 1;
        assert !Hits(s, c);
      }
      AnswerNamesTheCapture(s, c, now);
      if Inv(s) { CapturedKeeps(s, c, now); }
    }

    method InsertFiles(paths: seq<string>, app: Option<string>, origin: Origin, now: int) returns (id: nat)
      modifies this
      ensures var c := FilesCapture(Join(paths), app, origin);
              State() == Captured(old(State()), c, now) && id == CapturedId(old(State()), c)
      ensures Names(rows, id, Sha256(Encode(Join(paths))))
      ensures old(Valid()) ==> Valid()
    {
      id := InsertTyped(Join(paths), app, origin, now);
    }

    // ---------- curation ----------

    method SetPinned(id: nat, pinned: bool)
      modifies this`rows
      ensures State() == Pinned(old(State()), id, pinned)
      ensures old(Valid()) ==> Valid()
    {
      ghost var s := State();
      var i := IndexOfId(rows, id);
      if i < |rows| { rows := rows[i := rows[i].(pinned := pinned)]; }
      if Inv(s) { PinKeeps(s, id, pinned); }
    }

    /** A bad name or a missing row is an error and changes nothing. */
    method SetEntryGroup(id: nat, group: Option<string>) returns (r: Result<(), GroupError>)
      modifies this`rows
      ensures r.Ok? <==> (group.Some? ==> SanitizedGroup(group.value).Some?) && HasId(old(rows), id)
      ensures r.Ok? ==>
                State() == Grouped(old(State()), id, if group.Some? then SanitizedGroup(group.value) else None)
      ensures r.Err? ==> State() == old(State())
      ensures old(Valid()) ==> Valid()
    {
      ghost var s := State();
      var clean := None;
      if group.Some? {
        clean := SanitizedGroup(group.value);
        if clean.None? { return Err(BadGroupName); }
      }
      var i := IndexOfId(rows, id);
      if i == |rows| { return Err(NoEntry); }
      rows := rows[i := rows[i].(group := clean)];
      if Inv(s) { GroupKeeps(s, id, clean); }
      return Ok(());
    }

    /** Moves a whole group, and answers how many rows it had. */
    method RenameGroup(from: string, to: string) returns (r: Result<nat, GroupError>)
      modifies this`rows
      ensures r.Ok? <==> SanitizedGroup(to).Some?
      ensures r.Ok? ==>
                State() == Regrouped(old(State()), from, SanitizedGroup(to)) && r.value == GroupedCount(old(rows), from)
      ensures r.Err? ==> State() == old(State())
      ensures old(Valid()) ==> Valid()
    {
      ghost var s := State();
      var clean := SanitizedGroup(to);
      if clean.None? { return Err(BadGroupName); }
      var n := GroupedCount(rows, from);
      rows := Regrouped(State(), from, clean).rows;
      if Inv(s) { RegroupKeeps(s, from, clean); }
      return Ok(n);
    }

    method DeleteGroup(name: string) returns (n: nat)
      modifies this`rows
      ensures State() == Regrouped(old(State()), name, None) && n == GroupedCount(old(rows), name)
      ensures old(Valid()) ==> Valid()
    {
      ghost var s := State();
      n := GroupedCount(rows, name);
      rows := Regrouped(State(), name, None).rows;
      if Inv(s) { RegroupKeeps(s, name, None); }
    }

    /** All in one transaction. */
    method ApplySuggestion(ids: seq<nat>, accept: bool) returns (n: nat)
      modifies this`rows
      ensures State() == Decided(old(State()), ids, accept) && n == MatchedAll(old(State()), ids, accept)
      ensures old(Valid()) ==> Valid()
    {
      ghost var s := State();
      n := 0;
      for k := 0 to |ids|
        invariant State() == Decided(s, ids[..k], accept)
        invariant n == MatchedAll(s, ids[..k], accept)
      {
        assert ids[..k + 1][..k] == ids[..k];
        var i := IndexOfId(rows, ids[k]);
        if i < |rows| {
          var r := rows[i];
          if !accept {
            rows := rows[i := r.(dismissed := true)];
            n := n + 1;
          } else if r.suggested.Some? && r.group.None? {
            rows := rows[i := r.(group := Some(r.suggested.value.group))];
            n := n + 1;
          } else {
            assert rows[i := r] == rows;
          }
        }
      }
      assert ids[..|ids|] == ids;
      if Inv(s) { DecideKeeps(s, ids, accept); }
    }

    // ---------- removal ----------

    method RemoveBlobs(names: seq<BlobName>)
      modifies this`blobs
      ensures blobs == old(blobs) - (set n | n in names)
    {
      for k := 0 to |names|
        invariant blobs == old(blobs) - (set n | n in names[..k])
      {
        assert names[..k + 1] == names[..k] + [names[k]];
        blobs := blobs - {names[k]};
      }
      assert names[..|names|] == names;
    }

    /** DELETE of the given rows, and the foreign key's cascade. Answers how many rows went. */
    method DeleteRows(ids: set<nat>) returns (n: nat)
      modifies this`rows, this`stack
      ensures rows == WithoutRows(old(rows), ids) && stack == Without(old(stack), ids)
      ensures n == |old(rows)| - |rows|
    {
      var kept := WithoutRows(rows, ids);
      n := |rows| - |kept|;
      rows, stack := kept, Without(stack, ids);
    }

    method Delete(id: nat)
      requires Valid()
      modifies this
      ensures Valid() && State() == Dropped(old(State()), {id})
    {
      ghost var s := State();
      DroppedKeeps(s, {id});
      var blob := BlobOfRow(rows, id);
      RowsBlob(s, id);
      var _ := DeleteRows({id});
      RemoveBlobs(blob);
    }

    lemma RowsBlob(s: Store, id: nat)
      requires Inv(s)
      ensures BlobsOf(s.rows, {id}) == set n | n in BlobOfRow(s.rows, id)
    {
      var i := IndexOfId(s.rows, id);
      if i < |s.rows| {
        OneRowOneBlob(s, i);
      } else {
        assert BlobsOf(s.rows, {id}) == {};
      }
    }

    method Clear(keepPinned: bool) returns (n: nat)
      requires Valid()
      modifies this
      ensures Valid() && State() == Dropped(old(State()), ClearIds(old(rows), keepPinned))
      ensures n == |old(rows)| - |rows|
    {
      ghost var s := State();
      var ids := ClearIds(rows, keepPinned);
      DroppedKeeps(s, ids);
      var names := BlobNames(rows, ids);
      assert (set b | b in names) == BlobsOf(s.rows, ids);
      n := DeleteRows(ids);
      RemoveBlobs(names);
    }

    /** The two stages under the lock. Answers the files to remove and how many rows went. */
    method PurgeRows(days: nat, max: nat, now: int) returns (names: seq<BlobName>, n: nat)
      modifies this`rows, this`stack
      ensures var t := Purged(old(State()), days, max, now);
              rows == t.rows && stack == t.stack && blobs - (set b | b in names) == t.blobs
      ensures n == |old(rows)| - |rows|
    {
      PurgedFields(State(), days, max, now);
      var expired := ExpiredIds(rows, days, now);
      var first := BlobNames(rows, expired);
      ghost var a := BlobsOf(rows, expired);
      var n1 := DeleteRows(expired);
      var overflow := OverflowIds(rows, max);
      var second := BlobNames(rows, overflow);
      ghost var b := BlobsOf(rows, overflow);
      var n2 := DeleteRows(overflow);
      TwoRemovals(blobs, first, second, a, b);
      names, n := first + second, n1 + n2;
    }

    method PurgeAll(days: nat, max: nat, now: int) returns (n: nat)
      modifies this
      ensures State() == Purged(old(State()), days, max, now)
      ensures n == |old(rows)| - |rows|
    {
      ghost var t := Purged(State(), days, max, now);
      SamePurgedCounters(State(), days, max, now);
      var names;
      names, n := PurgeRows(days, max, now);
      RemoveBlobs(names);
      assert State() == Store(t.rows, t.stack, t.blobs, t.nextId, t.nextStackRow);
    }

    method Purge(days: nat, max: nat, now: int) returns (n: nat)
      requires Valid()
      modifies this
      ensures Valid() && State() == Purged(old(State()), days, max, now)
      ensures n == |old(rows)| - |rows|
    {
      PurgeKeeps(State(), days, max, now);
      n := PurgeAll(days, max, now);
    }

    lemma SamePurgedCounters(s: Store, days: nat, max: nat, now: int)
      ensures Purged(s, days, max, now).nextId == s.nextId && Purged(s, days, max, now).nextStackRow == s.nextStackRow
    {
    }

    lemma PurgedFields(s: Store, days: nat, max: nat, now: int)
      ensures var a := ExpiredIds(s.rows, days, now);
              var mid := WithoutRows(s.rows, a);
              var b := OverflowIds(mid, max);
              Purged(s, days, max, now) ==
              Store(WithoutRows(mid, b), Without(Without(s.stack, a), b),
                    s.blobs - BlobsOf(s.rows, a) - BlobsOf(mid, b), s.nextId, s.nextStackRow)
    {
    }

    lemma TwoRemovals(blobs: map<BlobName, Bytes>, first: seq<BlobName>, second: seq<BlobName>,
                      a: set<BlobName>, b: set<BlobName>)
      requires forall n :: n in first <==> n in a
      requires forall n :: n in second <==> n in b
      ensures blobs - (set n | n in first + second) == blobs - a - b
    {
    }

    /** Walks the directory and removes every file that is not referenced. */
    method Sweep(referenced: set<BlobName>) returns (removed: nat)
      modifies this`blobs
      ensures blobs == map n | n in old(blobs) && n in referenced :: old(blobs)[n]
      ensures removed == |old(blobs)| - |blobs|
    {
      ghost var before := blobs;
      removed := 0;
      var left := blobs.Keys;
      while left != {}
        invariant left <= before.Keys
        invariant blobs == map n | n in before && (n in referenced || n in left) :: before[n]
        invariant removed + |blobs| == |before|
        decreases |left|
      {
        var name :| name in left;
        left := left - {name};
        if name !in referenced {
          RemoveOne(blobs, name);
          blobs := blobs - {name};
          removed := removed + 1;
        }
      }
    }

    method GcOrphanBlobs() returns (removed: nat)
      requires Valid()
      modifies this`blobs
      ensures Valid() && State() == Collected(old(State()))
      ensures removed == |old(blobs)| - |blobs|
    {
      CollectedKeeps(State());
      removed := Sweep(Referenced(rows));
    }

    lemma RemoveOne(m: map<BlobName, Bytes>, name: BlobName)
      requires name in m
      ensures |m - {name}| == |m| - 1
    {
      assert (m - {name}).Keys == m.Keys - {name};
      assert |m - {name}| == |(m - {name}).Keys| && |m| == |m.Keys|;
    }

    // ---------- the stack ----------

    method StackPush(id: nat) returns (r: Result<nat, StackError>)
      requires Valid()
      modifies this
      ensures Valid() && State() == StackPushed(old(State()), id)
      ensures r == if HasId(old(rows), id) then Ok(|stack|) else Err(NoSuchEntry)
    {
      ghost var s := State();
      PushedKeeps(s, id);
      var i := IndexOfId(rows, id);
      if i == |rows| { return Err(NoSuchEntry); }
      if !Stacked(stack, id) {
        stack := stack + [StackRow(nextStackRow, id, NextPosition(stack))];
        nextStackRow := nextStackRow + 1;
      }
      return Ok(|stack|);
    }

    method StackTakeNext() returns (head: Option<nat>)
      requires DistinctEntries(stack)
      modifies this`stack
      ensures State() == StackTaken(old(State())) && DistinctEntries(stack)
      ensures head == if old(stack) == [] then None else Some(Queue(old(stack))[0])
      ensures old(Valid()) ==> Valid()
    {
      ghost var s := State();
      if stack == [] { return None; }
      var first := Ordered(stack)[0];
      HeadRow(stack);
      OneRowOneEntry(stack, first);
      stack := WithoutStackRow(stack, first.rowId);
      WithoutKeepsDistinctEntries(s.stack, {first.entryId});
      if Inv(s) { UnstackedKeeps(s, {first.entryId}); }
      return Some(first.entryId);
    }

    lemma HeadRow(stack: seq<StackRow>)
      requires stack != [] && DistinctEntries(stack)
      ensures var first := Ordered(stack)[0];
              forall r :: r in stack ==> (r.rowId == first.rowId <==> r.entryId == first.entryId)
    {
      OrderedElements(stack);
      var first := Ordered(stack)[0];
      assert first in Ordered(stack);
      var k :| 0 <= k < |stack| && stack[k] == first;
    }

    /** The first lock of stack_move: reads the order and splices it. */
    method StackMoveRead(id: nat, to: nat) returns (r: Result<seq<nat>, StackError>)
      ensures r == if id in Queue(stack) then Ok(Moved(Queue(stack), id, to)) else Err(NotStacked)
    {
      var order := Queue(stack);
      var from := IndexIn(order, id);
      if from == |order| { return Err(NotStacked); }
      order := order[..from] + order[from + 1..];
      var at := if to <= |order| then to else |order|;
      order := order[..at] + [id] + order[at..];
      return Ok(order);
    }

    /** The second lock: writes the positions back, whatever the stack has become. */
    method StackMoveWrite(order: seq<nat>)
      requires Valid() && NoDuplicates(order)
      modifies this`stack
      ensures Valid() && State() == old(State()).(stack := Repositioned(old(stack), order))
    {
      ghost var s := State();
      assert Repositioned(stack, order[..0]) == stack;
      for i := 0 to |order|
        invariant stack == Repositioned(s.stack, order[..i])
      {
        RepositionStep(s.stack, order, i);
        stack := WithPosition(stack, order[i], i);
      }
      assert order[..|order|] == order;
      MoveKeeps(s, order);
    }

    /** stack_move with nothing in between. */
    method StackMove(id: nat, to: nat) returns (r: Result<(), StackError>)
      requires Valid()
      modifies this`stack
      ensures Valid() && State() == StackMoved(old(State()), id, to)
      ensures r.Ok? <==> id in Queue(old(stack))
    {
      var order := StackMoveRead(id, to);
      if order.Err? { return Err(order.error); }
      QueueNoDuplicates(stack);
      MovedIsPermutation(Queue(stack), id, to);
      PermutationKeeps(order.value, Queue(stack));
      StackMoveWrite(order.value);
      return Ok(());
    }

    method StackRemove(id: nat) returns (found: bool)
      requires Valid()
      modifies this`stack
      ensures Valid() && State() == old(State()).(stack := Without(old(stack), {id}))
      ensures found <==> Stacked(old(stack), id)
    {
      ghost var s := State();
      found := Stacked(stack, id);
      stack := Without(stack, {id});
      UnstackedKeeps(s, {id});
    }

    method StackClear() returns (n: nat)
      requires Valid()
      modifies this`stack
      ensures Valid() && State() == old(State()).(stack := []) && n == |old(stack)|
    {
      ghost var s := State();
      n := |stack|;
      stack := [];
      StackChangeKeeps(s, []);
    }

    // ---------- import ----------

    /** One transaction: on an error the tables are as they were, and only stray files may stay. */
    method ImportRows(backup: seq<BackupRow>, sealed: Sealed, now: int) returns (r: Result<ImportReport, Error>)
      modifies this
      ensures match Import(old(State()), backup, sealed, now)
              case Ok(p) => r == Ok(p.report) && State() == p.store
              case Err(e) => r == Err(e) && rows == old(rows) && stack == old(stack) && FilesGrow(old(blobs), blobs)
                             && (old(Valid()) ==> Valid())
    {
      ghost var s := State();
      var report := ImportReport(0, 0, 0, 0);
      var rows0, stack0 := rows, stack;
      for i := 0 to |backup|
        invariant ImportUpTo(s, backup, sealed, now, i) == Ok(Progress(State(), report))
        invariant FilesGrow(s.blobs, blobs) && s.nextId <= nextId && s.nextStackRow <= nextStackRow
      {
        var row := backup[i];
        ghost var before := State();
        var failure := RowError(row, CipherFor(sealed, i));
        if failure.Some? {
          ImportStops(s, backup, sealed, now, i);
          rows, stack := rows0, stack0;
          if Inv(s) { GrownFilesKeep(s, State()); }
          return Err(failure.value);
        }
        report := ImportOne(row, if i in sealed then sealed[i] else "", now, report);
        ImportRowGrowsFiles(Progress(before, report), row, if i in sealed then sealed[i] else "", now);
        FilesGrowTransitive(s.blobs, before.blobs, blobs);
      }
      return Ok(report);
    }

    method ImportOne(row: BackupRow, cipher: string, now: int, before: ImportReport) returns (report: ImportReport)
      modifies this
      ensures Progress(State(), report) == ImportRow(Progress(old(State()), before), row, cipher, now)
    {
      report := before;
      if row.kind.Image? {
        report := report.(imagesSkipped := report.imagesSkipped + 1);
        return;
      }
      var isNew := true;
      var id;
      if row.secret {
        id := InsertEncrypted(cipher, row.group, None, row.sourceApp, Local, now);
      } else if row.kind.Files? {
        isNew := IndexOfDigest(rows, Sha256(Encode(row.text))) == |rows|;
        if !isNew { report := report.(duplicates := report.duplicates + 1); }
        id := InsertTyped(row.text, row.sourceApp, Local, now);
      } else {
        isNew := IndexOfDigest(rows, Sha256(Encode(row.text))) == |rows|;
        if !isNew { report := report.(duplicates := report.duplicates + 1); }
        id := InsertRow(row.text, row.group, None, row.sourceApp, Local, row.html, now);
      }
      if isNew { report := report.(imported := report.imported + 1); }
      if row.secret { report := report.(secrets := report.secrets + 1); }
      if row.pinned { SetPinned(id, true); }
    }

    lemma ImportStops(s: Store, backup: seq<BackupRow>, sealed: Sealed, now: int, i: nat)
      requires i < |backup| && ImportUpTo(s, backup, sealed, now, i).Ok?
      requires RowError(backup[i], CipherFor(sealed, i)).Some?
      ensures Import(s, backup, sealed, now) == Err(RowError(backup[i], CipherFor(sealed, i)).value)
    {
      ErrorStays(s, backup, sealed, now, i + 1, |backup|);
    }

    lemma {:induction false} ErrorStays(s: Store, backup: seq<BackupRow>, sealed: Sealed, now: int, i: nat, n: nat)
      requires i <= n <= |backup| && ImportUpTo(s, backup, sealed, now, i).Err?
      ensures ImportUpTo(s, backup, sealed, now, n) == ImportUpTo(s, backup, sealed, now, i)
    {
      if i < n { ErrorStays(s, backup, sealed, now, i, n - 1); }
    }
  }
}
