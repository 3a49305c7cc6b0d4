/** What every run of the clipboard store keeps: rows are told apart by id and by content, each
  * row's bytes are where the row says they are, and the stack holds live rows only.
  */
module ClipInvariant {

  import opened Wrappers
  import opened Utf8
  import opened PasteStack
  import opened ClipModel
  import opened Retention
  import Text

  // ---------- the invariant ----------

  ghost predicate RowsApart(rows: seq<Row>) {
    forall i, j :: 0 <= i < j < |rows| ==> rows[i].id != rows[j].id && rows[i].digest != rows[j].digest
  }

  ghost predicate IdsBelow(rows: seq<Row>, nextId: nat) {
    forall i :: 0 <= i < |rows| ==> rows[i].id < nextId
  }

  /** The row's full bytes: in its blob file, which the directory holds, or in its own column. */
  ghost predicate Stored(r: Row, blobs: map<BlobName, Bytes>) {
    match r.blob
    case Some(n) => n.digest == r.digest && n in blobs && blobs[n] == r.digest.of
    case None => Encode(r.content) == r.digest.of
  }

  /** Which shapes of row there are. */
  ghost predicate Shaped(r: Row) {
    && (r.kind.Image? ==> r.blob.Some?)
    && (r.kind.Files? ==> r.blob.None?)
    && (r.secret ==> r.kind.Text?)
    && (!r.kind.Image? ==> Encode(Decode(r.digest.of)) == r.digest.of)
  }

  ghost predicate RowsStored(rows: seq<Row>, blobs: map<BlobName, Bytes>) {
    forall i :: 0 <= i < |rows| ==> Stored(rows[i], blobs) && Shaped(rows[i])
  }

  ghost predicate StackLive(s: Store) {
    && DistinctEntries(s.stack)
    && forall k :: 0 <= k < |s.stack| ==> HasId(s.rows, s.stack[k].entryId) && s.stack[k].rowId < s.nextStackRow
  }

  ghost predicate Inv(s: Store) {
    && RowsApart(s.rows)
    && IdsBelow(s.rows, s.nextId)
    && RowsStored(s.rows, s.blobs)
    && StackLive(s)
  }

  // ---------- operations ----------

  datatype Op =
    | Take(c: Capture, now: int)
    | Pin(id: nat, pinned: bool)
    | SetGroup(id: nat, group: Option<string>)
    | RenameGroup(from: string, to: Option<string>)
    | Decide(ids: seq<nat>, accept: bool)
    | Delete(id: nat)
    | Clear(keepPinned: bool)
    | Purge(retentionDays: nat, maxEntries: nat, now: int)
    | Collect
    /** A file left behind by an insert that failed half way, whatever its bytes. */
    | Leftover(name: BlobName, bytes: Bytes)
    | Push(id: nat)
    | TakeNext
    | Unstack(id: nat)
    | ClearStack
    /** The write half of stack_move, with whatever list was read before. */
    | WriteMove(order: seq<nat>)

  function Apply(s: Store, op: Op): Store {
    match op
    case Take(c, now) => Captured(s, c, now)
    case Pin(id, pinned) => Pinned(s, id, pinned)
    case SetGroup(id, group) => Grouped(s, id, group)
    case RenameGroup(from, to) => Regrouped(s, from, to)
    case Decide(ids, accept) => Decided(s, ids, accept)
    case Delete(id) => Dropped(s, {id})
    case Clear(keepPinned) => Dropped(s, ClearIds(s.rows, keepPinned))
    case Purge(days, max, now) => Purged(s, days, max, now)
    case Collect => Collected(s)
    case Leftover(name, bytes) =>
      if HasDigest(s.rows, name.digest) then s else s.(blobs := s.blobs[name := bytes])
    case Push(id) => StackPushed(s, id)
    case TakeNext => StackTaken(s)
    case Unstack(id) => s.(stack := Without(s.stack, {id}))
    case ClearStack => s.(stack := [])
    case WriteMove(order) => s.(stack := Repositioned(s.stack, order))
  }

  predicate StackOp(op: Op) {
    op.Push? || op.TakeNext? || op.Unstack? || op.ClearStack? || op.WriteMove?
  }

  predicate Removal(op: Op) {
    op.Delete? || op.Clear? || op.Purge?
  }

  function Run(ops: seq<Op>): Store {
    if ops == [] then EMPTY else Apply(Run(ops[..|ops| - 1]), ops[|ops| - 1])
  }

  /** Encryption never produces a ciphertext equal to something already stored. */
  ghost predicate FreshCipher(s: Store, op: Op) {
    op.Take? && op.c.SecretCapture? ==> !HasDigest(s.rows, KeyOf(op.c))
  }

  ghost predicate FreshRun(ops: seq<Op>) {
    forall n :: 0 <= n < |ops| ==> FreshCipher(Run(ops[..n]), ops[n])
  }

  // ---------- appending ----------

  lemma NewRowStored(c: Capture, id: nat, now: int, blobs: map<BlobName, Bytes>)
    requires BlobOf(c).Some? ==> BlobOf(c).value in blobs && blobs[BlobOf(c).value] == BytesOf(c)
    ensures Stored(NewRow(c, id, now), blobs) && Shaped(NewRow(c, id, now))
  {
    match c
    case TextCapture(text, _, _, _, _, _) => DecodeEncode(text);
    case ImageCapture(_, _, _, _, _, _) =>
    case FilesCapture(list, _, _) => DecodeEncode(list);
    case SecretCapture(cipher, _, _, _, _) => DecodeEncode(cipher);
  }

  /** Writing a file whose digest no row has leaves every row's bytes alone. */
  lemma ForeignFileKeeps(rows: seq<Row>, blobs: map<BlobName, Bytes>, name: BlobName, bytes: Bytes)
    requires RowsStored(rows, blobs) && !HasDigest(rows, name.digest)
    ensures RowsStored(rows, blobs[name := bytes])
  {
    forall i | 0 <= i < |rows| ensures Stored(rows[i], blobs[name := bytes]) && Shaped(rows[i]) {
      assert rows[i].digest != name.digest;
    }
  }

  lemma RowsStoredAppend(rows: seq<Row>, r: Row, blobs: map<BlobName, Bytes>)
    requires RowsStored(rows, blobs) && Stored(r, blobs) && Shaped(r)
    ensures RowsStored(rows + [r], blobs)
  {
  }

  lemma StackLiveGrows(s: Store, t: Store)
    requires StackLive(s) && t.stack == s.stack && t.nextStackRow == s.nextStackRow && Ids(s.rows) <= Ids(t.rows)
    ensures StackLive(t)
  {
    forall k | 0 <= k < |t.stack| ensures HasId(t.rows, t.stack[k].entryId) {
      HasIdInIds(s.rows, s.stack[k].entryId);
      HasIdInIds(t.rows, t.stack[k].entryId);
    }
  }

  lemma HasIdInIds(rows: seq<Row>, id: nat)
    ensures HasId(rows, id) <==> id in Ids(rows)
  {
    if HasId(rows, id) {
      var i :| 0 <= i < |rows| && rows[i].id == id;
      assert rows[i] in rows;
    }
  }

  lemma IdsAppend(rows: seq<Row>, r: Row)
    ensures Ids(rows + [r]) == Ids(rows) + {r.id}
  {
  }

  lemma AppendedKeeps(s: Store, c: Capture, now: int)
    requires Inv(s) && !HasDigest(s.rows, KeyOf(c))
    ensures Inv(Appended(s, c, now))
  {
    var t := Appended(s, c, now);
    var r := NewRow(c, s.nextId, now);
    assert RowsStored(s.rows, t.blobs) by {
      if BlobOf(c).Some? { ForeignFileKeeps(s.rows, s.blobs, BlobOf(c).value, BytesOf(c)); }
    }
    NewRowStored(c, s.nextId, now, t.blobs);
    RowsStoredAppend(s.rows, r, t.blobs);
    IdsAppend(s.rows, r);
    StackLiveGrows(s, t);
    assert forall i :: 0 <= i < |s.rows| ==> s.rows[i].digest != KeyOf(c);
  }

  // ---------- rewriting rows in place ----------

  /** Nothing that identifies a row or places its bytes differs. */
  predicate SameCore(r: Row, r': Row) {
    && r'.id == r.id && r'.digest == r.digest && r'.blob == r.blob && r'.kind == r.kind
    && r'.content == r.content && r'.secret == r.secret
  }

  ghost predicate SameCores(rows: seq<Row>, rows': seq<Row>) {
    |rows'| == |rows| && forall i :: 0 <= i < |rows| ==> SameCore(rows[i], rows'[i])
  }

  lemma RewriteKeeps(s: Store, rows': seq<Row>)
    requires Inv(s) && SameCores(s.rows, rows')
    ensures Inv(s.(rows := rows'))
  {
    var t := s.(rows := rows');
    forall k | 0 <= k < |t.stack| ensures HasId(t.rows, t.stack[k].entryId) {
      var i :| 0 <= i < |s.rows| && s.rows[i].id == s.stack[k].entryId;
      assert rows'[i].id == s.stack[k].entryId;
    }
  }

  lemma {:induction false} DecidedSameCores(s: Store, ids: seq<nat>, accept: bool)
    ensures SameCores(s.rows, Decided(s, ids, accept).rows)
    ensures Decided(s, ids, accept) == s.(rows := Decided(s, ids, accept).rows)
  {
    if ids != [] { DecidedSameCores(s, ids[..|ids| - 1], accept); }
  }

  // ---------- removing rows ----------

  lemma ApartAppend(w: seq<Row>, r: Row)
    requires RowsApart(w) && forall q :: q in w ==> q.id != r.id && q.digest != r.digest
    ensures RowsApart(w + [r])
  {
    assert forall k :: 0 <= k < |w| ==> w[k] in w;
  }

  lemma {:induction false} WithoutRowsApart(rows: seq<Row>, ids: set<nat>)
    requires RowsApart(rows)
    ensures RowsApart(WithoutRows(rows, ids))
  {
    if rows != [] {
      var n := |rows| - 1;
      var w := WithoutRows(rows[..n], ids);
      WithoutRowsApart(rows[..n], ids);
      if rows[n].id in ids {
        assert WithoutRows(rows, ids) == w;
      } else {
        forall q | q in w ensures q.id != rows[n].id && q.digest != rows[n].digest {
          var k :| 0 <= k < n && rows[k] == q;
        }
        ApartAppend(w, rows[n]);
      }
    }
  }

  lemma SameDigestSameRow(rows: seq<Row>, r: Row, q: Row)
    requires RowsApart(rows) && r in rows && q in rows && r.digest == q.digest
    ensures r == q
  {
    var i :| 0 <= i < |rows| && rows[i] == r;
    var j :| 0 <= j < |rows| && rows[j] == q;
  }

  lemma SameIdSameRow(rows: seq<Row>, r: Row, q: Row)
    requires RowsApart(rows) && r in rows && q in rows && r.id == q.id
    ensures r == q
  {
    var i :| 0 <= i < |rows| && rows[i] == r;
    var j :| 0 <= j < |rows| && rows[j] == q;
  }

  /** No two rows share a blob file. */
  lemma BlobsAreNotShared(s: Store, r: Row, q: Row)
    requires Inv(s) && r in s.rows && q in s.rows && r.blob.Some? && r.blob == q.blob
    ensures r == q
  {
    StoredRow(s, r);
    StoredRow(s, q);
    SameDigestSameRow(s.rows, r, q);
  }

  lemma StoredRow(s: Store, r: Row)
    requires Inv(s) && r in s.rows
    ensures Stored(r, s.blobs) && Shaped(r) && r.id < s.nextId
  {
    var i :| 0 <= i < |s.rows| && s.rows[i] == r;
  }

  lemma DroppedStored(s: Store, ids: set<nat>)
    requires Inv(s)
    ensures RowsStored(Dropped(s, ids).rows, Dropped(s, ids).blobs)
  {
    var t := Dropped(s, ids);
    forall i | 0 <= i < |t.rows| ensures Stored(t.rows[i], t.blobs) && Shaped(t.rows[i]) {
      var r := t.rows[i];
      assert r in t.rows;
      StoredRow(s, r);
      forall q | q in s.rows && q.id in ids && q.blob.Some? ensures q.blob != r.blob {
        if q.blob == r.blob { BlobsAreNotShared(s, r, q); }
      }
    }
  }

  lemma DroppedStack(s: Store, ids: set<nat>)
    requires StackLive(s)
    ensures StackLive(Dropped(s, ids))
  {
    var t := Dropped(s, ids);
    WithoutKeepsDistinctEntries(s.stack, ids);
    forall k | 0 <= k < |t.stack| ensures HasId(t.rows, t.stack[k].entryId) && t.stack[k].rowId < t.nextStackRow {
      assert t.stack[k] in t.stack;
      var l :| 0 <= l < |s.stack| && s.stack[l] == t.stack[k];
      var i :| 0 <= i < |s.rows| && s.rows[i].id == s.stack[l].entryId;
      assert s.rows[i] in t.rows;
    }
  }

  /** Removing any set of rows, with their stack rows and files: delete, clear and purge. */
  lemma DroppedKeeps(s: Store, ids: set<nat>)
    requires Inv(s)
    ensures Inv(Dropped(s, ids))
  {
    var t := Dropped(s, ids);
    WithoutRowsApart(s.rows, ids);
    DroppedStored(s, ids);
    DroppedStack(s, ids);
    forall i | 0 <= i < |t.rows| ensures t.rows[i].id < t.nextId {
      assert t.rows[i] in t.rows;
      StoredRow(s, t.rows[i]);
    }
  }

  // ---------- every operation ----------

  lemma CollectedKeeps(s: Store)
    requires Inv(s)
    ensures Inv(Collected(s))
  {
    var t := Collected(s);
    forall i | 0 <= i < |s.rows| ensures Stored(s.rows[i], t.blobs) && Shaped(s.rows[i]) {
      assert s.rows[i] in s.rows;
    }
  }

  /** The stack row names the same entry under the same row id as one that was there. */
  ghost predicate FromStack(stack: seq<StackRow>, x: StackRow) {
    exists l :: 0 <= l < |stack| && stack[l].entryId == x.entryId && stack[l].rowId == x.rowId
  }

  lemma StackChangeKeeps(s: Store, stack': seq<StackRow>)
    requires Inv(s) && DistinctEntries(stack')
    requires forall k :: 0 <= k < |stack'| ==> FromStack(s.stack, stack'[k])
    ensures Inv(s.(stack := stack'))
  {
    var t := s.(stack := stack');
    forall k | 0 <= k < |stack'| ensures HasId(t.rows, t.stack[k].entryId) && t.stack[k].rowId < t.nextStackRow {
      assert FromStack(s.stack, stack'[k]);
    }
  }

  lemma UnstackedKeeps(s: Store, ids: set<nat>)
    requires Inv(s)
    ensures Inv(s.(stack := Without(s.stack, ids)))
  {
    WithoutKeepsDistinctEntries(s.stack, ids);
    var w := Without(s.stack, ids);
    forall k | 0 <= k < |w| ensures FromStack(s.stack, w[k]) {
      assert w[k] in w;
    }
    StackChangeKeeps(s, w);
  }

  lemma PushedLive(s: Store, id: nat)
    requires StackLive(s) && HasId(s.rows, id) && !Stacked(s.stack, id)
    ensures StackLive(StackPushed(s, id))
  {
    var r := StackRow(s.nextStackRow, id, NextPosition(s.stack));
    forall k | 0 <= k < |s.stack| ensures s.stack[k].entryId != id && s.stack[k].rowId != r.rowId {
      assert s.stack[k] in s.stack;
    }
    assert StackPushed(s, id).stack == s.stack + [r];
  }

  lemma PushedKeeps(s: Store, id: nat)
    requires Inv(s)
    ensures Inv(StackPushed(s, id))
  {
    if HasId(s.rows, id) && !Stacked(s.stack, id) { PushedLive(s, id); }
  }

  lemma CapturedKeeps(s: Store, c: Capture, now: int)
    requires Inv(s) && (c.SecretCapture? ==> !HasDigest(s.rows, KeyOf(c)))
    ensures Inv(Captured(s, c, now))
  {
    if Hits(s, c) {
      var i := IndexOfDigest(s.rows, KeyOf(c));
      RewriteKeeps(s, s.rows[i := Touched(s.rows[i], c, now)]);
    } else {
      AppendedKeeps(s, c, now);
    }
  }

  lemma MoveKeeps(s: Store, order: seq<nat>)
    requires Inv(s)
    ensures Inv(s.(stack := Repositioned(s.stack, order)))
  {
    var t := Repositioned(s.stack, order);
    forall k | 0 <= k < |t| ensures FromStack(s.stack, t[k]) {
      assert s.stack[k].entryId == t[k].entryId;
    }
    forall i, j | 0 <= i < j < |t| ensures t[i].entryId != t[j].entryId && t[i].rowId != t[j].rowId {
      assert s.stack[i].entryId != s.stack[j].entryId;
    }
    StackChangeKeeps(s, t);
  }

  lemma PinKeeps(s: Store, id: nat, pinned: bool)
    requires Inv(s)
    ensures Inv(Pinned(s, id, pinned))
  {
    RewriteKeeps(s, Pinned(s, id, pinned).rows);
  }

  lemma GroupKeeps(s: Store, id: nat, group: Option<string>)
    requires Inv(s)
    ensures Inv(Grouped(s, id, group))
  {
    RewriteKeeps(s, Grouped(s, id, group).rows);
  }

  lemma RegroupKeeps(s: Store, from: string, to: Option<string>)
    requires Inv(s)
    ensures Inv(Regrouped(s, from, to))
  {
    RewriteKeeps(s, Regrouped(s, from, to).rows);
  }

  lemma DecideKeeps(s: Store, ids: seq<nat>, accept: bool)
    requires Inv(s)
    ensures Inv(Decided(s, ids, accept))
  {
    DecidedSameCores(s, ids, accept);
    RewriteKeeps(s, Decided(s, ids, accept).rows);
  }

  lemma PurgeKeeps(s: Store, days: nat, max: nat, now: int)
    requires Inv(s)
    ensures Inv(Purged(s, days, max, now))
  {
    var mid := Dropped(s, ExpiredIds(s.rows, days, now));
    DroppedKeeps(s, ExpiredIds(s.rows, days, now));
    DroppedKeeps(mid, OverflowIds(mid.rows, max));
  }

  lemma LeftoverKeeps(s: Store, name: BlobName, bytes: Bytes)
    requires Inv(s)
    ensures Inv(Apply(s, Leftover(name, bytes)))
  {
    if !HasDigest(s.rows, name.digest) {
      ForeignFileKeeps(s.rows, s.blobs, name, bytes);
      StackLiveGrows(s, s.(blobs := s.blobs[name := bytes]));
    }
  }

  lemma SameStore(t: Store, u: Store)
    requires Inv(u) && t == u
    ensures Inv(t)
  {
  }

  lemma PurgeApplied(s: Store, op: Op)
    requires op.Purge?
    ensures Apply(s, op) == Purged(s, op.retentionDays, op.maxEntries, op.now)
  {
  }

  lemma PurgeOpKeeps(s: Store, op: Op)
    requires Inv(s) && op.Purge?
    ensures Inv(Apply(s, op))
  {
    PurgeApplied(s, op);
    PurgeKeeps(s, op.retentionDays, op.maxEntries, op.now);
    SameStore(Apply(s, op), Purged(s, op.retentionDays, op.maxEntries, op.now));
  }

  /** The rows a deletion or a clearing is for. */
  function Doomed(s: Store, op: Op): set<nat>
    requires op.Delete? || op.Clear?
  {
    if op.Delete? then {op.id} else ClearIds(s.rows, op.keepPinned)
  }

  lemma DropApplied(s: Store, op: Op)
    requires op.Delete? || op.Clear?
    ensures Apply(s, op) == Dropped(s, Doomed(s, op))
  {
  }

  lemma RemovalKeeps(s: Store, op: Op)
    requires Inv(s) && Removal(op)
    ensures Inv(Apply(s, op))
  {
    if op.Purge? {
      PurgeOpKeeps(s, op);
    } else {
      DropApplied(s, op);
      DroppedKeeps(s, Doomed(s, op));
      SameStore(Apply(s, op), Dropped(s, Doomed(s, op)));
    }
  }

  lemma RowOpKeeps(s: Store, op: Op)
    requires Inv(s) && FreshCipher(s, op)
    requires op.Take? || op.Pin? || op.SetGroup? || op.RenameGroup? || op.Decide?
    ensures Inv(Apply(s, op))
  {
    match op
    case Take(c, now) => CapturedKeeps(s, c, now);
    case Pin(id, pinned) => PinKeeps(s, id, pinned);
    case SetGroup(id, group) => GroupKeeps(s, id, group);
    case RenameGroup(from, to) => RegroupKeeps(s, from, to);
    case Decide(ids, accept) => DecideKeeps(s, ids, accept);
  }

  lemma TakenKeeps(s: Store)
    requires Inv(s)
    ensures Inv(StackTaken(s))
  {
    if s.stack != [] { UnstackedKeeps(s, {Queue(s.stack)[0]}); }
  }

  lemma PushOpKeeps(s: Store, op: Op)
    requires Inv(s) && op.Push?
    ensures Inv(Apply(s, op))
  {
    PushedKeeps(s, op.id);
    SameStore(Apply(s, op), StackPushed(s, op.id));
  }

  lemma TakeApplied(s: Store, op: Op)
    requires op.TakeNext?
    ensures Apply(s, op) == StackTaken(s)
  {
  }

  lemma TakeOpKeeps(s: Store, op: Op)
    requires Inv(s) && op.TakeNext?
    ensures Inv(Apply(s, op))
  {
    TakeApplied(s, op);
    TakenKeeps(s);
    SameStore(Apply(s, op), StackTaken(s));
  }

  lemma UnstackOpKeeps(s: Store, op: Op)
    requires Inv(s) && (op.Unstack? || op.ClearStack?)
    ensures Inv(Apply(s, op))
  {
    if op.Unstack? {
      UnstackedKeeps(s, {op.id});
      SameStore(Apply(s, op), s.(stack := Without(s.stack, {op.id})));
    } else {
      StackChangeKeeps(s, []);
      SameStore(Apply(s, op), s.(stack := []));
    }
  }

  lemma MoveOpKeeps(s: Store, op: Op)
    requires Inv(s) && op.WriteMove?
    ensures Inv(Apply(s, op))
  {
    MoveKeeps(s, op.order);
    SameStore(Apply(s, op), s.(stack := Repositioned(s.stack, op.order)));
  }

  lemma StackOpKeeps(s: Store, op: Op)
    requires Inv(s) && StackOp(op)
    ensures Inv(Apply(s, op))
  {
    if op.Push? {
      PushOpKeeps(s, op);
    } else if op.TakeNext? {
      TakeOpKeeps(s, op);
    } else if op.WriteMove? {
      MoveOpKeeps(s, op);
    } else {
      UnstackOpKeeps(s, op);
    }
  }

  lemma StepKeeps(s: Store, op: Op)
    requires Inv(s) && FreshCipher(s, op)
    ensures Inv(Apply(s, op))
  {
    if op.Collect? {
      CollectedKeeps(s);
    } else if op.Leftover? {
      LeftoverKeeps(s, op.name, op.bytes);
    } else if Removal(op) {
      RemovalKeeps(s, op);
    } else if StackOp(op) {
      StackOpKeeps(s, op);
    } else {
      RowOpKeeps(s, op);
    }
  }

  /** Every run keeps the invariant. */
  lemma {:induction false} RunKeeps(ops: seq<Op>)
    requires FreshRun(ops)
    ensures Inv(Run(ops))
  {
    if ops != [] {
      var init := ops[..|ops| - 1];
      forall n | 0 <= n < |init| ensures FreshCipher(Run(init[..n]), init[n]) {
        assert init[..n] == ops[..n];
      }
      RunKeeps(init);
      StepKeeps(Run(init), ops[|ops| - 1]);
    }
  }

  /** The freshness of a ciphertext is needed exactly where it is assumed. */
  lemma CapturedKeepsIff(s: Store, c: Capture, now: int)
    requires Inv(s)
    ensures Inv(Captured(s, c, now)) <==> !(c.SecretCapture? && HasDigest(s.rows, KeyOf(c)))
  {
    if c.SecretCapture? && HasDigest(s.rows, KeyOf(c)) {
      var t := Captured(s, c, now);
      var i :| 0 <= i < |s.rows| && s.rows[i].digest == KeyOf(c);
      assert t.rows[i].digest == t.rows[|s.rows|].digest;
    } else {
      CapturedKeeps(s, c, now);
    }
  }

  // ---------- the id a capture answers with ----------

  /** Some row has this id and this content. */
  predicate Names(rows: seq<Row>, id: nat, d: Digest) {
    exists i :: 0 <= i < |rows| && rows[i].id == id && rows[i].digest == d
  }

  /** The answered id is that of a row with the captured content, new or refreshed, ... */
  lemma AnswerNamesTheCapture(s: Store, c: Capture, now: int)
    ensures Names(Captured(s, c, now).rows, CapturedId(s, c), KeyOf(c))
  {
    var t := Captured(s, c, now);
    var i := if Hits(s, c) then IndexOfDigest(s.rows, KeyOf(c)) else |s.rows|;
    assert t.rows[i].id == CapturedId(s, c) && t.rows[i].digest == KeyOf(c);
  }

  lemma NamedRowIsOnly(rows: seq<Row>, id: nat, d: Digest)
    requires RowsApart(rows) && Names(rows, id, d)
    ensures forall r :: r in rows ==> (r.id == id <==> r.digest == d)
  {
    var i :| 0 <= i < |rows| && rows[i].id == id && rows[i].digest == d;
    forall r | r in rows ensures r.id == id <==> r.digest == d {
      if r.id == id { SameIdSameRow(rows, r, rows[i]); }
      if r.digest == d { SameDigestSameRow(rows, r, rows[i]); }
    }
  }

  /** ... and no other row has either. */
  lemma AnswerIsExact(s: Store, c: Capture, now: int)
    requires Inv(s) && (c.SecretCapture? ==> !HasDigest(s.rows, KeyOf(c)))
    ensures forall r :: r in Captured(s, c, now).rows ==> (r.id == CapturedId(s, c) <==> r.digest == KeyOf(c))
  {
    CapturedKeeps(s, c, now);
    AnswerNamesTheCapture(s, c, now);
    NamedRowIsOnly(Captured(s, c, now).rows, CapturedId(s, c), KeyOf(c));
  }

  // ---------- curation touches what it names ----------

  /** The rows are as before, except that the one with this id, if there is one, is r. */
  ghost predicate OnlyRowChanges(before: seq<Row>, after: seq<Row>, id: nat, r: Row) {
    && |after| == |before|
    && forall i :: 0 <= i < |before| ==> after[i] == if before[i].id == id then r else before[i]
  }

  lemma PinExact(s: Store, i: nat, pinned: bool)
    requires Inv(s) && i < |s.rows|
    ensures OnlyRowChanges(s.rows, Pinned(s, s.rows[i].id, pinned).rows, s.rows[i].id, s.rows[i].(pinned := pinned))
  {
  }

  lemma GroupExact(s: Store, i: nat, group: Option<string>)
    requires Inv(s) && i < |s.rows|
    ensures OnlyRowChanges(s.rows, Grouped(s, s.rows[i].id, group).rows, s.rows[i].id, s.rows[i].(group := group))
  {
  }

  /** A dismissed suggestion is marked, an accepted one files the row unless the user had. */
  lemma DecideExact(s: Store, i: nat, accept: bool)
    requires Inv(s) && i < |s.rows|
    ensures var r := s.rows[i];
            OnlyRowChanges(s.rows, DecidedOne(s, r.id, accept).rows, r.id,
                           if !accept then r.(dismissed := true)
                           else if r.group.Some? || r.suggested.None? then r
                           else r.(group := Some(r.suggested.value.group)))
  {
  }

  /** Renaming a group changes the group of its rows and nothing else. */
  lemma RegroupExact(s: Store, from: string, to: Option<string>, i: nat)
    requires i < |s.rows|
    ensures var t := Regrouped(s, from, to);
            && |t.rows| == |s.rows| && t == s.(rows := t.rows)
            && t.rows[i] == s.rows[i].(group := if s.rows[i].group == Some(from) then to else s.rows[i].group)
  {
  }

  /** A clean group name is trimmed and of one to 64 characters, cleaning it again changes nothing, and only names
    * that trim to such a length are accepted. */
  lemma CleanNames(name: string)
    ensures SanitizedGroup(name).Some? <==> !Text.Blank(name) && |Text.Trim(name)| <= MAX_GROUP_CHARS
    ensures SanitizedGroup(name).Some? ==>
              var g := SanitizedGroup(name).value; g == Text.Trim(name) && SanitizedGroup(g) == Some(g)
  {
    Text.TrimsToNothingIff(name);
    Text.TrimTwice(name);
  }

  /** An id that no row has changes nothing. */
  lemma UnknownIdChangesNothing(s: Store, id: nat, pinned: bool, group: Option<string>, accept: bool)
    requires !HasId(s.rows, id)
    ensures Pinned(s, id, pinned) == s && Grouped(s, id, group) == s && DecidedOne(s, id, accept) == s
  {
  }
}
