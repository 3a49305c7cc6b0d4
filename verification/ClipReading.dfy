/** Reading rows back: in every reachable state a row's payload is its captured bytes, and stays
  * so for as long as the row lives.
  */
module ClipReading {

  import opened Wrappers
  import opened Utf8
  import opened ClipModel
  import opened ClipInvariant
  import Text

  /** What a row gives back, told from its identity alone. */
  function Meant(r: Row): Payload
    requires r.kind.Image? ==> r.blob.Some?
  {
    match r.kind
    case Image => ImagePayload(AfterLastDot(r.blob.value.ext), r.digest.of)
    case Files => FilesPayload(Decode(r.digest.of))
    case Text => if r.secret then SecretPayload(Decode(r.digest.of)) else TextPayload(Decode(r.digest.of))
  }

  lemma StoredMeans(r: Row, blobs: map<BlobName, Bytes>)
    requires Stored(r, blobs) && Shaped(r)
    ensures PayloadOf(r, blobs) == Ok(Some(Meant(r)))
  {
    if r.blob.None? { DecodeEncode(r.content); }
  }

  lemma IndexOfRow(rows: seq<Row>, i: nat)
    requires RowsApart(rows) && i < |rows|
    ensures IndexOfId(rows, rows[i].id) == i
  {
  }

  /** A row's full bytes are always there: text, file list, image or ciphertext, inline or blob. */
  lemma ReadBack(s: Store, i: nat)
    requires Inv(s) && i < |s.rows|
    ensures s.rows[i].kind.Image? ==> s.rows[i].blob.Some?
    ensures GetPayload(s, s.rows[i].id) == Ok(Some(Meant(s.rows[i])))
  {
    IndexOfRow(s.rows, i);
    StoredMeans(s.rows[i], s.blobs);
  }

  /** The payload a capture asks to have back. */
  function Wanted(c: Capture): Payload {
    match c
    case TextCapture(text, _, _, _, _, _) => TextPayload(text)
    case ImageCapture(format, _, _, bytes, _, _) => ImagePayload(AfterLastDot(format), bytes)
    case FilesCapture(list, _, _) => FilesPayload(list)
    case SecretCapture(cipher, _, _, _, _) => SecretPayload(cipher)
  }

  lemma NewRowMeans(c: Capture, id: nat, now: int)
    ensures (NewRow(c, id, now).kind.Image? ==> NewRow(c, id, now).blob.Some?) && Meant(NewRow(c, id, now)) == Wanted(c)
  {
    match c
    case TextCapture(text, _, _, _, _, _) => DecodeEncode(text);
    case ImageCapture(_, _, _, _, _, _) =>
    case FilesCapture(list, _, _) => DecodeEncode(list);
    case SecretCapture(cipher, _, _, _, _) => DecodeEncode(cipher);
  }

  // ---------- identity over a run ----------

  /** Everything a payload depends on. */
  predicate SameIdentity(r: Row, r': Row) {
    r'.id == r.id && r'.digest == r.digest && r'.blob == r.blob && r'.kind == r.kind && r'.secret == r.secret
  }

  /** Each row after the operation is an old one with its identity, or a new one with a new id. */
  ghost predicate Descends(s: Store, t: Store) {
    && s.nextId <= t.nextId
    && forall r' :: r' in t.rows ==> s.nextId <= r'.id || exists r :: r in s.rows && SameIdentity(r, r')
  }

  lemma RewriteDescends(s: Store, t: Store)
    requires SameCores(s.rows, t.rows) && s.nextId == t.nextId
    ensures Descends(s, t)
  {
    forall r' | r' in t.rows ensures exists r :: r in s.rows && SameIdentity(r, r') {
      var i :| 0 <= i < |t.rows| && t.rows[i] == r';
      assert s.rows[i] in s.rows && SameIdentity(s.rows[i], r');
    }
  }

  lemma SubsetDescends(s: Store, t: Store)
    requires (forall r :: r in t.rows ==> r in s.rows) && s.nextId <= t.nextId
    ensures Descends(s, t)
  {
    forall r' | r' in t.rows ensures exists r :: r in s.rows && SameIdentity(r, r') {
      assert SameIdentity(r', r');
    }
  }

  lemma AppendDescends(s: Store, c: Capture, now: int)
    ensures Descends(s, Appended(s, c, now))
  {
    var t := Appended(s, c, now);
    forall r' | r' in t.rows ensures s.nextId <= r'.id || exists r :: r in s.rows && SameIdentity(r, r') {
      if r' in s.rows { assert SameIdentity(r', r'); }
    }
  }

  lemma CaptureDescends(s: Store, c: Capture, now: int)
    ensures Descends(s, Captured(s, c, now))
  {
    if Hits(s, c) { RewriteDescends(s, Captured(s, c, now)); } else { AppendDescends(s, c, now); }
  }

  lemma CurationDescends(s: Store, op: Op)
    requires op.Pin? || op.SetGroup? || op.RenameGroup? || op.Decide?
    ensures Descends(s, Apply(s, op))
  {
    if op.Decide? { DecidedSameCores(s, op.ids, op.accept); }
    RewriteDescends(s, Apply(s, op));
  }

  lemma StepDescends(s: Store, op: Op)
    ensures Descends(s, Apply(s, op))
  {
    if op.Take? {
      CaptureDescends(s, op.c, op.now);
    } else if op.Pin? || op.SetGroup? || op.RenameGroup? || op.Decide? {
      CurationDescends(s, op);
    } else {
      SubsetDescends(s, Apply(s, op));
    }
  }

  lemma DescendsTransitive(a: Store, b: Store, c: Store)
    requires Descends(a, b) && Descends(b, c)
    ensures Descends(a, c)
  {
    forall r'' | r'' in c.rows && r''.id < a.nextId ensures exists r :: r in a.rows && SameIdentity(r, r'') {
      var r' :| r' in b.rows && SameIdentity(r', r'');
      var r :| r in a.rows && SameIdentity(r, r');
      assert SameIdentity(r, r'');
    }
  }

  function RunFrom(s: Store, ops: seq<Op>): Store {
    if ops == [] then s else Apply(RunFrom(s, ops[..|ops| - 1]), ops[|ops| - 1])
  }

  ghost predicate FreshFrom(s: Store, ops: seq<Op>) {
    ops == [] || (FreshFrom(s, ops[..|ops| - 1]) && FreshCipher(RunFrom(s, ops[..|ops| - 1]), ops[|ops| - 1]))
  }

  lemma {:induction false} RunFromKeeps(s: Store, ops: seq<Op>)
    requires Inv(s) && FreshFrom(s, ops)
    ensures Inv(RunFrom(s, ops)) && Descends(s, RunFrom(s, ops))
  {
    if ops == [] {
      SubsetDescends(s, s);
    } else {
      var init := ops[..|ops| - 1];
      RunFromKeeps(s, init);
      StepKeeps(RunFrom(s, init), ops[|ops| - 1]);
      StepDescends(RunFrom(s, init), ops[|ops| - 1]);
      DescendsTransitive(s, RunFrom(s, init), RunFrom(s, ops));
    }
  }

  /** For as long as a row lives its payload never changes, whatever else happens to the store. */
  lemma PayloadNeverChanges(s: Store, ops: seq<Op>, i: nat, j: nat)
    requires Inv(s) && FreshFrom(s, ops)
    requires i < |s.rows| && j < |RunFrom(s, ops).rows| && RunFrom(s, ops).rows[j].id == s.rows[i].id
    ensures GetPayload(RunFrom(s, ops), s.rows[i].id) == GetPayload(s, s.rows[i].id)
  {
    var t := RunFrom(s, ops);
    RunFromKeeps(s, ops);
    ReadBack(s, i);
    ReadBack(t, j);
    assert t.rows[j] in t.rows;
    StoredRow(s, s.rows[i]);
    var r :| r in s.rows && SameIdentity(r, t.rows[j]);
    SameIdSameRow(s.rows, r, s.rows[i]);
  }

  /** A new row gives back exactly what was captured, after any later run in which it survives. */
  lemma CaptureReadsBack(s: Store, c: Capture, now: int, ops: seq<Op>)
    requires Inv(s) && !HasDigest(s.rows, KeyOf(c))
    requires FreshFrom(Captured(s, c, now), ops)
    requires HasId(RunFrom(Captured(s, c, now), ops).rows, CapturedId(s, c))
    ensures GetPayload(RunFrom(Captured(s, c, now), ops), CapturedId(s, c)) == Ok(Some(Wanted(c)))
  {
    var t := Captured(s, c, now);
    CapturedKeeps(s, c, now);
    var i := |s.rows|;
    assert t.rows[i] == NewRow(c, s.nextId, now);
    NewRowMeans(c, s.nextId, now);
    ReadBack(t, i);
    var u := RunFrom(t, ops);
    var j :| 0 <= j < |u.rows| && u.rows[j].id == s.nextId;
    PayloadNeverChanges(t, ops, i, j);
  }

  // ---------- deletions and collection ----------

  /** Removing rows never takes a surviving row's file: its payload reads the same before and after. */
  lemma SurvivorsKeepPayload(s: Store, ids: set<nat>, r: Row)
    requires Inv(s) && r in s.rows && r.id !in ids
    ensures GetPayload(Dropped(s, ids), r.id) == GetPayload(s, r.id)
    ensures r.blob.Some? ==> r.blob.value in Dropped(s, ids).blobs
  {
    var t := Dropped(s, ids);
    DroppedKeeps(s, ids);
    assert r in t.rows;
    var i :| 0 <= i < |s.rows| && s.rows[i] == r;
    var j :| 0 <= j < |t.rows| && t.rows[j] == r;
    ReadBack(s, i);
    ReadBack(t, j);
    StoredRow(t, r);
  }

  /** After a collection the files on disk are exactly the referenced ones, with their bytes. */
  lemma CollectionIsExact(s: Store)
    requires Inv(s)
    ensures Collected(s).blobs.Keys == Referenced(s.rows)
    ensures forall n :: n in Referenced(s.rows) ==> Collected(s).blobs[n] == n.digest.of
  {
    forall n | n in Referenced(s.rows) ensures n in s.blobs && s.blobs[n] == n.digest.of {
      var r :| r in s.rows && r.blob.Some? && r.blob.value == n;
      StoredRow(s, r);
    }
  }

  // ---------- what the list shows ----------

  /** The size column of an image tells width and height, in this order. */
  lemma SizeReadsBack(c: Capture, width: nat, height: nat, id: nat, now: int)
    requires c.ImageCapture? && c.width == width && c.height == height
    ensures var s := NewRow(c, id, now).content;
            var i := Text.Find(s, "x");
            i.Some? && Text.DecimalValue(s[..i.value]) == width && Text.DecimalValue(s[i.value + 1..]) == height
  {
    Text.DecimalReadsBack(width);
    Text.DecimalReadsBack(height);
    FirstX(Text.Decimal(width), Text.Decimal(height));
  }

  lemma FirstX(a: string, b: string)
    requires Text.AllDigits(a)
    ensures var s := a + "x" + b; Text.Find(s, "x") == Some(|a|) && s[..|a|] == a && s[|a| + 1..] == b
  {
    var s := a + "x" + b;
    assert s[|a|..|a| + 1] == "x" && Text.At(s, "x", |a|);
    forall k | 0 <= k < |a| ensures !Text.At(s, "x", k) {
      assert s[k..k + 1][0] == a[k];
    }
  }

  /** A text of up to 64 KiB is shown whole and has no file; a longer one is shown by its beginning. */
  lemma TextShown(c: Capture, id: nat, now: int)
    requires c.TextCapture?
    ensures var r := NewRow(c, id, now);
            && (r.blob.None? <==> |Encode(c.text)| <= 64 * 1024)
            && r.content <= c.text
            && (r.content == c.text <==> r.blob.None? || |c.text| <= PREVIEW_CHARS)
            && (r.content != c.text ==> |r.content| == PREVIEW_CHARS)
  {
  }

  /** A ciphertext of up to 64 KiB is in the row; of a longer one the row shows nothing. */
  lemma CipherShown(c: Capture, id: nat, now: int)
    requires c.SecretCapture?
    ensures var r := NewRow(c, id, now);
            if |Encode(c.cipher)| <= 64 * 1024 then r.blob.None? && r.content == c.cipher
            else r.blob.Some? && r.content == ""
  {
  }

  /** The format an image is read back with is what follows the last dot of its file's suffix. */
  lemma {:induction false} LastDotSplits(a: string, b: string)
    requires '.' !in b
    ensures AfterLastDot(b) == b && AfterLastDot(a + "." + b) == b
  {
    if a == "" {
      assert a + "." + b == ['.'] + b && (['.'] + b)[1..] == b;
    } else {
      assert (a + "." + b)[1..] == a[1..] + "." + b;
      LastDotSplits(a[1..], b);
    }
  }
}
