/** Export everything, clear everything, import: which rows come back, and with what. */
module BackupRoundTrip {

  import opened Wrappers
  import opened Utf8
  import opened ClipModel
  import opened Retention
  import opened ClipInvariant
  import opened ClipReading
  import opened PurgeExact
  import opened Backup

  // ---------- what an export with secrets takes out ----------

  lemma {:induction false} ChosenMembers(rows: seq<Row>, r: Row)
    ensures r in Chosen(rows, true) <==> r in rows && Exportable(r)
  {
    if rows != [] {
      var n := |rows| - 1;
      ChosenMembers(rows[..n], r);
      assert rows == rows[..n] + [rows[n]];
    }
  }

  lemma {:induction false} ChosenNoRepeats(rows: seq<Row>)
    requires NoRepeats(rows)
    ensures NoRepeats(Chosen(rows, true))
  {
    if rows != [] {
      var n := |rows| - 1;
      var c := Chosen(rows[..n], true);
      ChosenNoRepeats(rows[..n]);
      forall k | 0 <= k < |c| ensures c[k].id != rows[n].id {
        ChosenMembers(rows[..n], c[k]);
        assert c[k] in rows[..n];
      }
    }
  }

  /** An export with secrets takes exactly the rows without a blob, each once. */
  lemma SourcesAreTheInlineRows(s: Store)
    requires Inv(s)
    ensures NoRepeats(Sources(s, true))
    ensures forall r :: r in Sources(s, true) <==> r in s.rows && r.blob.None?
  {
    NewestFirstNoRepeats(s.rows);
    NewestFirstMembers(s.rows);
    ChosenNoRepeats(NewestFirst(s.rows));
    forall r ensures r in Sources(s, true) <==> r in s.rows && r.blob.None? {
      ChosenMembers(NewestFirst(s.rows), r);
      if r in s.rows { StoredRow(s, r); }
    }
  }

  lemma SourceRow(s: Store, i: nat)
    requires Inv(s) && i < |Sources(s, true)|
    ensures var r := Sources(s, true)[i];
            && r in s.rows && r.blob.None? && !r.kind.Image?
            && Encode(r.content) == r.digest.of && (r.secret ==> r.kind.Text?)
  {
    SourcesAreTheInlineRows(s);
    var r := Sources(s, true)[i];
    assert r in Sources(s, true);
    StoredRow(s, r);
  }

  lemma SourcesApart(s: Store, i: nat, j: nat)
    requires Inv(s) && i < j < |Sources(s, true)|
    ensures Sources(s, true)[i].digest != Sources(s, true)[j].digest
  {
    var c := Sources(s, true);
    SourcesAreTheInlineRows(s);
    SourceRow(s, i);
    SourceRow(s, j);
    if c[i].digest == c[j].digest { SameDigestSameRow(s.rows, c[i], c[j]); }
  }

  // ---------- the seals ----------

  /** The crypto port protects every secret, and what it answers opens to the same plaintext. */
  ghost predicate SealsSound(c: seq<Row>, opens: Opens, sealed: Sealed) {
    forall i :: 0 <= i < |c| && c[i].secret ==>
      c[i].content in opens && i in sealed && sealed[i] in opens && opens[sealed[i]] == opens[c[i].content]
  }

  /** A new ciphertext repeats nothing: no content that was stored and no other new ciphertext. */
  ghost predicate SealsFresh(c: seq<Row>, sealed: Sealed) {
    && (forall i, j :: 0 <= i < |c| && 0 <= j < |c| && c[i].secret && i in sealed ==>
          Encode(sealed[i]) != c[j].digest.of)
    && (forall i, j :: 0 <= i < j < |c| && i in sealed && j in sealed ==> sealed[i] != sealed[j])
  }

  /** The cleared store. */
  function Cleared(s: Store): Store {
    Dropped(s, ClearIds(s.rows, false))
  }

  lemma SomeMember(rows: seq<Row>)
    ensures rows != [] ==> exists r :: r in rows
  {
    if rows != [] { assert rows[0] in rows; }
  }

  lemma ClearedIsEmpty(s: Store)
    ensures Cleared(s).rows == []
  {
    var t := Cleared(s);
    assert forall r :: r in s.rows ==> r.id in ClearIds(s.rows, false);
    SomeMember(t.rows);
    assert forall r :: r !in t.rows;
  }

  // ---------- the import, row by row ----------

  function CipherAt(sealed: Sealed, i: nat): string {
    if i in sealed then sealed[i] else ""
  }

  /** The row an import makes of a backup row on a table that does not have it. */
  function Remade(row: BackupRow, cipher: string, id: nat, now: int): Row {
    NewRow(CaptureOf(row, cipher), id, now).(pinned := row.pinned)
  }

  lemma RemakesRow(p: Progress, row: BackupRow, cipher: string, now: int)
    requires !row.kind.Image? && IdsBelow(p.store.rows, p.store.nextId)
    requires !HasDigest(p.store.rows, KeyOf(CaptureOf(row, cipher)))
    ensures var q := ImportRow(p, row, cipher, now);
            && q.store.rows == p.store.rows + [Remade(row, cipher, p.store.nextId, now)]
            && q.store.nextId == p.store.nextId + 1
            && q.report.imported == p.report.imported + 1
            && q.report.duplicates == p.report.duplicates && q.report.imagesSkipped == p.report.imagesSkipped
  {
    var t := Captured(p.store, CaptureOf(row, cipher), now);
    var n := |p.store.rows|;
    assert IndexOfId(t.rows, p.store.nextId) == n by {
      assert t.rows[n].id == p.store.nextId;
      assert forall k :: 0 <= k < n ==> t.rows[k] == p.store.rows[k];
    }
  }

  /** The bytes a restored row is known by. */
  function RestoredBytes(r: Row, cipher: string): Bytes {
    if r.secret then Encode(cipher) else Encode(r.content)
  }

  lemma RestoredKey(r: Row, opens: Opens, cipher: string)
    requires !r.kind.Image?
    ensures KeyOf(CaptureOf(BackupOf(r, opens), cipher)) == Sha256(RestoredBytes(r, cipher))
  {
  }

  lemma RestoredBytesApart(s: Store, sealed: Sealed, i: nat, j: nat)
    requires Inv(s) && i < j < |Sources(s, true)| && SealsFresh(Sources(s, true), sealed)
    requires forall k :: 0 <= k < |Sources(s, true)| && Sources(s, true)[k].secret ==> k in sealed
    ensures var c := Sources(s, true);
            RestoredBytes(c[i], CipherAt(sealed, i)) != RestoredBytes(c[j], CipherAt(sealed, j))
  {
    SourceRow(s, i);
    SourceRow(s, j);
    SourcesApart(s, i, j);
    DecodeEncode(CipherAt(sealed, i));
    DecodeEncode(CipherAt(sealed, j));
  }

  /** The table after n rows of the import: one new row for each, in order. */
  ghost predicate Rebuilt(b: seq<BackupRow>, sealed: Sealed, base: nat, now: int, p: Progress, n: nat)
    requires n <= |b|
  {
    && |p.store.rows| == n && p.store.nextId == base + n
    && p.report.imported == n && p.report.duplicates == 0 && p.report.imagesSkipped == 0
    && forall j :: 0 <= j < n ==> p.store.rows[j] == Remade(b[j], CipherAt(sealed, j), base + j, now)
  }

  lemma NextIsNew(s: Store, opens: Opens, sealed: Sealed, base: nat, now: int, p: Progress, n: nat)
    requires Inv(s) && n < |Sources(s, true)|
    requires SealsSound(Sources(s, true), opens, sealed) && SealsFresh(Sources(s, true), sealed)
    requires Rebuilt(BackupOfAll(Sources(s, true), opens), sealed, base, now, p, n)
    ensures !HasDigest(p.store.rows, Sha256(RestoredBytes(Sources(s, true)[n], CipherAt(sealed, n))))
  {
    var c := Sources(s, true);
    var b := BackupOfAll(c, opens);
    forall j | 0 <= j < n
      ensures p.store.rows[j].digest != Sha256(RestoredBytes(c[n], CipherAt(sealed, n)))
    {
      SourceRow(s, j);
      assert b[j] == BackupOf(c[j], opens);
      RestoredKey(c[j], opens, CipherAt(sealed, j));
      RestoredBytesApart(s, sealed, j, n);
    }
  }

  lemma RebuiltStep(b: seq<BackupRow>, sealed: Sealed, base: nat, now: int, p: Progress, n: nat)
    requires n < |b| && !b[n].kind.Image? && Rebuilt(b, sealed, base, now, p, n)
    requires !HasDigest(p.store.rows, KeyOf(CaptureOf(b[n], CipherAt(sealed, n))))
    ensures Rebuilt(b, sealed, base, now, ImportRow(p, b[n], CipherAt(sealed, n), now), n + 1)
  {
    assert IdsBelow(p.store.rows, p.store.nextId);
    RemakesRow(p, b[n], CipherAt(sealed, n), now);
  }

  lemma ImportUpToStep(s: Store, rows: seq<BackupRow>, sealed: Sealed, now: int, n: nat)
    requires n < |rows| && ImportUpTo(s, rows, sealed, now, n).Ok? && RowError(rows[n], CipherFor(sealed, n)).None?
    ensures ImportUpTo(s, rows, sealed, now, n + 1) ==
            Ok(ImportRow(ImportUpTo(s, rows, sealed, now, n).value, rows[n], CipherAt(sealed, n), now))
  {
  }

  lemma SealedRowsImport(s: Store, opens: Opens, sealed: Sealed, i: nat)
    requires Inv(s) && i < |Sources(s, true)| && SealsSound(Sources(s, true), opens, sealed)
    ensures var b := BackupOfAll(Sources(s, true), opens);
            RowError(b[i], CipherFor(sealed, i)).None? && !b[i].kind.Image?
  {
    SourceRow(s, i);
    var b := BackupOfAll(Sources(s, true), opens);
    assert b[i] == BackupOf(Sources(s, true)[i], opens);
  }

  lemma RestoreStep(s: Store, opens: Opens, sealed: Sealed, base: nat, now: int, p: Progress, n: nat)
    requires Inv(s) && n < |Sources(s, true)|
    requires SealsSound(Sources(s, true), opens, sealed) && SealsFresh(Sources(s, true), sealed)
    requires Rebuilt(BackupOfAll(Sources(s, true), opens), sealed, base, now, p, n)
    ensures var b := BackupOfAll(Sources(s, true), opens);
            Rebuilt(b, sealed, base, now, ImportRow(p, b[n], CipherAt(sealed, n), now), n + 1)
  {
    var c := Sources(s, true);
    var b := BackupOfAll(c, opens);
    SourceRow(s, n);
    assert b[n] == BackupOf(c[n], opens);
    RestoredKey(c[n], opens, CipherAt(sealed, n));
    NextIsNew(s, opens, sealed, base, now, p, n);
    RebuiltStep(b, sealed, base, now, p, n);
  }

  /** The first n rows of the export of s, imported into e. */
  ghost predicate RebuildsFrom(s: Store, e: Store, opens: Opens, sealed: Sealed, now: int, n: nat)
    requires n <= |Sources(s, true)|
  {
    var b := BackupOfAll(Sources(s, true), opens);
    var r := ImportUpTo(e, b, sealed, now, n);
    r.Ok? && Rebuilt(b, sealed, e.nextId, now, r.value, n)
  }

  lemma RebuildsNone(s: Store, e: Store, opens: Opens, sealed: Sealed, now: int)
    requires e.rows == []
    ensures RebuildsFrom(s, e, opens, sealed, now, 0)
  {
  }

  lemma RebuildsNext(s: Store, e: Store, opens: Opens, sealed: Sealed, now: int, n: nat, next: nat)
    requires Inv(s) && n < |Sources(s, true)| && next == n + 1
    requires SealsSound(Sources(s, true), opens, sealed) && SealsFresh(Sources(s, true), sealed)
    requires RebuildsFrom(s, e, opens, sealed, now, n)
    ensures RebuildsFrom(s, e, opens, sealed, now, next)
  {
    var b := BackupOfAll(Sources(s, true), opens);
    SealedRowsImport(s, opens, sealed, n);
    RestoreStep(s, opens, sealed, e.nextId, now, ImportUpTo(e, b, sealed, now, n).value, n);
    ImportUpToStep(e, b, sealed, now, n);
  }

  lemma {:induction false} RebuildsUpTo(s: Store, e: Store, opens: Opens, sealed: Sealed, now: int, n: nat)
    requires Inv(s) && e.rows == [] && n <= |Sources(s, true)|
    requires SealsSound(Sources(s, true), opens, sealed) && SealsFresh(Sources(s, true), sealed)
    ensures RebuildsFrom(s, e, opens, sealed, now, n)
  {
    if n == 0 {
      RebuildsNone(s, e, opens, sealed, now);
    } else {
      RebuildsUpTo(s, e, opens, sealed, now, n - 1);
      RebuildsNext(s, e, opens, sealed, now, n - 1, n);
    }
  }

  // ---------- imports keep the invariant ----------

  lemma ImportRowKeeps(p: Progress, row: BackupRow, cipher: string, now: int)
    requires Inv(p.store)
    requires row.secret && !row.kind.Image? ==> !HasDigest(p.store.rows, Sha256(Encode(cipher)))
    ensures Inv(ImportRow(p, row, cipher, now).store)
  {
    if !row.kind.Image? {
      var c := CaptureOf(row, cipher);
      CapturedKeeps(p.store, c, now);
      if row.pinned { PinKeeps(Captured(p.store, c, now), CapturedId(p.store, c), true); }
    }
  }

  /** Every ciphertext an import brings is new to the table when it comes. */
  ghost predicate FreshImport(s: Store, rows: seq<BackupRow>, sealed: Sealed, now: int) {
    forall n :: 0 <= n < |rows| && rows[n].secret && !rows[n].kind.Image? && ImportUpTo(s, rows, sealed, now, n).Ok? ==>
      !HasDigest(ImportUpTo(s, rows, sealed, now, n).value.store.rows, Sha256(Encode(CipherAt(sealed, n))))
  }

  lemma {:induction false} ImportKeepsUpTo(s: Store, rows: seq<BackupRow>, sealed: Sealed, now: int, n: nat)
    requires Inv(s) && FreshImport(s, rows, sealed, now) && n <= |rows| && ImportUpTo(s, rows, sealed, now, n).Ok?
    ensures Inv(ImportUpTo(s, rows, sealed, now, n).value.store)
  {
    if n > 0 {
      ImportKeepsUpTo(s, rows, sealed, now, n - 1);
      ImportRowKeeps(ImportUpTo(s, rows, sealed, now, n - 1).value, rows[n - 1], CipherAt(sealed, n - 1), now);
    }
  }

  /** A whole import is as safe as the inserts and pins it is made of. */
  lemma ImportKeeps(s: Store, rows: seq<BackupRow>, sealed: Sealed, now: int)
    requires Inv(s) && FreshImport(s, rows, sealed, now) && Import(s, rows, sealed, now).Ok?
    ensures Inv(Import(s, rows, sealed, now).value.store)
  {
    ImportKeepsUpTo(s, rows, sealed, now, |rows|);
  }

  // ---------- an import is a run of captures and pins ----------

  /** The operations an import is made of. */
  function ImportOps(s: Store, rows: seq<BackupRow>, sealed: Sealed, now: int, n: nat): seq<Op>
    requires n <= |rows|
  {
    if n == 0 then []
    else
      var before, row := ImportOps(s, rows, sealed, now, n - 1), rows[n - 1];
      if row.kind.Image? then before
      else
        var c := CaptureOf(row, CipherAt(sealed, n - 1));
        var taken := before + [Take(c, now)];
        if row.pinned then taken + [Pin(CapturedId(RunFrom(s, before), c), true)] else taken
  }

  lemma RunFromAppend(s: Store, ops: seq<Op>, op: Op)
    ensures RunFrom(s, ops + [op]) == Apply(RunFrom(s, ops), op)
    ensures FreshFrom(s, ops + [op]) <==> FreshFrom(s, ops) && FreshCipher(RunFrom(s, ops), op)
  {
    assert (ops + [op])[..|ops|] == ops;
  }

  lemma ImportRowIsARun(s: Store, ops: seq<Op>, p: Progress, row: BackupRow, cipher: string, now: int)
    requires RunFrom(s, ops) == p.store && !row.kind.Image?
    ensures var c := CaptureOf(row, cipher);
            var taken := ops + [Take(c, now)];
            RunFrom(s, if row.pinned then taken + [Pin(CapturedId(p.store, c), true)] else taken) ==
            ImportRow(p, row, cipher, now).store
  {
    var c := CaptureOf(row, cipher);
    RunFromAppend(s, ops, Take(c, now));
    RunFromAppend(s, ops + [Take(c, now)], Pin(CapturedId(p.store, c), true));
  }

  /** A transactional import ends where the run of its operations ends. */
  lemma {:induction false} ImportIsARun(s: Store, rows: seq<BackupRow>, sealed: Sealed, now: int, n: nat)
    requires n <= |rows| && ImportUpTo(s, rows, sealed, now, n).Ok?
    ensures RunFrom(s, ImportOps(s, rows, sealed, now, n)) == ImportUpTo(s, rows, sealed, now, n).value.store
  {
    if n > 0 {
      ImportIsARun(s, rows, sealed, now, n - 1);
      if !rows[n - 1].kind.Image? {
        ImportRowIsARun(s, ImportOps(s, rows, sealed, now, n - 1), ImportUpTo(s, rows, sealed, now, n - 1).value,
                        rows[n - 1], CipherAt(sealed, n - 1), now);
      }
    }
  }

  lemma TakeAndPinAreFresh(s: Store, ops: seq<Op>, c: Capture, now: int, id: nat)
    requires FreshFrom(s, ops) && FreshCipher(RunFrom(s, ops), Take(c, now))
    ensures FreshFrom(s, ops + [Take(c, now)]) && FreshFrom(s, ops + [Take(c, now)] + [Pin(id, true)])
  {
    RunFromAppend(s, ops, Take(c, now));
    RunFromAppend(s, ops + [Take(c, now)], Pin(id, true));
  }

  lemma FreshImportRow(s: Store, rows: seq<BackupRow>, sealed: Sealed, now: int, n: nat)
    requires n < |rows| && ImportUpTo(s, rows, sealed, now, n).Ok? && FreshImport(s, rows, sealed, now)
    requires !rows[n].kind.Image?
    ensures FreshCipher(ImportUpTo(s, rows, sealed, now, n).value.store,
                        Take(CaptureOf(rows[n], CipherAt(sealed, n)), now))
  {
  }

  lemma ImportOpsNext(s: Store, rows: seq<BackupRow>, sealed: Sealed, now: int, n: nat)
    requires n < |rows| && ImportUpTo(s, rows, sealed, now, n).Ok? && FreshImport(s, rows, sealed, now)
    requires RunFrom(s, ImportOps(s, rows, sealed, now, n)) == ImportUpTo(s, rows, sealed, now, n).value.store
    requires FreshFrom(s, ImportOps(s, rows, sealed, now, n))
    ensures FreshFrom(s, ImportOps(s, rows, sealed, now, n + 1))
  {
    if !rows[n].kind.Image? {
      var before, c := ImportOps(s, rows, sealed, now, n), CaptureOf(rows[n], CipherAt(sealed, n));
      FreshImportRow(s, rows, sealed, now, n);
      TakeAndPinAreFresh(s, before, c, now, CapturedId(RunFrom(s, before), c));
    }
  }

  lemma ImportOkBefore(s: Store, rows: seq<BackupRow>, sealed: Sealed, now: int, n: nat)
    requires n < |rows| && ImportUpTo(s, rows, sealed, now, n + 1).Ok?
    ensures ImportUpTo(s, rows, sealed, now, n).Ok?
  {
  }

  /** And that run is fresh when the import's ciphertexts are. */
  lemma {:induction false} ImportRunIsFresh(s: Store, rows: seq<BackupRow>, sealed: Sealed, now: int, n: nat)
    requires n <= |rows| && ImportUpTo(s, rows, sealed, now, n).Ok? && FreshImport(s, rows, sealed, now)
    ensures FreshFrom(s, ImportOps(s, rows, sealed, now, n))
  {
    if n == 0 {
      assert ImportOps(s, rows, sealed, now, n) == [];
    } else {
      ImportOkBefore(s, rows, sealed, now, n - 1);
      ImportRunIsFresh(s, rows, sealed, now, n - 1);
      ImportIsARun(s, rows, sealed, now, n - 1);
      ImportOpsNext(s, rows, sealed, now, n - 1);
    }
  }

  /** So an import changes the payload of no row that was there. */
  lemma ImportKeepsPayloads(s: Store, rows: seq<BackupRow>, sealed: Sealed, now: int, i: nat, j: nat)
    requires Inv(s) && FreshImport(s, rows, sealed, now) && Import(s, rows, sealed, now).Ok? && i < |s.rows|
    requires var t := Import(s, rows, sealed, now).value.store; j < |t.rows| && t.rows[j].id == s.rows[i].id
    ensures GetPayload(Import(s, rows, sealed, now).value.store, s.rows[i].id) == GetPayload(s, s.rows[i].id)
  {
    ImportIsARun(s, rows, sealed, now, |rows|);
    ImportRunIsFresh(s, rows, sealed, now, |rows|);
    PayloadNeverChanges(s, ImportOps(s, rows, sealed, now, |rows|), i, j);
  }

  // ---------- the restored table is fresh ----------

  lemma RestoringIsFresh(s: Store, opens: Opens, sealed: Sealed, now: int)
    requires Inv(s) && SealsSound(Sources(s, true), opens, sealed) && SealsFresh(Sources(s, true), sealed)
    ensures FreshImport(Cleared(s), BackupOfAll(Sources(s, true), opens), sealed, now)
  {
    var b := BackupOfAll(Sources(s, true), opens);
    forall n | 0 <= n < |b| && b[n].secret && ImportUpTo(Cleared(s), b, sealed, now, n).Ok?
      ensures !HasDigest(ImportUpTo(Cleared(s), b, sealed, now, n).value.store.rows,
                         Sha256(Encode(CipherAt(sealed, n))))
    {
      RestoringSecretIsFresh(s, opens, sealed, now, n);
    }
  }

  lemma RestoringSecretIsFresh(s: Store, opens: Opens, sealed: Sealed, now: int, n: nat)
    requires Inv(s) && SealsSound(Sources(s, true), opens, sealed) && SealsFresh(Sources(s, true), sealed)
    requires n < |Sources(s, true)| && Sources(s, true)[n].secret
    ensures var r := ImportUpTo(Cleared(s), BackupOfAll(Sources(s, true), opens), sealed, now, n);
            r.Ok? && !HasDigest(r.value.store.rows, Sha256(Encode(CipherAt(sealed, n))))
  {
    var b := BackupOfAll(Sources(s, true), opens);
    ClearedIsEmpty(s);
    RebuildsUpTo(s, Cleared(s), opens, sealed, now, n);
    NextIsNew(s, opens, sealed, Cleared(s).nextId, now, ImportUpTo(Cleared(s), b, sealed, now, n).value, n);
  }

  // ---------- the round trip ----------

  /** The restored row q against the original r: what the user had, except the history of its captures, which
    * starts anew, and the formatting of a secret. */
  predicate Restores(r: Row, q: Row, now: int) {
    && q.kind == r.kind && q.secret == r.secret && q.sourceApp == r.sourceApp && q.pinned == r.pinned
    && q.origin.Local?
    && q.group == (if r.kind.Text? then r.group else None)
    && q.html == (if r.kind.Text? && !r.secret then r.html else None)
    && q.createdAt == now && q.usage == 0 && q.suggested.None? && !q.dismissed
  }

  /** The content as a reader gets it: the same text or file list, or a ciphertext of the same plaintext. */
  ghost predicate SameReading(before: Result<Option<Payload>, ()>, after: Result<Option<Payload>, ()>, opens: Opens) {
    && before.Ok? && before.value.Some? && after.Ok? && after.value.Some?
    && (if before.value.value.SecretPayload?
        then after.value.value.SecretPayload?
             && before.value.value.cipher in opens && after.value.value.cipher in opens
             && opens[after.value.value.cipher] == opens[before.value.value.cipher]
        else after == before)
  }

  lemma RemadeRestores(r: Row, opens: Opens, cipher: string, id: nat, now: int)
    requires !r.kind.Image? && (r.secret ==> r.kind.Text?)
    ensures Restores(r, Remade(BackupOf(r, opens), cipher, id, now), now)
  {
  }

  lemma RemadeMeans(r: Row, opens: Opens, cipher: string, id: nat, now: int)
    requires !r.kind.Image? && (r.secret ==> r.kind.Text?) && Encode(r.content) == r.digest.of
    ensures var q := Remade(BackupOf(r, opens), cipher, id, now);
            !q.kind.Image? && Meant(q) == if r.secret then SecretPayload(cipher) else Meant(r)
  {
    DecodeEncode(r.content);
    NewRowMeans(CaptureOf(BackupOf(r, opens), cipher), id, now);
  }

  lemma RestoredReads(s: Store, t: Store, opens: Opens, sealed: Sealed, base: nat, now: int, i: nat)
    requires Inv(s) && Inv(t) && i < |Sources(s, true)| && i < |t.rows|
    requires SealsSound(Sources(s, true), opens, sealed)
    requires t.rows[i] == Remade(BackupOf(Sources(s, true)[i], opens), CipherAt(sealed, i), base + i, now)
    ensures SameReading(GetPayload(s, Sources(s, true)[i].id), GetPayload(t, t.rows[i].id), opens)
  {
    var r := Sources(s, true)[i];
    SourceRow(s, i);
    var k :| 0 <= k < |s.rows| && s.rows[k] == r;
    ReadBack(s, k);
    ReadBack(t, i);
    RemadeMeans(r, opens, CipherAt(sealed, i), base + i, now);
    DecodeEncode(r.content);
  }

  /** Export with secrets, clear everything, import: every row without a blob is back, in order, and
    * nothing else is. */
  lemma RoundTrip(s: Store, opens: Opens, sealed: Sealed, now: int)
    requires Inv(s) && SealsSound(Sources(s, true), opens, sealed) && SealsFresh(Sources(s, true), sealed)
    ensures AllOpen(Sources(s, true), opens)
    ensures var c := Sources(s, true);
            var r := Import(Cleared(s), BackupOfAll(c, opens), sealed, now);
            && r.Ok? && Inv(r.value.store)
            && |r.value.store.rows| == |c| == r.value.report.imported
            && r.value.report.duplicates == 0 && r.value.report.imagesSkipped == 0
  {
    var b := BackupOfAll(Sources(s, true), opens);
    ClearedIsEmpty(s);
    RebuildsUpTo(s, Cleared(s), opens, sealed, now, |b|);
    RestoringIsFresh(s, opens, sealed, now);
    DroppedKeeps(s, ClearIds(s.rows, false));
    ImportKeeps(Cleared(s), b, sealed, now);
  }

  lemma RestoredRow(s: Store, opens: Opens, sealed: Sealed, now: int, i: nat)
    requires Inv(s) && SealsSound(Sources(s, true), opens, sealed) && SealsFresh(Sources(s, true), sealed)
    requires i < |Sources(s, true)|
    ensures var c := Sources(s, true);
            var r := Import(Cleared(s), BackupOfAll(c, opens), sealed, now);
            && r.Ok? && Inv(r.value.store) && i < |r.value.store.rows|
            && r.value.store.rows[i] ==
               Remade(BackupOf(c[i], opens), CipherAt(sealed, i), Cleared(s).nextId + i, now)
  {
    var b := BackupOfAll(Sources(s, true), opens);
    RoundTrip(s, opens, sealed, now);
    ClearedIsEmpty(s);
    RebuildsUpTo(s, Cleared(s), opens, sealed, now, |b|);
    assert b[i] == BackupOf(Sources(s, true)[i], opens);
  }

  /** ... and each reads as before, with its kind, source app and pin, and a text row with its group. */
  lemma RoundTripRow(s: Store, opens: Opens, sealed: Sealed, now: int, i: nat)
    requires Inv(s) && SealsSound(Sources(s, true), opens, sealed) && SealsFresh(Sources(s, true), sealed)
    requires i < |Sources(s, true)|
    ensures var c := Sources(s, true);
            var r := Import(Cleared(s), BackupOfAll(c, opens), sealed, now);
            && r.Ok? && i < |r.value.store.rows|
            && Restores(c[i], r.value.store.rows[i], now)
            && SameReading(GetPayload(s, c[i].id), GetPayload(r.value.store, r.value.store.rows[i].id), opens)
  {
    var c := Sources(s, true);
    RestoredRow(s, opens, sealed, now, i);
    SourceRow(s, i);
    RemadeRestores(c[i], opens, CipherAt(sealed, i), Cleared(s).nextId + i, now);
    var t := Import(Cleared(s), BackupOfAll(c, opens), sealed, now).value.store;
    RestoredReads(s, t, opens, sealed, Cleared(s).nextId, now, i);
  }

  // ---------- pins ----------

  lemma OthersStay(s: Store, c: Capture, now: int)
    ensures forall r :: r in Captured(s, c, now).rows && r.digest != KeyOf(c) ==> r in s.rows
  {
    var t := Captured(s, c, now);
    forall r | r in t.rows && r.digest != KeyOf(c) ensures r in s.rows {
      var k :| 0 <= k < |t.rows| && t.rows[k] == r;
      assert k < |s.rows| && t.rows[k] == s.rows[k];
    }
  }

  lemma PinningPinsTheNamed(u: Store, id: nat, d: Digest)
    requires Inv(u) && Names(u.rows, id, d)
    ensures forall r :: r in Pinned(u, id, true).rows && r.digest == d ==> r.pinned
    ensures forall r :: r in Pinned(u, id, true).rows && r.digest != d ==> r in u.rows
  {
    var i :| 0 <= i < |u.rows| && u.rows[i].id == id && u.rows[i].digest == d;
    var t := Pinned(u, id, true);
    PinExact(u, i, true);
    NamedRowIsOnly(u.rows, id, d);
    forall r | r in t.rows ensures (r.digest == d ==> r.pinned) && (r.digest != d ==> r in u.rows) {
      var k :| 0 <= k < |t.rows| && t.rows[k] == r;
      assert u.rows[k] in u.rows;
    }
  }

  /** A pinned row of a backup leaves the row with its content pinned, whether it was there or is new,
    * and no row of another content changes. */
  lemma ImportPinsItsRow(p: Progress, row: BackupRow, cipher: string, now: int)
    requires Inv(p.store) && !row.kind.Image? && (row.secret ==> !HasDigest(p.store.rows, Sha256(Encode(cipher))))
    requires row.pinned
    ensures var t, d := ImportRow(p, row, cipher, now).store, KeyOf(CaptureOf(row, cipher));
            && (forall r :: r in t.rows && r.digest == d ==> r.pinned)
            && (forall r :: r in t.rows && r.digest != d ==> r in p.store.rows)
  {
    var c := CaptureOf(row, cipher);
    CapturedKeeps(p.store, c, now);
    AnswerNamesTheCapture(p.store, c, now);
    PinningPinsTheNamed(Captured(p.store, c, now), CapturedId(p.store, c), KeyOf(c));
    OthersStay(p.store, c, now);
  }
}
