/** Backup: what an export takes out of the store, what an import puts back, and that the two fit
  * together. Ciphertexts are texts; `opens` tells which of them decrypt and to what, and
  * `sealed` which ciphertext the crypto port answers for which backup row, if any.
  */
module Backup {

  import opened Wrappers
  import opened Utf8
  import opened ClipModel
  import opened Retention

  const EXPORT_SCHEMA: nat := 1
  const MIN_PASSPHRASE: nat := 8

  /** The base64 slot of a secret row. */
  datatype Coded = Coded(bytes: Bytes) | Malformed

  datatype BackupRow = BackupRow(
    kind: Kind, text: string, html: Option<string>, group: Option<string>, secret: bool,
    secretB64: Option<Coded>, sourceApp: Option<string>, createdAt: int, pinned: bool)

  datatype ExportMeta = ExportMeta(entries: nat, secrets: nat, imagesSkipped: nat)

  datatype ImportReport = ImportReport(imported: nat, duplicates: nat, secrets: nat, imagesSkipped: nat)

  datatype Error =
    | PassphraseTooShort | UndecryptableRow
    | WrongPassphrase | BadFormat | BadSecretRow | ProtectFailed

  type Opens = map<string, Bytes>
  type Sealed = map<nat, string>

  // ---------- export ----------

  predicate Exportable(r: Row) {
    r.blob.None? && !r.kind.Image?
  }

  function Chosen(rows: seq<Row>, includeSecrets: bool): seq<Row> {
    if rows == [] then []
    else
      var r := rows[|rows| - 1];
      Chosen(rows[..|rows| - 1], includeSecrets) +
      if Exportable(r) && (r.secret ==> includeSecrets) then [r] else []
  }

  function SkippedCount(rows: seq<Row>): nat {
    if rows == [] then 0
    else SkippedCount(rows[..|rows| - 1]) + if Exportable(rows[|rows| - 1]) then 0 else 1
  }

  function SecretCount(rows: seq<Row>): nat {
    if rows == [] then 0
    else SecretCount(rows[..|rows| - 1]) + if rows[|rows| - 1].secret then 1 else 0
  }

  ghost predicate AllOpen(rows: seq<Row>, opens: Opens) {
    forall i :: 0 <= i < |rows| ==> !rows[i].secret || rows[i].content in opens
  }

  function BackupOf(r: Row, opens: Opens): BackupRow {
    BackupRow(r.kind, if r.secret then "" else r.content, r.html, r.group, r.secret,
              if !r.secret then None else if r.content in opens then Some(Coded(opens[r.content])) else Some(Malformed),
              r.sourceApp, r.createdAt, r.pinned)
  }

  function BackupOfAll(rows: seq<Row>, opens: Opens): (out: seq<BackupRow>)
    ensures |out| == |rows|
    ensures forall i {:trigger out[i]} :: 0 <= i < |rows| ==> out[i] == BackupOf(rows[i], opens)
  {
    seq(|rows|, i requires 0 <= i < |rows| => BackupOf(rows[i], opens))
  }

  /** The rows an export looks at, newest first, and of those the ones it writes. */
  function Sources(s: Store, includeSecrets: bool): seq<Row> {
    Chosen(NewestFirst(s.rows), includeSecrets)
  }

  lemma ChosenStep(q: seq<Row>, includeSecrets: bool, i: nat)
    requires i < |q|
    ensures Chosen(q[..i + 1], includeSecrets) ==
            Chosen(q[..i], includeSecrets) + if Exportable(q[i]) && (q[i].secret ==> includeSecrets) then [q[i]] else []
    ensures SkippedCount(q[..i + 1]) == SkippedCount(q[..i]) + if Exportable(q[i]) then 0 else 1
  {
    assert q[..i + 1][..i] == q[..i];
  }

  lemma BackupStep(c: seq<Row>, r: Row, opens: Opens)
    ensures BackupOfAll(c + [r], opens) == BackupOfAll(c, opens) + [BackupOf(r, opens)]
    ensures SecretCount(c + [r]) == SecretCount(c) + if r.secret then 1 else 0
  {
    assert (c + [r])[..|c|] == c;
  }

  /** What an export has made of the rows looked at so far. */
  ghost predicate ExportedSoFar(rows: seq<Row>, includeSecrets: bool, opens: Opens,
                                out: seq<BackupRow>, secrets: nat, skipped: nat)
  {
    var c := Chosen(rows, includeSecrets);
    AllOpen(c, opens) && out == BackupOfAll(c, opens) && secrets == SecretCount(c) && skipped == SkippedCount(rows)
  }

  lemma PassedOver(q: seq<Row>, includeSecrets: bool, opens: Opens, i: nat,
                   out: seq<BackupRow>, secrets: nat, skipped: nat)
    requires i < |q| && ExportedSoFar(q[..i], includeSecrets, opens, out, secrets, skipped)
    requires !Exportable(q[i]) || (q[i].secret && !includeSecrets)
    ensures ExportedSoFar(q[..i + 1], includeSecrets, opens, out, secrets,
                          skipped + if Exportable(q[i]) then 0 else 1)
  {
    ChosenStep(q, includeSecrets, i);
    assert Chosen(q[..i], includeSecrets) + [] == Chosen(q[..i], includeSecrets);
  }

  lemma OpenNext(c: seq<Row>, r: Row, opens: Opens)
    requires AllOpen(c, opens) && (r.secret ==> r.content in opens)
    ensures AllOpen(c + [r], opens)
  {
  }

  lemma ChosenNext(q: seq<Row>, includeSecrets: bool, i: nat)
    requires i < |q| && Exportable(q[i]) && (q[i].secret ==> includeSecrets)
    ensures Chosen(q[..i + 1], includeSecrets) == Chosen(q[..i], includeSecrets) + [q[i]]
    ensures SkippedCount(q[..i + 1]) == SkippedCount(q[..i])
  {
    ChosenStep(q, includeSecrets, i);
  }

  lemma WrittenOut(q: seq<Row>, includeSecrets: bool, opens: Opens, i: nat,
                   out: seq<BackupRow>, secrets: nat, skipped: nat)
    requires i < |q| && ExportedSoFar(q[..i], includeSecrets, opens, out, secrets, skipped)
    requires Exportable(q[i]) && (q[i].secret ==> includeSecrets && q[i].content in opens)
    ensures ExportedSoFar(q[..i + 1], includeSecrets, opens, out + [BackupOf(q[i], opens)],
                          secrets + if q[i].secret then 1 else 0, skipped)
  {
    var c := Chosen(q[..i], includeSecrets);
    ChosenNext(q, includeSecrets, i);
    OpenNext(c, q[i], opens);
    BackupStep(c, q[i], opens);
  }

  lemma ClosedHere(q: seq<Row>, includeSecrets: bool, opens: Opens, i: nat)
    requires i < |q| && Exportable(q[i]) && q[i].secret && includeSecrets && q[i].content !in opens
    ensures !AllOpen(Chosen(q, includeSecrets), opens)
  {
    ChosenStep(q, includeSecrets, i);
    ClosedRow(q, includeSecrets, i + 1, |Chosen(q[..i], includeSecrets)|, opens);
  }

  method ExportRows(rows: seq<Row>, opens: Opens, includeSecrets: bool)
    returns (r: Result<(seq<BackupRow>, ExportMeta), Error>)
    ensures r.Ok? <==> AllOpen(Chosen(NewestFirst(rows), includeSecrets), opens)
    ensures r.Err? ==> r.error == UndecryptableRow
    ensures r.Ok? ==>
              var q := NewestFirst(rows);
              var c := Chosen(q, includeSecrets);
              r.value == (BackupOfAll(c, opens), ExportMeta(|c|, SecretCount(c), SkippedCount(q)))
  {
    var q := NewestFirst(rows);
    var out: seq<BackupRow>, secrets, skipped := [], 0, 0;
    for i := 0 to |q|
      invariant ExportedSoFar(q[..i], includeSecrets, opens, out, secrets, skipped)
    {
      var src := q[i];
      if src.blob.Some? || src.kind.Image? {
        PassedOver(q, includeSecrets, opens, i, out, secrets, skipped);
        skipped := skipped + 1;
      } else if src.secret && !includeSecrets {
        PassedOver(q, includeSecrets, opens, i, out, secrets, skipped);
      } else {
        var text, secretB64 := src.content, None;
        if src.secret && src.content !in opens {
          ClosedHere(q, includeSecrets, opens, i);
          return Err(UndecryptableRow);
        }
        WrittenOut(q, includeSecrets, opens, i, out, secrets, skipped);
        if src.secret {
          text, secretB64 := "", Some(Coded(opens[src.content]));
          secrets := secrets + 1;
        }
        out := out + [BackupRow(src.kind, text, src.html, src.group, src.secret, secretB64, src.sourceApp,
                                src.createdAt, src.pinned)];
      }
    }
    assert q[..|q|] == q;
    return Ok((out, ExportMeta(|out|, secrets, skipped)));
  }

  /** One undecryptable row on the way is enough to abort. */
  lemma ClosedRow(q: seq<Row>, includeSecrets: bool, n: nat, k: nat, opens: Opens)
    requires n <= |q| && k < |Chosen(q[..n], includeSecrets)|
    requires Chosen(q[..n], includeSecrets)[k].secret && Chosen(q[..n], includeSecrets)[k].content !in opens
    ensures !AllOpen(Chosen(q, includeSecrets), opens)
  {
    ChosenPrefix(q, includeSecrets, n);
  }

  lemma {:induction false} ChosenPrefix(rows: seq<Row>, includeSecrets: bool, k: nat)
    requires k <= |rows|
    ensures Chosen(rows[..k], includeSecrets) <= Chosen(rows, includeSecrets)
  {
    if k == |rows| {
      assert rows[..k] == rows;
    } else {
      assert rows[..|rows| - 1][..k] == rows[..k];
      ChosenPrefix(rows[..|rows| - 1], includeSecrets, k);
    }
  }

  /** The exportable secrets, which an export without secrets leaves out. */
  function HiddenCount(rows: seq<Row>): nat {
    if rows == [] then 0
    else
      var r := rows[|rows| - 1];
      HiddenCount(rows[..|rows| - 1]) + if Exportable(r) && r.secret then 1 else 0
  }

  /** Every row is written, skipped for its blob, or a secret left out on request; and the secrets of an export with
    * secrets are all the exportable ones. */
  lemma {:induction false} ExportBalances(rows: seq<Row>, includeSecrets: bool)
    ensures var c := Chosen(rows, includeSecrets);
            && |c| + SkippedCount(rows) + (if includeSecrets then 0 else HiddenCount(rows)) == |rows|
            && SecretCount(c) == if includeSecrets then HiddenCount(rows) else 0
  {
    if rows != [] {
      var init, last := rows[..|rows| - 1], rows[|rows| - 1];
      var c := Chosen(init, includeSecrets);
      ExportBalances(init, includeSecrets);
      assert (c + [last])[..|c|] == c;
      assert c + [] == c;
    }
  }

  /** An export without secrets writes none, and every export writes newest first. */
  lemma {:induction false} ChosenAreOrdered(rows: seq<Row>, includeSecrets: bool)
    requires NewestOrder(rows)
    ensures NewestOrder(Chosen(rows, includeSecrets))
    ensures forall r :: r in Chosen(rows, includeSecrets) ==> r in rows && (r.secret ==> includeSecrets)
  {
    if rows != [] {
      var n := |rows| - 1;
      var c := Chosen(rows[..n], includeSecrets);
      ChosenAreOrdered(rows[..n], includeSecrets);
      forall k | 0 <= k < |c| ensures c[k].createdAt >= rows[n].createdAt {
        assert c[k] in rows[..n];
      }
      assert rows == rows[..n] + [rows[n]];
    }
  }

  /** What an export writes, in its order. */
  lemma SourcesAreOrdered(s: Store, includeSecrets: bool)
    ensures NewestOrder(Sources(s, includeSecrets))
    ensures forall r :: r in Sources(s, includeSecrets) ==> r in s.rows && (r.secret ==> includeSecrets)
  {
    NewestFirstOrder(s.rows);
    NewestFirstMembers(s.rows);
    ChosenAreOrdered(NewestFirst(s.rows), includeSecrets);
  }

  // ---------- import ----------

  function CaptureOf(row: BackupRow, cipher: string): Capture {
    if row.secret then SecretCapture(cipher, row.group, None, row.sourceApp, Local)
    else if row.kind.Files? then FilesCapture(row.text, row.sourceApp, Local)
    else TextCapture(row.text, row.group, None, row.sourceApp, Local, row.html)
  }

  /** A row that makes the import fail: a secret without a readable plaintext, or one the crypto
    * port does not protect. */
  function RowError(row: BackupRow, cipher: Option<string>): Option<Error> {
    if row.kind.Image? || !row.secret then None
    else if row.secretB64.None? || row.secretB64.value.Malformed? then Some(BadSecretRow)
    else if cipher.None? then Some(ProtectFailed)
    else None
  }

  function CipherFor(sealed: Sealed, i: nat): Option<string> {
    if i in sealed then Some(sealed[i]) else None
  }

  datatype Progress = Progress(store: Store, report: ImportReport)

  /** One row of an import that does not fail. */
  function ImportRow(p: Progress, row: BackupRow, cipher: string, now: int): Progress {
    if row.kind.Image? then p.(report := p.report.(imagesSkipped := p.report.imagesSkipped + 1))
    else
      var c := CaptureOf(row, cipher);
      var isNew := row.secret || !HasDigest(p.store.rows, KeyOf(c));
      var t := Captured(p.store, c, now);
      Progress(
        if row.pinned then Pinned(t, CapturedId(p.store, c), true) else t,
        ImportReport(p.report.imported + (if isNew then 1 else 0), p.report.duplicates + (if isNew then 0 else 1),
                     p.report.secrets + (if row.secret then 1 else 0), p.report.imagesSkipped))
  }

  function ImportUpTo(s: Store, rows: seq<BackupRow>, sealed: Sealed, now: int, n: nat): Result<Progress, Error>
    requires n <= |rows|
  {
    if n == 0 then Ok(Progress(s, ImportReport(0, 0, 0, 0))) else
    match ImportUpTo(s, rows, sealed, now, n - 1)
    case Err(e) => Err(e)
    case Ok(p) =>
      match RowError(rows[n - 1], CipherFor(sealed, n - 1))
      case Some(e) => Err(e)
      case None => Ok(ImportRow(p, rows[n - 1], if n - 1 in sealed then sealed[n - 1] else "", now))
  }

  function Import(s: Store, rows: seq<BackupRow>, sealed: Sealed, now: int): Result<Progress, Error> {
    ImportUpTo(s, rows, sealed, now, |rows|)
  }

  // ---------- when it fails, and what it counts ----------

  /** A secret whose plaintext is missing or cannot be read, or that has no new ciphertext. */
  predicate Unrestorable(row: BackupRow, protects: bool) {
    !row.kind.Image? && row.secret && (row.secretB64.None? || row.secretB64.value.Malformed? || !protects)
  }

  lemma {:induction false} ImportFailsIffUpTo(s: Store, rows: seq<BackupRow>, sealed: Sealed, now: int, n: nat)
    requires n <= |rows|
    ensures ImportUpTo(s, rows, sealed, now, n).Err? <==>
            exists i :: 0 <= i < n && Unrestorable(rows[i], i in sealed)
  {
    if n > 0 { ImportFailsIffUpTo(s, rows, sealed, now, n - 1); }
  }

  /** An import fails exactly when some row cannot be restored, whatever the store holds. */
  lemma ImportFailsIff(s: Store, rows: seq<BackupRow>, sealed: Sealed, now: int)
    ensures Import(s, rows, sealed, now).Err? <==>
            exists i :: 0 <= i < |rows| && Unrestorable(rows[i], i in sealed)
  {
    ImportFailsIffUpTo(s, rows, sealed, now, |rows|);
  }

  /** The first such row decides the error: an unreadable plaintext before a missing ciphertext. */
  lemma {:induction false} ImportErrorIs(s: Store, rows: seq<BackupRow>, sealed: Sealed, now: int, n: nat, k: nat)
    requires k < n <= |rows| && Unrestorable(rows[k], k in sealed)
    requires forall i :: 0 <= i < k ==> !Unrestorable(rows[i], i in sealed)
    ensures ImportUpTo(s, rows, sealed, now, n) ==
            Err(if rows[k].secretB64.None? || rows[k].secretB64.value.Malformed? then BadSecretRow else ProtectFailed)
  {
    if k < n - 1 {
      ImportErrorIs(s, rows, sealed, now, n - 1, k);
    } else {
      ImportFailsIffUpTo(s, rows, sealed, now, k);
    }
  }

  function CountSecrets(rows: seq<BackupRow>, n: nat): nat
    requires n <= |rows|
  {
    if n == 0 then 0
    else CountSecrets(rows, n - 1) + if rows[n - 1].secret && !rows[n - 1].kind.Image? then 1 else 0
  }

  function CountPlain(rows: seq<BackupRow>, n: nat): nat
    requires n <= |rows|
  {
    if n == 0 then 0
    else CountPlain(rows, n - 1) + if !rows[n - 1].secret && !rows[n - 1].kind.Image? then 1 else 0
  }

  lemma {:induction false} ImportCountsUpTo(s: Store, rows: seq<BackupRow>, sealed: Sealed, now: int, n: nat)
    requires n <= |rows| && ImportUpTo(s, rows, sealed, now, n).Ok?
    ensures var p := ImportUpTo(s, rows, sealed, now, n).value;
            && p.report.imported + p.report.duplicates + p.report.imagesSkipped == n
            && p.report.secrets == CountSecrets(rows, n)
            && |p.store.rows| == |s.rows| + p.report.imported
            && p.report.imported + p.report.duplicates == CountSecrets(rows, n) + CountPlain(rows, n)
  {
    if n > 0 { ImportCountsUpTo(s, rows, sealed, now, n - 1); }
  }

  /** Every row of the backup is counted once, and the table grows by the imported ones. */
  lemma ImportCounts(s: Store, rows: seq<BackupRow>, sealed: Sealed, now: int)
    requires Import(s, rows, sealed, now).Ok?
    ensures var p := Import(s, rows, sealed, now).value;
            && p.report.imported + p.report.duplicates + p.report.imagesSkipped == |rows|
            && |p.store.rows| == |s.rows| + p.report.imported
  {
    ImportCountsUpTo(s, rows, sealed, now, |rows|);
  }

  // ---------- importing twice ----------

  ghost predicate Covers(s: Store, t: Store) {
    forall d :: HasDigest(s.rows, d) ==> HasDigest(t.rows, d)
  }

  lemma ImportRowCovers(p: Progress, row: BackupRow, cipher: string, now: int)
    ensures Covers(p.store, ImportRow(p, row, cipher, now).store)
    ensures !row.kind.Image? ==> HasDigest(ImportRow(p, row, cipher, now).store.rows, KeyOf(CaptureOf(row, cipher)))
  {
    if !row.kind.Image? {
      var c := CaptureOf(row, cipher);
      var t := Captured(p.store, c, now);
      var u := ImportRow(p, row, cipher, now).store;
      assert forall i :: 0 <= i < |p.store.rows| ==> t.rows[i].digest == p.store.rows[i].digest;
      assert |u.rows| == |t.rows| && forall i :: 0 <= i < |t.rows| ==> u.rows[i].digest == t.rows[i].digest;
      if Hits(p.store, c) {
        assert t.rows[IndexOfDigest(p.store.rows, KeyOf(c))].digest == KeyOf(c);
      } else {
        assert t.rows[|p.store.rows|].digest == KeyOf(c);
      }
    }
  }

  /** The first n plain rows of the backup have their content in the table. */
  ghost predicate PlainCovered(t: Store, rows: seq<BackupRow>, n: nat)
    requires n <= |rows|
  {
    forall i :: 0 <= i < n && !rows[i].secret && !rows[i].kind.Image? ==>
      HasDigest(t.rows, KeyOf(CaptureOf(rows[i], "")))
  }

  lemma CoversNext(s: Store, t: Store, u: Store, rows: seq<BackupRow>, n: nat)
    requires n < |rows| && Covers(s, t) && Covers(t, u) && PlainCovered(t, rows, n)
    requires !rows[n].secret && !rows[n].kind.Image? ==> HasDigest(u.rows, KeyOf(CaptureOf(rows[n], "")))
    ensures Covers(s, u) && PlainCovered(u, rows, n + 1)
  {
  }

  lemma PlainIgnoresCipher(row: BackupRow, cipher: string)
    requires !row.secret
    ensures CaptureOf(row, cipher) == CaptureOf(row, "")
  {
  }

  /** After an import every plain row of the backup has its content in the table. */
  lemma {:induction false} ImportCovers(s: Store, rows: seq<BackupRow>, sealed: Sealed, now: int, n: nat)
    requires n <= |rows| && ImportUpTo(s, rows, sealed, now, n).Ok?
    ensures var t := ImportUpTo(s, rows, sealed, now, n).value.store; Covers(s, t) && PlainCovered(t, rows, n)
  {
    if n > 0 {
      ImportCovers(s, rows, sealed, now, n - 1);
      var p := ImportUpTo(s, rows, sealed, now, n - 1).value;
      var cipher := if n - 1 in sealed then sealed[n - 1] else "";
      ImportRowCovers(p, rows[n - 1], cipher, now);
      if !rows[n - 1].secret { PlainIgnoresCipher(rows[n - 1], cipher); }
      CoversNext(s, p.store, ImportUpTo(s, rows, sealed, now, n).value.store, rows, n - 1);
    }
  }

  lemma {:induction false} CoveredImportAddsSecrets(s: Store, rows: seq<BackupRow>, sealed: Sealed, now: int, n: nat)
    requires n <= |rows| && ImportUpTo(s, rows, sealed, now, n).Ok?
    requires PlainCovered(s, rows, |rows|)
    ensures ImportUpTo(s, rows, sealed, now, n).value.report.imported == CountSecrets(rows, n)
  {
    if n > 0 {
      CoveredImportAddsSecrets(s, rows, sealed, now, n - 1);
      ImportCovers(s, rows, sealed, now, n - 1);
    }
  }

  /** Importing the same backup again adds its secret rows and nothing else. */
  lemma SecondImportAddsSecretsOnly(s: Store, rows: seq<BackupRow>, first: Sealed, second: Sealed, now: int, later: int)
    requires Import(s, rows, first, now).Ok?
    requires Import(Import(s, rows, first, now).value.store, rows, second, later).Ok?
    ensures var t := Import(s, rows, first, now).value.store;
            var p := Import(t, rows, second, later).value;
            && p.report.imported == CountSecrets(rows, |rows|)
            && p.report.duplicates == CountPlain(rows, |rows|)
            && |p.store.rows| == |t.rows| + CountSecrets(rows, |rows|)
  {
    var t := Import(s, rows, first, now).value.store;
    ImportCovers(s, rows, first, now, |rows|);
    CoveredImportAddsSecrets(t, rows, second, later, |rows|);
    ImportCountsUpTo(t, rows, second, later, |rows|);
  }
}
