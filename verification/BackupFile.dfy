/** The backup file around the rows: the passphrase gate, the envelope, and the checks an import
  * makes before it touches the store. The authenticated encryption is a box that opens under the
  * passphrase it was closed with and under no other, unless it was tampered with.
  */
module BackupFile {

  import opened Wrappers
  import opened ClipModel
  import opened Retention
  import opened ClipInvariant
  import opened Backup
  import opened BackupRoundTrip
  import opened ClipStore

  const KDF := "argon2id"
  const NONCE_LEN: nat := 12

  /** The sealed payload; None when what is inside is not a list of rows. */
  datatype Box = Box(passphrase: string, rows: Option<seq<BackupRow>>) | Tampered

  /** `readable`: salt, nonce and ciphertext are well-formed base64. */
  datatype Envelope = Envelope(schema: nat, algo: string, readable: bool, nonceLen: nat, box: Box, meta: ExportMeta)

  /** The file an export of these rows writes. */
  function FileOf(rows: seq<Row>, opens: Opens, passphrase: string, includeSecrets: bool): Envelope {
    var q := NewestFirst(rows);
    var c := Chosen(q, includeSecrets);
    Envelope(EXPORT_SCHEMA, KDF, true, NONCE_LEN, Box(passphrase, Some(BackupOfAll(c, opens))),
             ExportMeta(|c|, SecretCount(c), SkippedCount(q)))
  }

  method ExportBackup(rows: seq<Row>, opens: Opens, passphrase: string, includeSecrets: bool)
    returns (r: Result<Envelope, Error>)
    ensures r == if includeSecrets && |passphrase| < MIN_PASSPHRASE then Err(PassphraseTooShort)
                 else if !AllOpen(Chosen(NewestFirst(rows), includeSecrets), opens) then Err(UndecryptableRow)
                 else Ok(FileOf(rows, opens, passphrase, includeSecrets))
  {
    if includeSecrets && |passphrase| < MIN_PASSPHRASE { return Err(PassphraseTooShort); }
    var exported := ExportRows(rows, opens, includeSecrets);
    if exported.Err? { return Err(exported.error); }
    return Ok(Envelope(EXPORT_SCHEMA, KDF, true, NONCE_LEN, Box(passphrase, Some(exported.value.0)), exported.value.1));
  }

  /** Envelope, passphrase, rows, count: the first that is wrong decides the error. */
  function OpenFile(e: Envelope, passphrase: string): Result<seq<BackupRow>, Error> {
    if e.schema != EXPORT_SCHEMA || e.algo != KDF then Err(BadFormat)
    else if !e.readable || e.nonceLen != NONCE_LEN then Err(BadFormat)
    else if e.box.Tampered? || e.box.passphrase != passphrase then Err(WrongPassphrase)
    else if e.box.rows.None? || e.meta.entries != |e.box.rows.value| then Err(BadFormat)
    else Ok(e.box.rows.value)
  }

  /** A failed check leaves the store alone; after them the import is one transaction. */
  method ImportBackup(store: ClipStore, e: Envelope, passphrase: string, sealed: Sealed, now: int)
    returns (r: Result<ImportReport, Error>)
    modifies store
    ensures OpenFile(e, passphrase).Err? ==>
              r == Err(OpenFile(e, passphrase).error) && store.State() == old(store.State())
    ensures OpenFile(e, passphrase).Ok? ==>
              match Import(old(store.State()), OpenFile(e, passphrase).value, sealed, now)
              case Ok(p) => r == Ok(p.report) && store.State() == p.store
              case Err(x) => r == Err(x) && store.rows == old(store.rows) && store.stack == old(store.stack)
  {
    var rows := OpenFile(e, passphrase);
    if rows.Err? { return Err(rows.error); }
    r := store.ImportRows(rows.value, sealed, now);
  }

  /** An exported file opens under its own passphrase and no other, to the rows that went in. */
  lemma FileOpensUnderItsPassphrase(
      rows: seq<Row>, opens: Opens, includeSecrets: bool, passphrase: string, guess: string)
    ensures OpenFile(FileOf(rows, opens, passphrase, includeSecrets), guess) ==
            if guess == passphrase then Ok(BackupOfAll(Chosen(NewestFirst(rows), includeSecrets), opens))
            else Err(WrongPassphrase)
  {
  }

  /** Nothing but the exported envelope opens around the exported rows: a file in which the schema, the key
    * derivation, the encoding, the nonce or the row count is another is refused, ... */
  lemma OnlyTheExportedEnvelopeOpens(
      rows: seq<Row>, opens: Opens, includeSecrets: bool, passphrase: string, e: Envelope)
    requires e.box == FileOf(rows, opens, passphrase, includeSecrets).box
    ensures OpenFile(e, passphrase).Ok? <==>
            e == FileOf(rows, opens, passphrase, includeSecrets).(meta := e.meta)
            && e.meta.entries == |Chosen(NewestFirst(rows), includeSecrets)|
  {
  }

  /** ... and a box that was tampered with, or that opens under another passphrase, never opens. */
  lemma OpensOnlyUnderItsOwn(e: Envelope, passphrase: string)
    requires e.box.Tampered? || e.box.passphrase != passphrase
    ensures OpenFile(e, passphrase).Err?
    ensures e.schema == EXPORT_SCHEMA && e.algo == KDF && e.readable && e.nonceLen == NONCE_LEN ==>
              OpenFile(e, passphrase) == Err(WrongPassphrase)
  {
  }

  /** The whole trip through a file: what is imported into the cleared store is the restored table. */
  lemma FileTrip(s: Store, opens: Opens, sealed: Sealed, passphrase: string, now: int, i: nat)
    requires Inv(s) && SealsSound(Sources(s, true), opens, sealed) && SealsFresh(Sources(s, true), sealed)
    requires i < |Sources(s, true)|
    ensures AllOpen(Sources(s, true), opens)
    ensures var rows := OpenFile(FileOf(s.rows, opens, passphrase, true), passphrase);
            && rows.Ok?
            && var r := Import(Cleared(s), rows.value, sealed, now);
               && r.Ok? && |r.value.store.rows| == |Sources(s, true)| == r.value.report.imported
               && Inv(r.value.store)
               && Restores(Sources(s, true)[i], r.value.store.rows[i], now)
               && SameReading(GetPayload(s, Sources(s, true)[i].id),
                              GetPayload(r.value.store, r.value.store.rows[i].id), opens)
  {
    FileOpensUnderItsPassphrase(s.rows, opens, true, passphrase, passphrase);
    RoundTrip(s, opens, sealed, now);
    RoundTripRow(s, opens, sealed, now, i);
  }
}
