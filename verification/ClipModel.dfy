/** The clipboard store as a value: the row table, the paste-stack table and the blob directory,
  * and what each operation makes of them. Hashing is injective: a digest is determined by, and
  * determines, the bytes. Row ids and stack row ids are handed out by counters.
  */
module ClipModel {

  import opened Wrappers
  import opened Utf8
  import opened PasteStack
  import Text

  const BLOB_THRESHOLD: nat := 64 * 1024
  const PREVIEW_CHARS: nat := 512
  const MAX_GROUP_CHARS: nat := 64

  datatype Digest = Sha256(of: Bytes)

  /** `{digest}.{ext}` */
  datatype BlobName = BlobName(digest: Digest, ext: string)

  datatype Kind = Text | Image | Files
  datatype Origin = Local | Remote
  datatype Suggestion = Suggestion(group: string, confidence: real)

  datatype Row = Row(
    id: nat, kind: Kind, content: string, digest: Digest, blob: Option<BlobName>, origin: Origin,
    sourceApp: Option<string>, pinned: bool, group: Option<string>, secret: bool, createdAt: int,
    usage: nat, suggested: Option<Suggestion>, dismissed: bool, html: Option<string>)

  datatype Store = Store(
    rows: seq<Row>, stack: seq<StackRow>, blobs: map<BlobName, Bytes>, nextId: nat, nextStackRow: nat)

  const EMPTY: Store := Store([], [], map[], 0, 0)

  // ---------- looking rows up ----------

  function IndexOfId(rows: seq<Row>, id: nat): (i: nat)
    ensures i <= |rows|
    ensures i < |rows| ==> rows[i].id == id
    ensures forall k :: 0 <= k < i ==> rows[k].id != id
  {
    if rows == [] || rows[0].id == id then 0 else 1 + IndexOfId(rows[1..], id)
  }

  function IndexOfDigest(rows: seq<Row>, d: Digest): (i: nat)
    ensures i <= |rows|
    ensures i < |rows| ==> rows[i].digest == d
    ensures forall k :: 0 <= k < i ==> rows[k].digest != d
  {
    if rows == [] || rows[0].digest == d then 0 else 1 + IndexOfDigest(rows[1..], d)
  }

  predicate HasId(rows: seq<Row>, id: nat) {
    exists i :: 0 <= i < |rows| && rows[i].id == id
  }

  predicate HasDigest(rows: seq<Row>, d: Digest) {
    exists i :: 0 <= i < |rows| && rows[i].digest == d
  }

  // ---------- captures ----------

  datatype Capture =
    | TextCapture(text: string, group: Option<string>, suggested: Option<Suggestion>,
                  sourceApp: Option<string>, origin: Origin, html: Option<string>)
    | ImageCapture(format: string, width: nat, height: nat, bytes: Bytes,
                   sourceApp: Option<string>, origin: Origin)
    | FilesCapture(list: string, sourceApp: Option<string>, origin: Origin)
    | SecretCapture(cipher: string, group: Option<string>, suggested: Option<Suggestion>,
                    sourceApp: Option<string>, origin: Origin)

  function BytesOf(c: Capture): Bytes {
    match c
    case TextCapture(text, _, _, _, _, _) => Encode(text)
    case ImageCapture(_, _, _, bytes, _, _) => bytes
    case FilesCapture(list, _, _) => Encode(list)
    case SecretCapture(cipher, _, _, _, _) => Encode(cipher)
  }

  function KeyOf(c: Capture): Digest {
    Sha256(BytesOf(c))
  }

  function HtmlOf(c: Capture): Option<string> {
    if c.TextCapture? then c.html else None
  }

  /** The blob file a new row of this capture gets, if any: long texts and ciphertexts, and every image. */
  function BlobOf(c: Capture): Option<BlobName> {
    match c
    case TextCapture(_, _, _, _, _, _) =>
      if |BytesOf(c)| > BLOB_THRESHOLD then Some(BlobName(KeyOf(c), "txt")) else None
    case ImageCapture(format, _, _, _, _, _) => Some(BlobName(KeyOf(c), format))
    case FilesCapture(_, _, _) => None
    case SecretCapture(_, _, _, _, _) =>
      if |BytesOf(c)| > BLOB_THRESHOLD then Some(BlobName(KeyOf(c), "enc")) else None
  }

  function Preview(s: string): string {
    if |s| > PREVIEW_CHARS then s[..PREVIEW_CHARS] else s
  }

  function ContentOf(c: Capture): string {
    match c
    case TextCapture(text, _, _, _, _, _) => if BlobOf(c).Some? then Preview(text) else text
    case ImageCapture(_, width, height, _, _, _) => Text.Decimal(width) + "x" + Text.Decimal(height)
    case FilesCapture(list, _, _) => list
    case SecretCapture(cipher, _, _, _, _) => if BlobOf(c).Some? then "" else cipher
  }

  function KindOf(c: Capture): Kind {
    match c case ImageCapture(_, _, _, _, _, _) => Image case FilesCapture(_, _, _) => Files case _ => Text
  }

  function NewRow(c: Capture, id: nat, now: int): Row {
    var group := if c.TextCapture? || c.SecretCapture? then c.group else None;
    var suggested := if c.TextCapture? || c.SecretCapture? then c.suggested else None;
    Row(id, KindOf(c), ContentOf(c), KeyOf(c), BlobOf(c), c.origin, c.sourceApp, false, group,
        c.SecretCapture?, now, 0, suggested, false, HtmlOf(c))
  }

  /** A repeated capture refreshes the row; a missing HTML is filled in, and local wins. */
  function Touched(r: Row, c: Capture, now: int): Row {
    r.(createdAt := now, usage := r.usage + 1,
       origin := if c.origin.Local? then Local else r.origin,
       html := if r.html.Some? then r.html else HtmlOf(c))
  }

  /** A capture finds its row by digest, whatever its kind; ciphertexts are never looked up. */
  predicate Hits(s: Store, c: Capture) {
    !c.SecretCapture? && HasDigest(s.rows, KeyOf(c))
  }

  function Appended(s: Store, c: Capture, now: int): Store {
    s.(rows := s.rows + [NewRow(c, s.nextId, now)],
       blobs := if BlobOf(c).Some? then s.blobs[BlobOf(c).value := BytesOf(c)] else s.blobs,
       nextId := s.nextId + 1)
  }

  function Refreshed(s: Store, c: Capture, now: int): Store
    requires HasDigest(s.rows, KeyOf(c))
  {
    var i := IndexOfDigest(s.rows, KeyOf(c));
    s.(rows := s.rows[i := Touched(s.rows[i], c, now)])
  }

  function Captured(s: Store, c: Capture, now: int): Store {
    if Hits(s, c) then Refreshed(s, c, now) else Appended(s, c, now)
  }

  /** The id a capture answers with. */
  function CapturedId(s: Store, c: Capture): nat {
    if Hits(s, c) then s.rows[IndexOfDigest(s.rows, KeyOf(c))].id else s.nextId
  }

  // ---------- removing rows ----------

  function WithoutRows(rows: seq<Row>, ids: set<nat>): (out: seq<Row>)
    ensures |out| <= |rows|
    ensures forall r :: r in out <==> r in rows && r.id !in ids
  {
    if rows == [] then []
    else
      assert rows == rows[..|rows| - 1] + [rows[|rows| - 1]];
      WithoutRows(rows[..|rows| - 1], ids) +
      if rows[|rows| - 1].id in ids then [] else [rows[|rows| - 1]]
  }

  /** The blob names of the rows with the given ids. */
  function BlobsOf(rows: seq<Row>, ids: set<nat>): set<BlobName> {
    set r | r in rows && r.id in ids && r.blob.Some? :: r.blob.value
  }

  function Ids(rows: seq<Row>): set<nat> {
    set r | r in rows :: r.id
  }

  /** DELETE of the given rows: the foreign key takes their stack rows, and their files follow. */
  function Dropped(s: Store, ids: set<nat>): Store {
    s.(rows := WithoutRows(s.rows, ids), stack := Without(s.stack, ids), blobs := s.blobs - BlobsOf(s.rows, ids))
  }

  function ClearIds(rows: seq<Row>, keepPinned: bool): set<nat> {
    set r | r in rows && (keepPinned ==> !r.pinned) :: r.id
  }

  function Referenced(rows: seq<Row>): set<BlobName> {
    set r | r in rows && r.blob.Some? :: r.blob.value
  }

  function Collected(s: Store): Store {
    s.(blobs := map n | n in s.blobs && n in Referenced(s.rows) :: s.blobs[n])
  }

  // ---------- curating rows ----------

  function Pinned(s: Store, id: nat, pinned: bool): Store {
    var i := IndexOfId(s.rows, id);
    if i < |s.rows| then s.(rows := s.rows[i := s.rows[i].(pinned := pinned)]) else s
  }

  function SanitizedGroup(name: string): Option<string> {
    var trimmed := Text.Trim(name);
    if trimmed == "" || |trimmed| > MAX_GROUP_CHARS then None else Some(trimmed)
  }

  function Grouped(s: Store, id: nat, group: Option<string>): Store {
    var i := IndexOfId(s.rows, id);
    if i < |s.rows| then s.(rows := s.rows[i := s.rows[i].(group := group)]) else s
  }

  function RegroupedRow(r: Row, from: string, to: Option<string>): Row {
    if r.group == Some(from) then r.(group := to) else r
  }

  /** UPDATE ... SET group_name = to WHERE group_name = from */
  function Regrouped(s: Store, from: string, to: Option<string>): Store {
    s.(rows := seq(|s.rows|, i requires 0 <= i < |s.rows| => RegroupedRow(s.rows[i], from, to)))
  }

  function DecidedRow(r: Row, accept: bool): Row {
    if !accept then r.(dismissed := true)
    else if r.suggested.Some? && r.group.None? then r.(group := Some(r.suggested.value.group))
    else r
  }

  function DecidedOne(s: Store, id: nat, accept: bool): Store {
    var i := IndexOfId(s.rows, id);
    if i < |s.rows| then s.(rows := s.rows[i := DecidedRow(s.rows[i], accept)]) else s
  }

  function Decided(s: Store, ids: seq<nat>, accept: bool): Store {
    if ids == [] then s else DecidedOne(Decided(s, ids[..|ids| - 1], accept), ids[|ids| - 1], accept)
  }

  // ---------- the stack ----------

  function StackPushed(s: Store, id: nat): Store {
    if HasId(s.rows, id) && !Stacked(s.stack, id)
    then s.(stack := Pushed(s.stack, s.nextStackRow, id), nextStackRow := s.nextStackRow + 1)
    else s
  }

  function StackTaken(s: Store): Store {
    if s.stack == [] then s else s.(stack := Without(s.stack, {Queue(s.stack)[0]}))
  }

  function StackMoved(s: Store, id: nat, to: nat): Store {
    var q := Queue(s.stack);
    if id in q then s.(stack := Repositioned(s.stack, Moved(q, id, to))) else s
  }

  // ---------- reading ----------

  datatype Payload =
    | TextPayload(text: string)
    | FilesPayload(list: string)
    | ImagePayload(format: string, bytes: Bytes)
    | SecretPayload(cipher: string)

  function AfterLastDot(s: string): string {
    if s == "" then "" else
    var rest := AfterLastDot(s[1..]);
    if s[0] == '.' || '.' in s[1..] then rest else s
  }

  /** Err when a referenced file is not there. */
  function PayloadOf(r: Row, blobs: map<BlobName, Bytes>): Result<Option<Payload>, ()> {
    match r.kind
    case Image =>
      (match r.blob
       case None => Ok(None)
       case Some(n) => if n in blobs then Ok(Some(ImagePayload(AfterLastDot(n.ext), blobs[n]))) else Err(()))
    case Files => Ok(Some(FilesPayload(r.content)))
    case Text =>
      match r.blob
      case None => Ok(Some(if r.secret then SecretPayload(r.content) else TextPayload(r.content)))
      case Some(n) =>
        if n !in blobs then Err(())
        else Ok(Some(if r.secret then SecretPayload(Decode(blobs[n])) else TextPayload(Decode(blobs[n]))))
  }

  function GetPayload(s: Store, id: nat): Result<Option<Payload>, ()> {
    var i := IndexOfId(s.rows, id);
    if i < |s.rows| then PayloadOf(s.rows[i], s.blobs) else Ok(None)
  }
}
