/** The capture pipeline: the gates an arrival passes, what reaches the store, and what never does.
  * The secret detector, the classifier and the crypto port are answered by the arrival itself.
  */
module Pipeline {

  import opened Wrappers
  import opened Utf8
  import Text
  import opened LiteralRegex
  import opened ClipModel
  import opened Retention
  import opened ClipInvariant
  import opened PurgeExact
  import opened FileLists
  import opened ClipStore

  const PURGE_EVERY: nat := 50

  datatype Content =
    | TextContent(text: string, html: Option<string>)
    | ImageContent(format: string, width: nat, height: nat, bytes: Bytes)
    | FilesContent(paths: seq<string>)

  /** `detected`: the secret detector's verdict on the text. `suggestion`: the classifier's. `cipher`:
    * what the crypto port makes of the text, if it does. `unreadHits`: of the block patterns outside the
    * regular expressions read here, those the engine finds in the text. */
  datatype Arrival = Arrival(
    content: Content, app: Option<string>, origin: Origin, applyBlacklist: bool,
    detected: bool, suggestion: Option<Suggestion>, cipher: Option<string>, unreadHits: set<string>, now: int)

  datatype Config = Config(
    excludedApps: seq<string>, blockPatterns: seq<string>, captureImages: bool, captureFiles: bool,
    sensitiveFilter: bool, autoGroup: bool, retentionDays: nat, maxEntries: nat)

  datatype Published = Published(id: nat, secret: bool)

  datatype Pipe = Pipe(store: Store, paused: bool, skipped: nat, blocked: nat, inserts: nat, events: seq<Published>)

  // ---------- the gates ----------

  function LowerAscii(s: string): string {
    seq(|s|, i requires 0 <= i < |s| => if 'A' <= s[i] <= 'Z' then s[i] + 32 as char else s[i])
  }

  predicate Excluded(config: Config, a: Arrival) {
    && a.applyBlacklist && a.app.Some?
    && exists i :: 0 <= i < |config.excludedApps| && LowerAscii(config.excludedApps[i]) == LowerAscii(a.app.value)
  }

  predicate Blocked(config: Config, a: Arrival) {
    a.content.TextContent? && BlockReason(config.blockPatterns, a.content.text, a.unreadHits).Some?
  }

  /** What an arrival past the gates asks the store to take, if anything. */
  function CaptureFor(config: Config, a: Arrival): Option<Capture> {
    match a.content
    case TextContent(text, html) =>
      if Text.Trim(text) == "" then None
      else
        var group := if config.autoGroup && a.suggestion.Some? then Some(a.suggestion.value.group) else None;
        if !(config.sensitiveFilter && a.detected) then
          Some(TextCapture(text, group, a.suggestion, a.app, a.origin, html))
        else if a.cipher.Some? then Some(SecretCapture(a.cipher.value, group, a.suggestion, a.app, a.origin))
        else None
    case ImageContent(format, width, height, bytes) =>
      if config.captureImages then Some(ImageCapture(format, width, height, bytes, a.app, a.origin)) else None
    case FilesContent(paths) =>
      if config.captureFiles && paths != [] then Some(FilesCapture(Join(paths), a.app, a.origin)) else None
  }

  datatype Verdict = Drop | Block | Keep(c: Capture, counts: bool)

  /** The gates in order. Only text captures count towards the rhythm of purges. */
  function VerdictOn(config: Config, a: Arrival): Verdict {
    if Excluded(config, a) then Drop
    else if Blocked(config, a) then Block
    else
      match CaptureFor(config, a)
      case None => Drop
      case Some(c) => Keep(c, a.content.TextContent?)
  }

  function Tidied(s: Store, inserts: nat, config: Config, now: int): Store {
    if inserts % PURGE_EVERY == 0 then Purged(s, config.retentionDays, config.maxEntries, now) else s
  }

  /** Taking a capture; text captures are tidied up after. */
  function Taken(p: Pipe, config: Config, c: Capture, counts: bool, now: int): Pipe {
    var t := Captured(p.store, c, now);
    p.(store := if counts then Tidied(t, p.inserts, config, now) else t,
       inserts := p.inserts + if counts then 1 else 0,
       events := p.events + [Published(CapturedId(p.store, c), c.SecretCapture?)])
  }

  /** Pausing comes before every gate. */
  function Acted(p: Pipe, config: Config, v: Verdict, now: int): Pipe {
    if p.paused then p.(skipped := p.skipped + 1)
    else
      match v
      case Drop => p
      case Block => p.(blocked := p.blocked + 1)
      case Keep(c, counts) => Taken(p, config, c, counts, now)
  }

  function Ingested(p: Pipe, config: Config, a: Arrival): Pipe {
    Acted(p, config, VerdictOn(config, a), a.now)
  }

  // ---------- the pipeline ----------

  class CapturePipeline {
    const store: ClipStore
    var paused: bool
    var skipped: nat
    var blocked: nat
    var inserts: nat
    var events: seq<Published>

    constructor (store: ClipStore)
      ensures this.store == store && State() == Pipe(store.State(), false, 0, 0, 0, [])
    {
      this.store := store;
      paused, skipped, blocked, inserts, events := false, 0, 0, 0, [];
    }

    function State(): Pipe
      reads this, store
    {
      Pipe(store.State(), paused, skipped, blocked, inserts, events)
    }

    method Ingest(config: Config, a: Arrival)
      requires store.Valid()
      requires a.cipher.Some? ==> !HasDigest(store.rows, Sha256(Encode(a.cipher.value)))
      modifies this, store
      ensures store.Valid()
      ensures State() == Ingested(old(State()), config, a)
    {
      if paused {
        skipped := skipped + 1;
        return;
      }
      if Excluded(config, a) { return; }
      if Blocked(config, a) {
        blocked := blocked + 1;
        return;
      }
      Dispatch(config, a);
    }

    method Dispatch(config: Config, a: Arrival)
      requires store.Valid()
      requires a.cipher.Some? ==> !HasDigest(store.rows, Sha256(Encode(a.cipher.value)))
      modifies this`inserts, this`events, store
      ensures store.Valid()
      ensures CaptureFor(config, a).None? ==>
                store.State() == old(store.State()) && inserts == old(inserts) && events == old(events)
      ensures CaptureFor(config, a).Some? ==>
                var c := CaptureFor(config, a).value;
                var p := Taken(old(State()), config, c, a.content.TextContent?, a.now);
                store.State() == p.store && inserts == p.inserts && events == p.events
    {
      match a.content {
        case TextContent(text, html) => ProcessText(config, a, text, html);
        case ImageContent(format, width, height, bytes) =>
          if !config.captureImages { return; }
          var id := store.InsertImage(format, width, height, bytes, a.app, a.origin, a.now);
          events := events + [Published(id, false)];
        case FilesContent(paths) =>
          if !config.captureFiles { return; }
          if paths == [] { return; }
          var id := store.InsertFiles(paths, a.app, a.origin, a.now);
          events := events + [Published(id, false)];
      }
    }

    method ProcessText(config: Config, a: Arrival, text: string, html: Option<string>)
      requires store.Valid() && a.content == TextContent(text, html)
      requires a.cipher.Some? ==> !HasDigest(store.rows, Sha256(Encode(a.cipher.value)))
      modifies this`inserts, this`events, store
      ensures store.Valid()
      ensures match CaptureFor(config, a)
              case None => store.State() == old(store.State()) && inserts == old(inserts) && events == old(events)
              case Some(c) =>
                && store.State() == Tidied(Captured(old(store.State()), c, a.now), old(inserts), config, a.now)
                && inserts == old(inserts) + 1
                && events == old(events) + [Published(CapturedId(old(store.State()), c), c.SecretCapture?)]
    {
      var secret := config.sensitiveFilter && a.detected;
      var id := StoreText(config, a, text, html, secret);
      if id.None? { return; }
      CountInsert(config, a.now);
      events := events + [Published(id.value, secret)];
    }

    /** A secret goes in encrypted and without its HTML, or not at all. */
    method StoreText(config: Config, a: Arrival, text: string, html: Option<string>, secret: bool)
      returns (id: Option<nat>)
      requires store.Valid() && a.content == TextContent(text, html) && secret == (config.sensitiveFilter && a.detected)
      requires a.cipher.Some? ==> !HasDigest(store.rows, Sha256(Encode(a.cipher.value)))
      modifies store
      ensures store.Valid()
      ensures match CaptureFor(config, a)
              case None => id == None && store.State() == old(store.State())
              case Some(c) =>
                id == Some(CapturedId(old(store.State()), c)) && c.SecretCapture? == secret
                && store.State() == Captured(old(store.State()), c, a.now)
    {
      if Text.Trim(text) == "" { return None; }
      var group := if config.autoGroup && a.suggestion.Some? then Some(a.suggestion.value.group) else None;
      var row;
      if secret {
        if a.cipher.None? { return None; }
        row := store.InsertEncrypted(a.cipher.value, group, a.suggestion, a.app, a.origin, a.now);
      } else {
        row := store.InsertRow(text, group, a.suggestion, a.app, a.origin, html, a.now);
      }
      return Some(row);
    }

    /** Every fiftieth text capture, from the first on, is followed by a purge. */
    method CountInsert(config: Config, now: int)
      requires store.Valid()
      modifies this`inserts, store
      ensures store.Valid() && inserts == old(inserts) + 1
      ensures store.State() == Tidied(old(store.State()), old(inserts), config, now)
    {
      var n := inserts;
      inserts := inserts + 1;
      if n % PURGE_EVERY == 0 {
        var _ := store.Purge(config.retentionDays, config.maxEntries, now);
      }
    }
  }

  // ---------- the gates, one by one ----------

  predicate SameLetter(x: char, y: char) {
    x == y || ('A' <= x <= 'Z' && y as int == x as int + 32) || ('A' <= y <= 'Z' && x as int == y as int + 32)
  }

  /** Equal but for the case of ASCII letters. */
  ghost predicate SameUpToCase(a: string, b: string) {
    |a| == |b| && forall i :: 0 <= i < |a| ==> SameLetter(a[i], b[i])
  }

  lemma LowerAsciiAgrees(a: string, b: string)
    ensures LowerAscii(a) == LowerAscii(b) <==> SameUpToCase(a, b)
  {
    var u, v := LowerAscii(a), LowerAscii(b);
    if u == v {
      forall i | 0 <= i < |a| ensures SameLetter(a[i], b[i]) {
        assert u[i] == v[i];
      }
    }
  }

  /** Some entry of the list is the arrival's application up to case, and the list applies to it. */
  ghost predicate Listed(config: Config, a: Arrival) {
    && a.applyBlacklist && a.app.Some?
    && exists i :: 0 <= i < |config.excludedApps| && SameUpToCase(config.excludedApps[i], a.app.value)
  }

  lemma ExcludedIffListed(config: Config, a: Arrival)
    ensures Excluded(config, a) <==> Listed(config, a)
  {
    forall i | 0 <= i < |config.excludedApps| && a.app.Some?
      ensures LowerAscii(config.excludedApps[i]) == LowerAscii(a.app.value) <==>
              SameUpToCase(config.excludedApps[i], a.app.value)
    {
      LowerAsciiAgrees(config.excludedApps[i], a.app.value);
    }
  }

  /** What comes from a listed application leaves no trace at all. */
  lemma ListedLeavesNoTrace(p: Pipe, config: Config, a: Arrival)
    requires !p.paused && Listed(config, a)
    ensures Ingested(p, config, a) == p
  {
    ExcludedIffListed(config, a);
  }

  lemma CaptureWithoutList(config: Config, a: Arrival)
    ensures CaptureFor(config, a) == CaptureFor(config.(excludedApps := []), a)
  {
    var bare := config.(excludedApps := []);
    assert bare.autoGroup == config.autoGroup && bare.sensitiveFilter == config.sensitiveFilter;
    assert bare.captureImages == config.captureImages && bare.captureFiles == config.captureFiles;
    match a.content
    case TextContent(_, _) =>
    case ImageContent(_, _, _, _) =>
    case FilesContent(_) =>
  }

  lemma BlockedWithoutList(config: Config, a: Arrival)
    ensures Blocked(config, a) <==> Blocked(config.(excludedApps := []), a)
  {
  }

  lemma VerdictWithoutList(config: Config, a: Arrival)
    requires !Excluded(config, a)
    ensures VerdictOn(config, a) == VerdictOn(config.(excludedApps := []), a)
  {
    CaptureWithoutList(config, a);
    BlockedWithoutList(config, a);
  }

  lemma ActedAlike(p: Pipe, config: Config, other: Config, v: Verdict, now: int)
    requires config.retentionDays == other.retentionDays && config.maxEntries == other.maxEntries
    ensures Acted(p, config, v, now) == Acted(p, other, v, now)
  {
  }

  /** A list that does not name the application might as well be empty. */
  lemma UnlistedPassesTheList(p: Pipe, config: Config, a: Arrival)
    requires !Listed(config, a)
    ensures Ingested(p, config, a) == Ingested(p, config.(excludedApps := []), a)
  {
    ExcludedIffListed(config, a);
    VerdictWithoutList(config, a);
    ActedAlike(p, config, config.(excludedApps := []), VerdictOn(config, a), a.now);
  }

  /** A text that some rule finds is counted as blocked and leaves nothing else. */
  lemma BlockedIsCountedOnly(p: Pipe, config: Config, a: Arrival, k: nat)
    requires !p.paused && !Listed(config, a) && a.content.TextContent? && k < |config.blockPatterns|
    requires Finds(config.blockPatterns[k], a.content.text, a.unreadHits)
    ensures Ingested(p, config, a) == p.(blocked := p.blocked + 1)
  {
    ExcludedIffListed(config, a);
    BlocksIffSomeFinds(config.blockPatterns, a.content.text, a.unreadHits);
  }

  lemma {:induction false} BlocksIffSomeFinds(patterns: seq<string>, text: string, hits: set<string>)
    ensures BlockReason(patterns, text, hits).Some? <==>
            exists k :: 0 <= k < |patterns| && Finds(patterns[k], text, hits)
  {
    if patterns != [] {
      BlocksIffSomeFinds(patterns[1..], text, hits);
      assert forall k :: 0 <= k < |patterns| - 1 ==> patterns[1..][k] == patterns[k + 1];
    }
  }

  /** Not listed, and not a text that a rule finds. */
  ghost predicate PassesGates(config: Config, a: Arrival) {
    && !Listed(config, a)
    && (a.content.TextContent? ==>
          forall k :: 0 <= k < |config.blockPatterns| ==>
            !Finds(config.blockPatterns[k], a.content.text, a.unreadHits))
  }

  lemma PassesAreJudged(p: Pipe, config: Config, a: Arrival)
    requires !p.paused && PassesGates(config, a)
    ensures var c := CaptureFor(config, a);
            Ingested(p, config, a) == if c.None? then p else Taken(p, config, c.value, a.content.TextContent?, a.now)
  {
    ExcludedIffListed(config, a);
    if a.content.TextContent? { BlocksIffSomeFinds(config.blockPatterns, a.content.text, a.unreadHits); }
  }

  // ---------- what is left of an arrival past the gates ----------

  /** White space, an image or a list of files with its switch off, no files at all, or a secret that the crypto
    * port does not protect. */
  ghost predicate Unwanted(config: Config, a: Arrival) {
    match a.content
    case TextContent(text, _) => Text.Blank(text) || (config.sensitiveFilter && a.detected && a.cipher.None?)
    case ImageContent(_, _, _, _) => !config.captureImages
    case FilesContent(paths) => !config.captureFiles || paths == []
  }

  lemma UnwantedIffNoCapture(config: Config, a: Arrival)
    ensures Unwanted(config, a) <==> CaptureFor(config, a).None?
  {
    if a.content.TextContent? { Text.TrimsToNothingIff(a.content.text); }
  }

  lemma UnwantedLeavesNoTrace(p: Pipe, config: Config, a: Arrival)
    requires !p.paused && PassesGates(config, a) && Unwanted(config, a)
    ensures Ingested(p, config, a) == p
  {
    UnwantedIffNoCapture(config, a);
    PassesAreJudged(p, config, a);
  }

  predicate IsSecret(config: Config, a: Arrival) {
    a.content.TextContent? && config.sensitiveFilter && a.detected
  }

  /** The bytes that are kept of a wanted arrival: its own, or the ciphertext of a secret. */
  ghost function Kept(config: Config, a: Arrival): Bytes
    requires !Unwanted(config, a)
  {
    match a.content
    case TextContent(text, _) => if IsSecret(config, a) then Encode(a.cipher.value) else Encode(text)
    case ImageContent(_, _, _, bytes) => bytes
    case FilesContent(paths) => Encode(Join(paths))
  }

  /** The row of a new content: what came with the arrival, its group only where the switch says so, and
    * never the HTML of a secret. */
  ghost predicate RowFor(config: Config, a: Arrival, r: Row)
    requires !Unwanted(config, a)
  {
    && r.digest == Sha256(Kept(config, a)) && r.createdAt == a.now && r.sourceApp == a.app && r.origin == a.origin
    && !r.pinned && r.usage == 0 && !r.dismissed
    && (match a.content
        case TextContent(_, html) =>
          && r.kind.Text? && r.secret == IsSecret(config, a) && r.html == (if IsSecret(config, a) then None else html)
          && r.suggested == a.suggestion
          && r.group == (if config.autoGroup && a.suggestion.Some? then Some(a.suggestion.value.group) else None)
        case ImageContent(_, _, _, _) => r.kind.Image? && !r.secret && r.html.None? && r.group.None?
        case FilesContent(_) => r.kind.Files? && !r.secret && r.html.None? && r.group.None?)
  }

  lemma TextCaptureIs(config: Config, a: Arrival)
    requires a.content.TextContent? && !Unwanted(config, a)
    ensures var group := if config.autoGroup && a.suggestion.Some? then Some(a.suggestion.value.group) else None;
            CaptureFor(config, a) ==
            Some(if IsSecret(config, a) then SecretCapture(a.cipher.value, group, a.suggestion, a.app, a.origin)
                 else TextCapture(a.content.text, group, a.suggestion, a.app, a.origin, a.content.html))
  {
    Text.TrimsToNothingIff(a.content.text);
  }

  lemma NewPlainFits(config: Config, a: Arrival, id: nat, group: Option<string>)
    requires a.content.TextContent? && !Unwanted(config, a) && !IsSecret(config, a)
    requires group == if config.autoGroup && a.suggestion.Some? then Some(a.suggestion.value.group) else None
    ensures RowFor(config, a, NewRow(TextCapture(a.content.text, group, a.suggestion, a.app, a.origin, a.content.html),
                                     id, a.now))
  {
  }

  lemma NewSecretFits(config: Config, a: Arrival, id: nat, group: Option<string>)
    requires a.content.TextContent? && !Unwanted(config, a) && IsSecret(config, a)
    requires group == if config.autoGroup && a.suggestion.Some? then Some(a.suggestion.value.group) else None
    ensures RowFor(config, a, NewRow(SecretCapture(a.cipher.value, group, a.suggestion, a.app, a.origin), id, a.now))
  {
  }

  lemma NewTextFits(config: Config, a: Arrival, id: nat)
    requires a.content.TextContent? && !Unwanted(config, a)
    ensures CaptureFor(config, a).Some? && RowFor(config, a, NewRow(CaptureFor(config, a).value, id, a.now))
  {
    var group := if config.autoGroup && a.suggestion.Some? then Some(a.suggestion.value.group) else None;
    TextCaptureIs(config, a);
    if IsSecret(config, a) { NewSecretFits(config, a, id, group); } else { NewPlainFits(config, a, id, group); }
  }

  lemma NewOtherFits(config: Config, a: Arrival, id: nat)
    requires !a.content.TextContent? && !Unwanted(config, a)
    ensures CaptureFor(config, a).Some? && RowFor(config, a, NewRow(CaptureFor(config, a).value, id, a.now))
  {
  }

  lemma NewRowFits(config: Config, a: Arrival, id: nat)
    requires !Unwanted(config, a)
    ensures CaptureFor(config, a).Some? && RowFor(config, a, NewRow(CaptureFor(config, a).value, id, a.now))
    ensures KeyOf(CaptureFor(config, a).value) == Sha256(Kept(config, a))
  {
    if a.content.TextContent? { NewTextFits(config, a, id); } else { NewOtherFits(config, a, id); }
    assert NewRow(CaptureFor(config, a).value, id, a.now).digest == KeyOf(CaptureFor(config, a).value);
  }

  /** Whether a purge follows this arrival: after the first and every fiftieth text. */
  predicate PurgeFollows(p: Pipe, a: Arrival) {
    a.content.TextContent? && p.inserts % PURGE_EVERY == 0
  }

  /** A wanted arrival past the gates, with a content that no row has: one new row, one event that names it, and,
    * when no purge follows, nothing else. */
  lemma NewArrivalIsStored(p: Pipe, config: Config, a: Arrival)
    requires !p.paused && PassesGates(config, a) && !Unwanted(config, a)
    requires !HasDigest(p.store.rows, Sha256(Kept(config, a)))
    ensures var q := Ingested(p, config, a);
            && q.inserts == p.inserts + (if a.content.TextContent? then 1 else 0)
            && q.events == p.events + [Published(p.store.nextId, IsSecret(config, a))]
            && (!PurgeFollows(p, a) ==>
                  exists r :: RowFor(config, a, r) && r.id == p.store.nextId && q.store.rows == p.store.rows + [r])
  {
    UnwantedIffNoCapture(config, a);
    PassesAreJudged(p, config, a);
    var c := CaptureFor(config, a).value;
    NewRowFits(config, a, p.store.nextId);
    var r := NewRow(c, p.store.nextId, a.now);
    assert RowFor(config, a, r) && r.id == p.store.nextId;
  }

  lemma TidiedRows(s: Store, inserts: nat, config: Config, now: int)
    requires Inv(s)
    ensures forall r :: r in Tidied(s, inserts, config, now).rows ==> r in s.rows
  {
    PurgeSurvivors(s, config.retentionDays, config.maxEntries, now);
  }

  lemma TakenAnnounces(p: Pipe, config: Config, c: Capture, counts: bool, now: int)
    requires Inv(p.store) && (c.SecretCapture? ==> !HasDigest(p.store.rows, KeyOf(c)))
    ensures var q := Taken(p, config, c, counts, now);
            && q.events == p.events + [Published(CapturedId(p.store, c), c.SecretCapture?)]
            && (!(counts && p.inserts % PURGE_EVERY == 0) ==> Names(q.store.rows, CapturedId(p.store, c), KeyOf(c)))
            && forall r :: r in q.store.rows ==> (r.id == CapturedId(p.store, c) <==> r.digest == KeyOf(c))
  {
    CapturedKeeps(p.store, c, now);
    AnswerNamesTheCapture(p.store, c, now);
    AnswerIsExact(p.store, c, now);
    TidiedRows(Captured(p.store, c, now), p.inserts, config, now);
  }

  lemma WantedIsFresh(s: Store, config: Config, a: Arrival)
    requires !Unwanted(config, a)
    requires a.cipher.Some? ==> !HasDigest(s.rows, Sha256(Encode(a.cipher.value)))
    ensures CaptureFor(config, a).Some?
    ensures var c := CaptureFor(config, a).value; c.SecretCapture? ==> !HasDigest(s.rows, KeyOf(c))
  {
    UnwantedIffNoCapture(config, a);
  }

  /** Whatever was there, the announced id is that of the row with the arrival's bytes and of no other. */
  lemma AnnouncedNamesTheArrival(p: Pipe, config: Config, a: Arrival)
    requires Inv(p.store) && !p.paused && PassesGates(config, a) && !Unwanted(config, a)
    requires a.cipher.Some? ==> !HasDigest(p.store.rows, Sha256(Encode(a.cipher.value)))
    ensures var q := Ingested(p, config, a);
            && q.events != [] && q.events[..|q.events| - 1] == p.events
            && var id, d := q.events[|q.events| - 1].id, Sha256(Kept(config, a));
               && (!PurgeFollows(p, a) ==> Names(q.store.rows, id, d))
               && forall r :: r in q.store.rows ==> (r.id == id <==> r.digest == d)
  {
    WantedIsFresh(p.store, config, a);
    PassesAreJudged(p, config, a);
    NewRowFits(config, a, 0);
    TakenAnnounces(p, config, CaptureFor(config, a).value, a.content.TextContent?, a.now);
  }

  lemma PurgedInRetention(s: Store, days: nat, max: nat, now: int)
    requires Inv(s)
    ensures forall r :: r in Purged(s, days, max, now).rows && !r.pinned ==> InRetention(r, days, now)
  {
    PurgeSurvivors(s, days, max, now);
    forall r | r in Purged(s, days, max, now).rows && !r.pinned ensures InRetention(r, days, now) {
      assert r in Survivors(s, days, max, now);
    }
  }

  /** After the purge that follows an arrival every unpinned row is inside the retention period. */
  lemma PurgeKeepsRetention(p: Pipe, config: Config, a: Arrival)
    requires Inv(p.store) && !p.paused && PassesGates(config, a) && !Unwanted(config, a) && PurgeFollows(p, a)
    requires a.cipher.Some? ==> !HasDigest(p.store.rows, Sha256(Encode(a.cipher.value)))
    ensures forall r :: r in Ingested(p, config, a).store.rows && !r.pinned ==>
              InRetention(r, config.retentionDays, a.now)
  {
    WantedIsFresh(p.store, config, a);
    PassesAreJudged(p, config, a);
    var c := CaptureFor(config, a).value;
    CapturedKeeps(p.store, c, a.now);
    PurgedInRetention(Captured(p.store, c, a.now), config.retentionDays, config.maxEntries, a.now);
  }

  // ---------- over a run ----------

  datatype Step = Step(config: Config, arrival: Arrival)

  function Ingests(p: Pipe, steps: seq<Step>): Pipe {
    if steps == [] then p
    else
      var last := steps[|steps| - 1];
      Ingested(Ingests(p, steps[..|steps| - 1]), last.config, last.arrival)
  }

  /** While paused nothing is stored or announced, and every arrival is counted as skipped. */
  lemma {:induction false} PausedOnlyCounts(p: Pipe, steps: seq<Step>)
    requires p.paused
    ensures Ingests(p, steps) == p.(skipped := p.skipped + |steps|)
  {
    if steps != [] { PausedOnlyCounts(p, steps[..|steps| - 1]); }
  }

  // ---------- a detected secret never reaches table or disk ----------

  /** These bytes are no row's content and no file's. */
  ghost predicate Absent(s: Store, plain: Bytes) {
    && (forall r :: r in s.rows ==> r.digest.of != plain)
    && (forall n :: n in s.blobs ==> s.blobs[n] != plain)
  }

  /** The arrival brings these bytes only as a text, detected as secret with the filter on, and no
    * ciphertext happens to be them. */
  predicate Guarded(step: Step, plain: Bytes) {
    var a := step.arrival;
    && (match a.content
        case TextContent(text, _) => Encode(text) == plain ==> a.detected && step.config.sensitiveFilter
        case ImageContent(_, _, _, bytes) => bytes != plain
        case FilesContent(paths) => Encode(Join(paths)) != plain)
    && (a.cipher.Some? ==> Encode(a.cipher.value) != plain)
  }

  lemma GuardedCapture(step: Step, plain: Bytes)
    requires Guarded(step, plain) && CaptureFor(step.config, step.arrival).Some?
    ensures BytesOf(CaptureFor(step.config, step.arrival).value) != plain
  {
  }

  lemma CaptureKeepsAbsent(s: Store, c: Capture, now: int, plain: Bytes)
    requires Absent(s, plain) && BytesOf(c) != plain
    ensures Absent(Captured(s, c, now), plain)
  {
    var t := Captured(s, c, now);
    forall r | r in t.rows ensures r.digest.of != plain {
      if Hits(s, c) {
        var i :| 0 <= i < |t.rows| && t.rows[i] == r;
        assert s.rows[i] in s.rows && r.digest == s.rows[i].digest;
      }
    }
  }

  lemma ActedKeepsAbsent(p: Pipe, config: Config, v: Verdict, now: int, plain: Bytes)
    requires Absent(p.store, plain) && (v.Keep? ==> BytesOf(v.c) != plain)
    ensures Absent(Acted(p, config, v, now).store, plain)
  {
    if v.Keep? { CaptureKeepsAbsent(p.store, v.c, now, plain); }
  }

  lemma {:induction false} SecretsStaySealed(p: Pipe, steps: seq<Step>, plain: Bytes)
    requires Absent(p.store, plain) && forall k :: 0 <= k < |steps| ==> Guarded(steps[k], plain)
    ensures Absent(Ingests(p, steps).store, plain)
  {
    if steps != [] {
      var init, last := steps[..|steps| - 1], steps[|steps| - 1];
      SecretsStaySealed(p, init, plain);
      if CaptureFor(last.config, last.arrival).Some? { GuardedCapture(last, plain); }
      ActedKeepsAbsent(Ingests(p, init), last.config, VerdictOn(last.config, last.arrival), last.arrival.now, plain);
    }
  }

  // ---------- the cap on the number of rows ----------

  lemma {:induction false} UnpinnedRewrite(rows: seq<Row>, i: nat, r: Row)
    requires i < |rows| && r.pinned == rows[i].pinned
    ensures |Unpinned(rows[i := r])| == |Unpinned(rows)|
  {
    var n := |rows| - 1;
    if i == n {
      assert rows[i := r][..n] == rows[..n];
    } else {
      assert rows[i := r][..n] == rows[..n][i := r];
      UnpinnedRewrite(rows[..n], i, r);
    }
  }

  lemma CaptureAddsAtMostOne(s: Store, c: Capture, now: int)
    ensures |Unpinned(Captured(s, c, now).rows)| <= |Unpinned(s.rows)| + 1
  {
    if Hits(s, c) {
      var i := IndexOfDigest(s.rows, KeyOf(c));
      UnpinnedRewrite(s.rows, i, Touched(s.rows[i], c, now));
    } else {
      var r := NewRow(c, s.nextId, now);
      assert (s.rows + [r])[..|s.rows|] == s.rows;
    }
  }

  lemma PurgeCaps(s: Store, days: nat, max: nat, now: int)
    requires Inv(s)
    ensures |Unpinned(Purged(s, days, max, now).rows)| <= max
  {
    var t := Purged(s, days, max, now);
    PurgeKeeps(s, days, max, now);
    PurgeSurvivors(s, days, max, now);
    UnpinnedMembers(t.rows);
    UnpinnedNoRepeats(t.rows);
    ElementsCount(Unpinned(t.rows));
    assert Elements(Unpinned(t.rows)) == Survivors(s, days, max, now);
  }

  /** How far past the limit the table may be, by the number of text captures so far. */
  function Slack(inserts: nat): nat {
    if inserts == 0 then 0 else (inserts - 1) % PURGE_EVERY
  }

  lemma SlackGrows(n: nat)
    requires n % PURGE_EVERY != 0
    ensures Slack(n + 1) == Slack(n) + 1
  {
  }

  ghost predicate FreshCiphers(p: Pipe, steps: seq<Step>) {
    forall k :: 0 <= k < |steps| && steps[k].arrival.cipher.Some? ==>
      !HasDigest(Ingests(p, steps[..k]).store.rows, Sha256(Encode(steps[k].arrival.cipher.value)))
  }

  lemma TidiedKeeps(s: Store, inserts: nat, config: Config, now: int)
    requires Inv(s)
    ensures Inv(Tidied(s, inserts, config, now))
  {
    PurgeKeeps(s, config.retentionDays, config.maxEntries, now);
  }

  lemma TidiedCaps(s: Store, inserts: nat, pending: nat, config: Config, now: int)
    requires Inv(s) && |Unpinned(s.rows)| <= config.maxEntries + Slack(inserts) + pending + 1
    ensures |Unpinned(Tidied(s, inserts, config, now).rows)| <=
            config.maxEntries + Slack(inserts + 1) + if inserts % PURGE_EVERY == 0 then 0 else pending
  {
    if inserts % PURGE_EVERY == 0 {
      PurgeCaps(s, config.retentionDays, config.maxEntries, now);
    } else {
      SlackGrows(inserts);
    }
  }

  ghost predicate FreshTake(s: Store, v: Verdict) {
    v.Keep? && v.c.SecretCapture? ==> !HasDigest(s.rows, KeyOf(v.c))
  }

  lemma ActedKeeps(p: Pipe, config: Config, v: Verdict, now: int)
    requires Inv(p.store) && FreshTake(p.store, v)
    ensures Inv(Acted(p, config, v, now).store)
  {
    if v.Keep? {
      CapturedKeeps(p.store, v.c, now);
      TidiedKeeps(Captured(p.store, v.c, now), p.inserts, config, now);
    }
  }

  /** How far the table is past the limit and its slack before the first arrival. */
  function Excess(p: Pipe, max: nat): nat {
    var n := |Unpinned(p.store.rows)|;
    if n > max + Slack(p.inserts) then n - max - Slack(p.inserts) else 0
  }

  function PendingAfter(p: Pipe, v: Verdict, pending: nat): nat {
    if p.paused || !v.Keep? then pending
    else if !v.counts then pending + 1
    else if p.inserts % PURGE_EVERY == 0 then 0
    else pending
  }

  /** The image and file captures kept since the last purge; before the first purge, with the excess the
    * run started with. */
  function Pending(p: Pipe, steps: seq<Step>, max: nat): nat {
    if steps == [] then Excess(p, max)
    else
      var init, last := steps[..|steps| - 1], steps[|steps| - 1];
      PendingAfter(Ingests(p, init), VerdictOn(last.config, last.arrival), Pending(p, init, max))
  }

  /** At most the limit, the slack, and the rows not counted for. */
  ghost predicate Within(p: Pipe, max: nat, pending: nat) {
    |Unpinned(p.store.rows)| <= max + Slack(p.inserts) + pending
  }

  lemma CountedCaps(p: Pipe, config: Config, c: Capture, now: int, pending: nat)
    requires Inv(Captured(p.store, c, now)) && Within(p, config.maxEntries, pending)
    ensures Within(Taken(p, config, c, true, now), config.maxEntries,
                   if p.inserts % PURGE_EVERY == 0 then 0 else pending)
  {
    CaptureAddsAtMostOne(p.store, c, now);
    TidiedCaps(Captured(p.store, c, now), p.inserts, pending, config, now);
  }

  lemma UncountedCaps(p: Pipe, config: Config, c: Capture, now: int, pending: nat)
    requires Within(p, config.maxEntries, pending)
    ensures Within(Taken(p, config, c, false, now), config.maxEntries, pending + 1)
  {
    CaptureAddsAtMostOne(p.store, c, now);
  }

  lemma KeptCaps(p: Pipe, config: Config, v: Verdict, now: int, pending: nat)
    requires Inv(p.store) && FreshTake(p.store, v) && v.Keep? && !p.paused && Within(p, config.maxEntries, pending)
    ensures Within(Taken(p, config, v.c, v.counts, now), config.maxEntries, PendingAfter(p, v, pending))
  {
    if v.counts {
      CapturedKeeps(p.store, v.c, now);
      CountedCaps(p, config, v.c, now, pending);
    } else {
      UncountedCaps(p, config, v.c, now, pending);
    }
  }

  lemma ActedCaps(p: Pipe, config: Config, v: Verdict, now: int, pending: nat)
    requires Inv(p.store) && FreshTake(p.store, v) && Within(p, config.maxEntries, pending)
    ensures Within(Acted(p, config, v, now), config.maxEntries, PendingAfter(p, v, pending))
  {
    if v.Keep? && !p.paused { KeptCaps(p, config, v, now, pending); }
  }

  lemma FreshVerdict(s: Store, config: Config, a: Arrival)
    requires a.cipher.Some? ==> !HasDigest(s.rows, Sha256(Encode(a.cipher.value)))
    ensures FreshTake(s, VerdictOn(config, a))
  {
  }

  ghost predicate FixedLimit(steps: seq<Step>, max: nat) {
    forall k :: 0 <= k < |steps| ==> steps[k].config.maxEntries == max
  }

  /** For every run of arrivals of all kinds, from any store: at most the limit, 49 rows of slack, and one
    * row for each image or file list kept since the last purge. */
  lemma {:induction false} RowsStayBounded(p: Pipe, steps: seq<Step>, max: nat)
    requires Inv(p.store) && FreshCiphers(p, steps) && FixedLimit(steps, max)
    ensures var q := Ingests(p, steps);
            Inv(q.store) && Slack(q.inserts) <= PURGE_EVERY - 1 && Within(q, max, Pending(p, steps, max))
  {
    if steps != [] {
      var init, last := steps[..|steps| - 1], steps[|steps| - 1];
      forall k | 0 <= k < |init| ensures init[..k] == steps[..k] {
      }
      RowsStayBounded(p, init, max);
      var q, v := Ingests(p, init), VerdictOn(last.config, last.arrival);
      FreshVerdict(q.store, last.config, last.arrival);
      ActedKeeps(q, last.config, v, last.arrival.now);
      ActedCaps(q, last.config, v, last.arrival.now, Pending(p, init, max));
    }
  }

  /** Whatever this arrival brings in counts towards the rhythm of purges. */
  predicate Counted(step: Step) {
    step.arrival.content.TextContent? || (!step.config.captureImages && !step.config.captureFiles)
  }

  lemma CountedVerdict(step: Step)
    requires Counted(step)
    ensures var v := VerdictOn(step.config, step.arrival); v.Keep? ==> v.counts
  {
  }

  lemma CountedAddsNothing(p: Pipe, v: Verdict, pending: nat)
    requires v.Keep? ==> v.counts
    ensures PendingAfter(p, v, pending) <= pending
  {
  }

  lemma {:induction false} CountedLeaveNothingPending(p: Pipe, steps: seq<Step>, max: nat)
    requires forall k :: 0 <= k < |steps| ==> Counted(steps[k])
    ensures Pending(p, steps, max) <= Excess(p, max)
  {
    if steps != [] {
      var init, last := steps[..|steps| - 1], steps[|steps| - 1];
      CountedLeaveNothingPending(p, init, max);
      CountedVerdict(last);
      CountedAddsNothing(Ingests(p, init), VerdictOn(last.config, last.arrival), Pending(p, init, max));
    }
  }

  /** Runs of text captures, and runs with images and file lists switched off, from a store within the
    * limit: never more than the limit and 49 rows. */
  lemma CountedStayNearTheLimit(p: Pipe, steps: seq<Step>, max: nat)
    requires Inv(p.store) && Excess(p, max) == 0 && FreshCiphers(p, steps) && FixedLimit(steps, max)
    requires forall k :: 0 <= k < |steps| ==> Counted(steps[k])
    ensures |Unpinned(Ingests(p, steps).store.rows)| <= max + PURGE_EVERY - 1
  {
    RowsStayBounded(p, steps, max);
    CountedLeaveNothingPending(p, steps, max);
  }

  // ---------- images and file lists escape the limit ----------

  predicate Uncounted(config: Config, a: Arrival) {
    && !Excluded(config, a)
    && ((a.content.ImageContent? && config.captureImages)
        || (a.content.FilesContent? && config.captureFiles && a.content.paths != []))
  }

  /** A new image or file list is one more row and brings the next purge no nearer. */
  lemma ImagesEscapeTheLimit(p: Pipe, config: Config, a: Arrival)
    requires !p.paused && Uncounted(config, a) && !HasDigest(p.store.rows, KeyOf(CaptureFor(config, a).value))
    ensures var q, r := Ingested(p, config, a), NewRow(CaptureFor(config, a).value, p.store.nextId, a.now);
            q.inserts == p.inserts && !q.paused && q.store.rows == p.store.rows + [r] && !r.pinned
  {
  }

  /** The i-th of a series of different images, or of different one-file lists. */
  function Sample(files: bool, i: nat): Arrival {
    Arrival(if files then FilesContent([Repeated('a', i + 1)]) else ImageContent("png", 1, 1, Zeros(i + 1)),
            None, Local, false, false, None, None, {}, 0)
  }

  function Repeated(c: char, n: nat): (s: string)
    ensures |s| == n
  {
    seq(n, i => c)
  }

  function Zeros(n: nat): (b: Bytes)
    ensures |b| == n
  {
    seq(n, i => 0)
  }

  function Series(config: Config, files: bool, n: nat): (steps: seq<Step>)
    ensures |steps| == n
  {
    if n == 0 then [] else Series(config, files, n - 1) + [Step(config, Sample(files, n - 1))]
  }

  function SampleKey(files: bool, i: nat): Digest {
    if files then Sha256(Encode(Repeated('a', i + 1))) else Sha256(Zeros(i + 1))
  }

  lemma SamplesDiffer(files: bool, i: nat, j: nat)
    requires i != j
    ensures SampleKey(files, i) != SampleKey(files, j)
  {
    if files && Encode(Repeated('a', i + 1)) == Encode(Repeated('a', j + 1)) {
      EncodeInjective(Repeated('a', i + 1), Repeated('a', j + 1));
    }
  }

  predicate SwitchedOn(config: Config, files: bool) {
    if files then config.captureFiles else config.captureImages
  }

  lemma SampleIsUncounted(config: Config, files: bool, i: nat)
    requires SwitchedOn(config, files)
    ensures Uncounted(config, Sample(files, i)) && CaptureFor(config, Sample(files, i)).Some?
            && KeyOf(CaptureFor(config, Sample(files, i)).value) == SampleKey(files, i)
  {
  }

  ghost predicate PiledUp(p: Pipe, files: bool, n: nat) {
    && !p.paused && p.inserts == 0 && |p.store.rows| == n && |Unpinned(p.store.rows)| == n
    && forall j :: 0 <= j < n ==> p.store.rows[j].digest == SampleKey(files, j)
  }

  lemma OneMorePiled(p: Pipe, q: Pipe, r: Row, files: bool, n: nat)
    requires PiledUp(p, files, n) && !q.paused && q.inserts == p.inserts
    requires q.store.rows == p.store.rows + [r] && !r.pinned && r.digest == SampleKey(files, n)
    ensures PiledUp(q, files, n + 1)
  {
    assert q.store.rows[..n] == p.store.rows;
  }

  lemma PileGrows(p: Pipe, config: Config, files: bool, n: nat)
    requires SwitchedOn(config, files) && PiledUp(p, files, n)
    ensures PiledUp(Ingested(p, config, Sample(files, n)), files, n + 1)
  {
    SampleIsUncounted(config, files, n);
    forall j | 0 <= j < n ensures p.store.rows[j].digest != SampleKey(files, n) {
      SamplesDiffer(files, j, n);
    }
    ImagesEscapeTheLimit(p, config, Sample(files, n));
    var r := NewRow(CaptureFor(config, Sample(files, n)).value, p.store.nextId, 0);
    OneMorePiled(p, Ingested(p, config, Sample(files, n)), r, files, n);
  }

  lemma IngestsAppend(p: Pipe, steps: seq<Step>, step: Step)
    ensures Ingests(p, steps + [step]) == Ingested(Ingests(p, steps), step.config, step.arrival)
  {
    assert (steps + [step])[..|steps|] == steps;
  }

  lemma {:induction false} SeriesPilesUp(p: Pipe, config: Config, files: bool, n: nat)
    requires SwitchedOn(config, files) && PiledUp(p, files, 0)
    ensures PiledUp(Ingests(p, Series(config, files, n)), files, n)
    decreases n
  {
    if n > 0 {
      SeriesPilesUp(p, config, files, n - 1);
      IngestsAppend(p, Series(config, files, n - 1), Step(config, Sample(files, n - 1)));
      PileGrows(Ingests(p, Series(config, files, n - 1)), config, files, n - 1);
    }
  }

  const START: Pipe := Pipe(EMPTY, false, 0, 0, 0, [])

  /** With the switch on and whatever else the configuration says, n images or n file lists make n rows
    * and no purge comes. */
  lemma UncountedPileUp(config: Config, files: bool, n: nat)
    requires SwitchedOn(config, files)
    ensures var q := Ingests(START, Series(config, files, n));
            q.inserts == 0 && |Unpinned(q.store.rows)| == n == |q.store.rows|
  {
    SeriesPilesUp(START, config, files, n);
  }

  // ---------- exactly when the limit is kept ----------

  ghost predicate Under(config: Config, steps: seq<Step>) {
    forall k :: 0 <= k < |steps| ==> steps[k].config == config
  }

  /** No run under this configuration ever leaves more than its limit and 49 rows. */
  ghost predicate StaysNear(config: Config) {
    forall steps :: Under(config, steps) && FreshCiphers(START, steps) ==>
      |Unpinned(Ingests(START, steps).store.rows)| <= config.maxEntries + PURGE_EVERY - 1
  }

  lemma {:induction false} SeriesIsUnder(config: Config, files: bool, n: nat)
    ensures Under(config, Series(config, files, n))
    ensures forall k :: 0 <= k < n ==> Series(config, files, n)[k].arrival.cipher.None?
  {
    if n > 0 { SeriesIsUnder(config, files, n - 1); }
  }

  lemma SwitchedOnGoesPast(config: Config, files: bool)
    requires SwitchedOn(config, files)
    ensures !StaysNear(config)
  {
    var n := config.maxEntries + PURGE_EVERY;
    SeriesIsUnder(config, files, n);
    UncountedPileUp(config, files, n);
  }

  /** The limit is kept in every run exactly when both switches are off. */
  lemma StaysNearIff(config: Config)
    ensures StaysNear(config) <==> !config.captureImages && !config.captureFiles
  {
    if config.captureImages {
      SwitchedOnGoesPast(config, false);
    } else if config.captureFiles {
      SwitchedOnGoesPast(config, true);
    } else {
      forall steps | Under(config, steps) && FreshCiphers(START, steps)
        ensures |Unpinned(Ingests(START, steps).store.rows)| <= config.maxEntries + PURGE_EVERY - 1
      {
        CountedStayNearTheLimit(START, steps, config.maxEntries);
      }
    }
  }
}
