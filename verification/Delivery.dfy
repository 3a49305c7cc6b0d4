/** Pasting the stack into other applications: each head is resolved, written to the system
  * clipboard and injected as key strokes, until the stack is empty or something fails.
  */
module Delivery {

  import opened Wrappers
  import opened Utf8
  import opened PasteStack
  import opened ClipModel
  import opened ClipInvariant
  import opened ClipReading
  import opened ClipStore
  import opened Backup

  datatype ReadError = Missing | Unreadable | SecretRefused | NotSecret | Undecryptable

  // ---------- the read ports ----------

  /** `paste_content`: what may be put on the clipboard. Never a secret. */
  function Resolve(s: Store, id: nat): Result<Payload, ReadError> {
    match GetPayload(s, id)
    case Err(_) => Err(Unreadable)
    case Ok(None) => Err(Missing)
    case Ok(Some(p)) => if p.SecretPayload? then Err(SecretRefused) else Ok(p)
  }

  /** `reveal_secret`: the one way to a secret's plaintext. */
  function Reveal(s: Store, id: nat, opens: Opens): Result<Bytes, ReadError> {
    match GetPayload(s, id)
    case Err(_) => Err(Unreadable)
    case Ok(None) => Err(Missing)
    case Ok(Some(p)) =>
      if !p.SecretPayload? then Err(NotSecret)
      else if p.cipher in opens then Ok(opens[p.cipher])
      else Err(Undecryptable)
  }

  /** In every reachable state each row is open to exactly one of the two ports. */
  lemma OnePortARow(s: Store, i: nat, opens: Opens)
    requires Inv(s) && i < |s.rows|
    ensures var r := s.rows[i];
            && (r.kind.Image? ==> r.blob.Some?)
            && Resolve(s, r.id) == (if r.secret then Err(SecretRefused) else Ok(Meant(r)))
            && (!r.secret <==> Reveal(s, r.id, opens) == Err(NotSecret))
            && (Reveal(s, r.id, opens).Ok? <==> r.secret && Decode(r.digest.of) in opens)
            && (Reveal(s, r.id, opens).Ok? ==> Reveal(s, r.id, opens).value == opens[Decode(r.digest.of)])
            && (r.secret && Decode(r.digest.of) !in opens ==> Reveal(s, r.id, opens) == Err(Undecryptable))
  {
    ReadBack(s, i);
    assert s.rows[i] in s.rows;
    StoredRow(s, s.rows[i]);
  }

  /** An id that no row has is missing at both ports. */
  lemma UnknownIsMissing(s: Store, id: nat, opens: Opens)
    requires !HasId(s.rows, id)
    ensures Resolve(s, id) == Err(Missing) && Reveal(s, id, opens) == Err(Missing)
  {
  }

  // ---------- the ports to the desktop ----------

  /** Which of the writes and which of the injections fail, by number. */
  datatype Ports = Ports(writeFails: set<nat>, injectFails: set<nat>)

  datatype Event =
    | Wrote(id: nat, content: Payload, ok: bool)
    | Injected(id: nat, ok: bool)

  /** Why a delivery run ended. */
  datatype Stop = Emptied | Refused | WriteFailed | InjectFailed | Broken(error: ReadError)

  /** One attempt: why it did not deliver, if so, and what it did at the ports. */
  datatype Attempt = Attempt(stop: Option<Stop>, log: seq<Event>)

  /** A stacked entry and what it resolves to. */
  datatype Item = Item(id: nat, content: Result<Payload, ReadError>)

  /** The attempt at an item whose write is the w-th and whose injection is the k-th. */
  function Attempted(item: Item, ports: Ports, w: nat, k: nat): Attempt {
    if item.content == Err(SecretRefused) then Attempt(Some(Refused), [])
    else if item.content.Err? then Attempt(Some(Broken(item.content.error)), [])
    else if w in ports.writeFails then Attempt(Some(WriteFailed), [Wrote(item.id, item.content.value, false)])
    else if k in ports.injectFails then
      Attempt(Some(InjectFailed), [Wrote(item.id, item.content.value, true), Injected(item.id, false)])
    else Attempt(None, [Wrote(item.id, item.content.value, true), Injected(item.id, true)])
  }

  /** The entries an attempt takes off the stack. */
  function TakenBy(a: Attempt): nat {
    if a.stop.None? || a.stop.value.InjectFailed? then 1 else 0
  }

  datatype Outcome = Outcome(delivered: nat, stop: Stop, log: seq<Event>)

  /** The run over a queue, from the w-th write and the k-th injection on. */
  function Deliveries(items: seq<Item>, ports: Ports, w: nat, k: nat): Outcome {
    if items == [] then Outcome(0, Emptied, [])
    else
      var a := Attempted(items[0], ports, w, k);
      if a.stop.Some? then Outcome(0, a.stop.value, a.log)
      else
        var rest := Deliveries(items[1..], ports, w + 1, k + 1);
        Outcome(rest.delivered + 1, rest.stop, a.log + rest.log)
  }

  /** How many entries leave the stack: the delivered ones, and one whose injection failed. */
  function Taken(o: Outcome): nat {
    o.delivered + if o.stop.InjectFailed? then 1 else 0
  }

  function ItemOf(s: Store, id: nat): Item {
    Item(id, Resolve(s, id))
  }

  /** The stacked entries in order, each with what it resolves to. */
  function Items(s: Store): (items: seq<Item>)
    ensures |items| == |s.stack|
    ensures forall i {:trigger items[i]} :: 0 <= i < |items| ==> items[i] == ItemOf(s, Queue(s.stack)[i])
  {
    var q := Queue(s.stack);
    seq(|q|, i requires 0 <= i < |q| => ItemOf(s, q[i]))
  }

  // ---------- what a run does ----------

  lemma {:induction false} TakenFits(items: seq<Item>, ports: Ports, w: nat, k: nat)
    ensures var o := Deliveries(items, ports, w, k);
            Taken(o) <= |items| && (o.stop.Emptied? <==> o.delivered == |items|)
  {
    if items != [] { TakenFits(items[1..], ports, w + 1, k + 1); }
  }

  function InjectedIds(log: seq<Event>): seq<nat> {
    if log == [] then []
    else (if log[0].Injected? && log[0].ok then [log[0].id] else []) + InjectedIds(log[1..])
  }

  lemma {:induction false} InjectedIdsConcat(a: seq<Event>, b: seq<Event>)
    ensures InjectedIds(a + b) == InjectedIds(a) + InjectedIds(b)
  {
    if a == [] {
      assert a + b == b;
    } else {
      assert (a + b)[1..] == a[1..] + b;
      InjectedIdsConcat(a[1..], b);
    }
  }

  lemma AttemptInjects(item: Item, ports: Ports, w: nat, k: nat)
    ensures InjectedIds(Attempted(item, ports, w, k).log) ==
            if Attempted(item, ports, w, k).stop.None? then [item.id] else []
  {
    var log := Attempted(item, ports, w, k).log;
    if |log| == 1 { assert log[1..] == []; }
    if |log| == 2 {
      assert log[1..][1..] == [];
      assert InjectedIds(log[1..]) == if log[1].Injected? && log[1].ok then [log[1].id] else [];
    }
  }

  /** The delivered entries are a prefix of the queue, in order. */
  lemma {:induction false} DeliveredIsPrefix(items: seq<Item>, ports: Ports, w: nat, k: nat)
    ensures var o := Deliveries(items, ports, w, k);
            && o.delivered <= |items| && |InjectedIds(o.log)| == o.delivered
            && forall i :: 0 <= i < o.delivered ==> InjectedIds(o.log)[i] == items[i].id
  {
    if items != [] {
      AttemptInjects(items[0], ports, w, k);
      if Attempted(items[0], ports, w, k).stop.None? {
        DeliveredIsPrefix(items[1..], ports, w + 1, k + 1);
        InjectedIdsConcat(Attempted(items[0], ports, w, k).log, Deliveries(items[1..], ports, w + 1, k + 1).log);
      }
    }
  }

  /** Each injection comes right after the successful write of the same entry. */
  lemma {:induction false} WriteThenInject(items: seq<Item>, ports: Ports, w: nat, k: nat, j: nat)
    requires j < |Deliveries(items, ports, w, k).log| && Deliveries(items, ports, w, k).log[j].Injected?
    ensures var log := Deliveries(items, ports, w, k).log;
            j > 0 && log[j - 1].Wrote? && log[j - 1].ok && log[j - 1].id == log[j].id
  {
    if j >= 2 { WriteThenInject(items[1..], ports, w + 1, k + 1, j - 2); }
  }

  lemma {:induction false} WrittenWasResolved(items: seq<Item>, ports: Ports, w: nat, k: nat, j: nat) returns (i: nat)
    requires j < |Deliveries(items, ports, w, k).log| && Deliveries(items, ports, w, k).log[j].Wrote?
    ensures var e := Deliveries(items, ports, w, k).log[j];
            i < |items| && items[i] == Item(e.id, Ok(e.content))
  {
    i := 0;
    if j >= 2 {
      i := WrittenWasResolved(items[1..], ports, w + 1, k + 1, j - 2);
      i := i + 1;
    }
  }

  /** No secret row is ever written, whatever the ports do: what is written is the full content of a
    * row that is not secret. */
  lemma NoSecretIsWritten(s: Store, ports: Ports, w: nat, k: nat, j: nat, n: nat)
    requires Inv(s) && n < |s.rows|
    requires j < |Deliveries(Items(s), ports, w, k).log| && Deliveries(Items(s), ports, w, k).log[j].Wrote?
    requires Deliveries(Items(s), ports, w, k).log[j].id == s.rows[n].id
    ensures !s.rows[n].secret
    ensures s.rows[n].kind.Image? ==> s.rows[n].blob.Some?
    ensures Deliveries(Items(s), ports, w, k).log[j].content == Meant(s.rows[n])
  {
    var i := WrittenWasResolved(Items(s), ports, w, k, j);
    OnePortARow(s, n, map[]);
  }

  function StopReason(content: Result<Payload, ReadError>, writeFails: bool, injectFails: bool): Stop {
    if content == Err(SecretRefused) then Refused
    else if content.Err? then Broken(content.error)
    else if writeFails then WriteFailed
    else if injectFails then InjectFailed
    else Emptied
  }

  /** Why a run stops: the entry it stops at is the first the queue has after the delivered ones, it is
    * a secret, or its write or its injection failed. */
  lemma {:induction false} StopsAt(items: seq<Item>, ports: Ports, w: nat, k: nat)
    ensures var o := Deliveries(items, ports, w, k);
            var d := o.delivered;
            && d <= |items|
            && o.stop == (if d == |items| then Emptied
                          else StopReason(items[d].content, w + d in ports.writeFails, k + d in ports.injectFails))
            && (d < |items| ==> !o.stop.Emptied?)
  {
    if items != [] && Attempted(items[0], ports, w, k).stop.None? {
      StopsAt(items[1..], ports, w + 1, k + 1);
    }
  }

  lemma NeverBreaks(items: seq<Item>, ports: Ports, w: nat, k: nat)
    requires forall i :: 0 <= i < |items| ==> items[i].content.Ok? || items[i].content == Err(SecretRefused)
    ensures !Deliveries(items, ports, w, k).stop.Broken?
  {
    StopsAt(items, ports, w, k);
  }

  /** A stack of live rows never breaks a run off with an error. */
  lemma LiveStackNeverBreaks(s: Store, ports: Ports, w: nat, k: nat)
    requires Inv(s)
    ensures !Deliveries(Items(s), ports, w, k).stop.Broken?
  {
    forall d | 0 <= d < |s.stack|
      ensures Items(s)[d].content.Ok? || Items(s)[d].content == Err(SecretRefused)
    {
      StackedResolves(s, d);
    }
    NeverBreaks(Items(s), ports, w, k);
  }

  lemma StackedResolves(s: Store, d: nat)
    requires Inv(s) && d < |s.stack|
    ensures Items(s)[d].content.Ok? || Items(s)[d].content == Err(SecretRefused)
  {
    var i := StackedRow(s, d);
    assert Items(s)[d] == ItemOf(s, s.rows[i].id);
    OnePortARow(s, i, map[]);
  }

  lemma StackedRow(s: Store, d: nat) returns (i: nat)
    requires Inv(s) && d < |s.stack|
    ensures i < |s.rows| && s.rows[i].id == Queue(s.stack)[d]
  {
    var id := Queue(s.stack)[d];
    assert Stacked(s.stack, id) by {
      assert id in Queue(s.stack);
      QueueMembers(s.stack);
    }
    var r :| r in s.stack && r.entryId == id;
    var l :| 0 <= l < |s.stack| && s.stack[l] == r;
    assert HasId(s.rows, s.stack[l].entryId);
    i :| 0 <= i < |s.rows| && s.rows[i].id == s.stack[l].entryId;
  }

  // ---------- a run so far ----------

  /** Where a run started. */
  datatype Run = Run(items: seq<Item>, ports: Ports, w: nat, k: nat, log: seq<Event>)

  function OutcomeOf(run: Run): Outcome {
    Deliveries(run.items, run.ports, run.w, run.k)
  }

  /** After d deliveries: what is left, and that the run of what is left completes the run. */
  ghost predicate SoFar(run: Run, d: nat, left: seq<Item>, log: seq<Event>, w: nat, k: nat) {
    && d <= |run.items| && left == run.items[d..] && w == run.w + d && k == run.k + d
    && var o, rest := OutcomeOf(run), Deliveries(left, run.ports, w, k);
       o.delivered == d + rest.delivered && o.stop == rest.stop && run.log + o.log == log + rest.log
  }

  lemma StartsRun(run: Run)
    ensures SoFar(run, 0, run.items, run.log, run.w, run.k)
  {
  }

  datatype StackDelivery = StackDelivery(id: nat, delivered: bool)
  datatype StackPasteReport = StackPasteReport(delivered: nat, failed: nat, remaining: nat)

  /** One attempt at the head: only a written head leaves the stack. */
  ghost predicate HeadTried(items: seq<Item>, ports: Ports, w: nat, k: nat, log: seq<Event>,
                            items': seq<Item>, w': nat, k': nat, log': seq<Event>,
                            r: Result<Option<StackDelivery>, ReadError>)
  {
    if items == [] then r == Ok(None) && log' == log && items' == []
    else
      var a := Attempted(items[0], ports, w, k);
      && log' == log + a.log
      && items' == items[TakenBy(a)..]
      && (a.stop.None? ==> w' == w + 1 && k' == k + 1)
      && r == (if a.stop.Some? && a.stop.value.Broken? then Err(a.stop.value.error)
               else Ok(Some(StackDelivery(items[0].id, a.stop.None?))))
  }

  /** What a whole run leaves and answers: its log, the rest of the queue, and the report. */
  ghost predicate Ended(run: Run, left: seq<Item>, log: seq<Event>, r: Result<StackPasteReport, ReadError>) {
    var o := OutcomeOf(run);
    && log == run.log + o.log
    && Taken(o) <= |run.items| && left == run.items[Taken(o)..]
    && r == (if o.stop.Broken? then Err(o.stop.error)
             else Ok(StackPasteReport(o.delivered, if o.stop.Emptied? then 0 else 1, |left|)))
  }

  predicate Delivered(r: Result<Option<StackDelivery>, ReadError>) {
    r.Ok? && r.value.Some? && r.value.value.delivered
  }

  function Report(d: nat, left: nat, r: Result<Option<StackDelivery>, ReadError>): Result<StackPasteReport, ReadError> {
    if r.Err? then Err(r.error) else Ok(StackPasteReport(d, if r.value.Some? then 1 else 0, left))
  }

  lemma GoesOn(run: Run, d: nat, left: seq<Item>, log: seq<Event>, w: nat, k: nat)
    requires SoFar(run, d, left, log, w, k) && left != [] && Attempted(left[0], run.ports, w, k).stop.None?
    ensures SoFar(run, d + 1, left[1..], log + Attempted(left[0], run.ports, w, k).log, w + 1, k + 1)
  {
    assert left[1..] == run.items[d + 1..];
    var a, rest := Attempted(left[0], run.ports, w, k), Deliveries(left[1..], run.ports, w + 1, k + 1);
    assert log + (a.log + rest.log) == (log + a.log) + rest.log;
  }

  lemma EndsEmpty(run: Run, d: nat, left: seq<Item>, log: seq<Event>, w: nat, k: nat)
    requires SoFar(run, d, left, log, w, k) && left == []
    ensures Ended(run, [], log, Ok(StackPasteReport(d, 0, 0)))
  {
    assert log + [] == log;
  }

  lemma EndsHere(run: Run, d: nat, left: seq<Item>, log: seq<Event>, w: nat, k: nat)
    requires SoFar(run, d, left, log, w, k) && left != [] && Attempted(left[0], run.ports, w, k).stop.Some?
    ensures var a := Attempted(left[0], run.ports, w, k);
            var left' := left[TakenBy(a)..];
            Ended(run, left', log + a.log,
                  if a.stop.value.Broken? then Err(a.stop.value.error) else Ok(StackPasteReport(d, 1, |left'|)))
  {
    TakenFits(run.items, run.ports, run.w, run.k);
    assert left[TakenBy(Attempted(left[0], run.ports, w, k))..] == run.items[Taken(OutcomeOf(run))..];
  }

  /** After an attempt a run is one delivery on, or at its end. */
  lemma AfterHead(run: Run, d: nat, left: seq<Item>, log: seq<Event>, w: nat, k: nat,
                  left': seq<Item>, log': seq<Event>, w': nat, k': nat, r: Result<Option<StackDelivery>, ReadError>)
    requires SoFar(run, d, left, log, w, k)
    requires HeadTried(left, run.ports, w, k, log, left', w', k', log', r)
    ensures Delivered(r) ==> SoFar(run, d + 1, left', log', w', k')
    ensures !Delivered(r) ==> Ended(run, left', log', Report(d, |left'|, r))
  {
    if left == [] {
      EndsEmpty(run, d, left, log, w, k);
    } else if Attempted(left[0], run.ports, w, k).stop.None? {
      GoesOn(run, d, left, log, w, k);
    } else {
      EndsHere(run, d, left, log, w, k);
    }
  }

  /** The report balances, a secret head or a failed write stays on the stack, and an entry whose
    * injection failed has left it. */
  lemma ReportBalances(run: Run, left: seq<Item>, log: seq<Event>, r: Result<StackPasteReport, ReadError>)
    requires Ended(run, left, log, r) && r.Ok?
    ensures var o, d := OutcomeOf(run), r.value.delivered;
            && |run.items| == d + r.value.remaining + (if o.stop.InjectFailed? then 1 else 0)
            && r.value.remaining == |left| && r.value.failed == (if o.stop.Emptied? then 0 else 1)
            && (o.stop.Refused? ==> left != [] && left[0] == run.items[d] && left[0].content == Err(SecretRefused))
            && (o.stop.WriteFailed? ==> left != [] && left[0] == run.items[d] && run.w + d in run.ports.writeFails)
            && (o.stop.InjectFailed? ==> left == run.items[d + 1..] && run.k + d in run.ports.injectFails)
            && (o.stop.Emptied? ==> left == [])
  {
    StopsAt(run.items, run.ports, run.w, run.k);
  }

  // ---------- the module ----------

  class ClipboardModule {
    const store: ClipStore
    const ports: Ports
    var log: seq<Event>
    var writes: nat
    var injects: nat

    constructor (store: ClipStore, ports: Ports)
      ensures this.store == store && this.ports == ports && log == [] && writes == 0 && injects == 0
    {
      this.store, this.ports := store, ports;
      log, writes, injects := [], 0, 0;
    }

    method WriteBack(id: nat, content: Payload) returns (ok: bool)
      modifies this`log, this`writes
      ensures ok == (old(writes) !in ports.writeFails) && writes == old(writes) + 1
      ensures log == old(log) + [Wrote(id, content, ok)]
    {
      ok := writes !in ports.writeFails;
      writes := writes + 1;
      log := log + [Wrote(id, content, ok)];
    }

    method Inject(id: nat) returns (ok: bool)
      modifies this`log, this`injects
      ensures ok == (old(injects) !in ports.injectFails) && injects == old(injects) + 1
      ensures log == old(log) + [Injected(id, ok)]
    {
      ok := injects !in ports.injectFails;
      injects := injects + 1;
      log := log + [Injected(id, ok)];
    }

    method StackDeliverHead() returns (r: Result<Option<StackDelivery>, ReadError>)
      requires DistinctEntries(store.stack)
      modifies this, store`stack
      ensures DistinctEntries(store.stack)
      ensures HeadTried(Items(old(store.State())), ports, old(writes), old(injects), old(log),
                        Items(store.State()), writes, injects, log, r)
      ensures old(store.Valid()) ==> store.Valid()
    {
      ghost var s := store.State();
      if store.stack == [] { return Ok(None); }
      var id := Queue(store.stack)[0];
      var content := Resolve(store.State(), id);
      assert Items(s)[0] == Item(id, content);
      if content == Err(SecretRefused) { return Ok(Some(StackDelivery(id, false))); }
      if content.Err? { return Err(content.error); }
      var written := WriteBack(id, content.value);
      if !written { return Ok(Some(StackDelivery(id, false))); }
      var injected := Inject(id);
      var _ := store.StackTakeNext();
      ItemsTail(s);
      return Ok(Some(StackDelivery(id, injected)));
    }

    lemma ItemsTail(s: Store)
      requires s.stack != [] && DistinctEntries(s.stack)
      ensures Items(StackTaken(s)) == Items(s)[1..]
    {
      var t := StackTaken(s);
      TakeIsHead(s.stack);
      forall i | 0 <= i < |t.stack| ensures Items(t)[i] == Items(s)[i + 1] {
        SameReads(s, t, Queue(t.stack)[i]);
      }
    }

    /** Reading an entry depends on rows and files, not on the stack. */
    lemma SameReads(s: Store, t: Store, id: nat)
      requires t.rows == s.rows && t.blobs == s.blobs
      ensures ItemOf(t, id) == ItemOf(s, id)
    {
    }

    /** Delivers until the stack is empty or one entry fails. */
    method StackPasteAll() returns (r: Result<StackPasteReport, ReadError>)
      requires DistinctEntries(store.stack)
      modifies this, store`stack
      ensures DistinctEntries(store.stack)
      ensures Ended(Run(Items(old(store.State())), ports, old(writes), old(injects), old(log)),
                    Items(store.State()), log, r)
      ensures old(store.Valid()) ==> store.Valid()
    {
      ghost var run := Run(Items(store.State()), ports, writes, injects, log);
      StartsRun(run);
      var delivered, failed := 0, 0;
      while true
        invariant DistinctEntries(store.stack) && failed == 0
        invariant SoFar(run, delivered, Items(store.State()), log, writes, injects)
        invariant old(store.Valid()) ==> store.Valid()
        decreases |run.items| - delivered
      {
        ghost var left, log0, w, k := Items(store.State()), log, writes, injects;
        var head := StackDeliverHead();
        AfterHead(run, delivered, left, log0, w, k, Items(store.State()), log, writes, injects, head);
        if head.Err? { return Err(head.error); }
        if head.value.None? { break; }
        if !head.value.value.delivered {
          failed := failed + 1;
          break;
        }
        delivered := delivered + 1;
      }
      return Ok(StackPasteReport(delivered, failed, |store.stack|));
    }
  }
}
