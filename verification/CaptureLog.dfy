/** The row table as a function of the log of captures: a row's counters and provenance are told
  * by the captures of its content since it was created, whatever else happened in between.
  */
module CaptureLog {

  import opened Wrappers
  import opened ClipModel
  import opened ClipInvariant

  predicate CapturesDigest(op: Op, d: Digest) {
    op.Take? && KeyOf(op.c) == d
  }

  /** The captures of a content since its row was last created; empty when it has no row. */
  ghost function Since(ops: seq<Op>, d: Digest): seq<Op> {
    if ops == [] || !HasDigest(Run(ops).rows, d) then []
    else
      var last := ops[|ops| - 1];
      Since(ops[..|ops| - 1], d) + if CapturesDigest(last, d) then [last] else []
  }

  /** The first HTML a log of captures brings. */
  function FirstHtml(log: seq<Op>): Option<string> {
    if log == [] then None
    else if FirstHtml(log[..|log| - 1]).Some? then FirstHtml(log[..|log| - 1])
    else var last := log[|log| - 1]; if last.Take? then HtmlOf(last.c) else None
  }

  ghost predicate AnyLocal(log: seq<Op>) {
    exists op :: op in log && op.Take? && op.c.origin.Local?
  }

  ghost predicate AllTakes(log: seq<Op>) {
    forall i :: 0 <= i < |log| ==> log[i].Take?
  }

  /** The row the log describes. Pin, group, suggestion and dismissal are not the log's. */
  ghost predicate Tells(log: seq<Op>, r: Row) {
    && log != [] && AllTakes(log)
    && r.usage == |log| - 1
    && (r.origin.Local? <==> AnyLocal(log))
    && r.html == FirstHtml(log)
    && r.createdAt == log[|log| - 1].now
    && r.kind == KindOf(log[0].c)
    && r.content == ContentOf(log[0].c)
    && r.blob == BlobOf(log[0].c)
    && r.sourceApp == log[0].c.sourceApp
    && r.secret == log[0].c.SecretCapture?
  }

  // ---------- one more capture ----------

  lemma AnyLocalAppend(log: seq<Op>, op: Op)
    requires op.Take?
    ensures AnyLocal(log + [op]) <==> AnyLocal(log) || op.c.origin.Local?
  {
    if AnyLocal(log) {
      var x :| x in log && x.Take? && x.c.origin.Local?;
      assert x in log + [op];
    }
    assert op in log + [op];
  }

  lemma FirstHtmlAppend(log: seq<Op>, op: Op)
    requires op.Take?
    ensures FirstHtml(log + [op]) == if FirstHtml(log).Some? then FirstHtml(log) else HtmlOf(op.c)
  {
    assert (log + [op])[..|log|] == log;
  }

  lemma TouchTells(log: seq<Op>, r: Row, op: Op)
    requires Tells(log, r) && op.Take?
    ensures Tells(log + [op], Touched(r, op.c, op.now))
  {
    AnyLocalAppend(log, op);
    FirstHtmlAppend(log, op);
  }

  lemma CreationTells(op: Op, id: nat)
    requires op.Take?
    ensures Tells([op], NewRow(op.c, id, op.now))
  {
    AnyLocalAppend([], op);
    FirstHtmlAppend([], op);
    assert [] + [op] == [op];
  }

  // ---------- everything else leaves the log's part alone ----------

  /** Only what a user curates may differ. */
  predicate SameLogged(r: Row, r': Row) {
    r' == r.(pinned := r'.pinned, group := r'.group, dismissed := r'.dismissed)
  }

  ghost predicate SameLoggedRows(rows: seq<Row>, rows': seq<Row>) {
    |rows| == |rows'| && forall i :: 0 <= i < |rows| ==> SameLogged(rows[i], rows'[i])
  }

  lemma {:induction false} DecidedSameLogged(s: Store, ids: seq<nat>, accept: bool)
    ensures SameLoggedRows(s.rows, Decided(s, ids, accept).rows)
  {
    if ids != [] { DecidedSameLogged(s, ids[..|ids| - 1], accept); }
  }

  lemma FromSameLogged(rows: seq<Row>, rows': seq<Row>, r': Row)
    requires SameLoggedRows(rows, rows') && r' in rows'
    ensures exists r :: r in rows && SameLogged(r, r')
  {
    var i :| 0 <= i < |rows'| && rows'[i] == r';
    assert rows[i] in rows;
  }

  /** An operation other than a capture creates no row and keeps what the log tells of each. */
  lemma OtherKeepsLogged(s: Store, op: Op, r': Row)
    requires !op.Take? && r' in Apply(s, op).rows
    ensures exists r :: r in s.rows && SameLogged(r, r')
  {
    if op.Pin? || op.SetGroup? || op.RenameGroup? {
      FromSameLogged(s.rows, Apply(s, op).rows, r');
    } else if op.Decide? {
      DecidedSameLogged(s, op.ids, op.accept);
      FromSameLogged(s.rows, Apply(s, op).rows, r');
    } else {
      assert r' in s.rows && SameLogged(r', r');
    }
  }

  lemma HasDigestMember(rows: seq<Row>, d: Digest)
    ensures HasDigest(rows, d) <==> exists r :: r in rows && r.digest == d
  {
    if HasDigest(rows, d) {
      var i :| 0 <= i < |rows| && rows[i].digest == d;
      assert rows[i] in rows;
    }
  }

  lemma TellsSameLogged(log: seq<Op>, r: Row, r': Row)
    requires Tells(log, r) && SameLogged(r, r')
    ensures Tells(log, r')
  {
  }

  // ---------- the table tells the log ----------

  lemma NoRowNoLog(ops: seq<Op>, d: Digest)
    requires !HasDigest(Run(ops).rows, d)
    ensures Since(ops, d) == []
  {
  }

  lemma SinceStep(ops: seq<Op>, d: Digest)
    requires ops != [] && HasDigest(Run(ops).rows, d)
    ensures var last := ops[|ops| - 1];
            Since(ops, d) == Since(ops[..|ops| - 1], d) + if CapturesDigest(last, d) then [last] else []
  {
  }

  /** A row of an earlier content is told by the same log as before. */
  lemma UntouchedTells(ops: seq<Op>, r: Row)
    requires ops != [] && ops[|ops| - 1].Take? && r.digest != KeyOf(ops[|ops| - 1].c)
    requires r in Run(ops).rows && Tells(Since(ops[..|ops| - 1], r.digest), r)
    ensures Tells(Since(ops, r.digest), r)
  {
    HasDigestMember(Run(ops).rows, r.digest);
    SinceStep(ops, r.digest);
    assert Since(ops[..|ops| - 1], r.digest) + [] == Since(ops[..|ops| - 1], r.digest);
  }

  /** A repeat. */
  lemma RefreshTells(ops: seq<Op>, k: nat)
    requires ops != [] && ops[|ops| - 1].Take? && Inv(Run(ops[..|ops| - 1]))
    requires Hits(Run(ops[..|ops| - 1]), ops[|ops| - 1].c)
    requires k < |Run(ops[..|ops| - 1]).rows|
    requires Tells(Since(ops[..|ops| - 1], Run(ops[..|ops| - 1]).rows[k].digest), Run(ops[..|ops| - 1]).rows[k])
    ensures k < |Run(ops).rows| && Tells(Since(ops, Run(ops).rows[k].digest), Run(ops).rows[k])
  {
    var s, op := Run(ops[..|ops| - 1]), ops[|ops| - 1];
    var r, r' := s.rows[k], Run(ops).rows[k];
    assert r' in Run(ops).rows;
    if k == IndexOfDigest(s.rows, KeyOf(op.c)) {
      HasDigestMember(Run(ops).rows, r'.digest);
      SinceStep(ops, r'.digest);
      TouchTells(Since(ops[..|ops| - 1], r.digest), r, op);
    } else {
      UntouchedTells(ops, r');
    }
  }

  /** A new content. */
  lemma AppendTells(ops: seq<Op>)
    requires ops != [] && ops[|ops| - 1].Take?
    requires !HasDigest(Run(ops[..|ops| - 1]).rows, KeyOf(ops[|ops| - 1].c))
    ensures var s, op := Run(ops[..|ops| - 1]), ops[|ops| - 1];
            Tells(Since(ops, KeyOf(op.c)), NewRow(op.c, s.nextId, op.now))
  {
    var s, op := Run(ops[..|ops| - 1]), ops[|ops| - 1];
    assert Run(ops).rows[|s.rows|].digest == KeyOf(op.c);
    SinceStep(ops, KeyOf(op.c));
    NoRowNoLog(ops[..|ops| - 1], KeyOf(op.c));
    assert [] + [op] == [op];
    CreationTells(op, s.nextId);
  }

  /** A row touched or created by the last capture, or an earlier one. */
  lemma CaptureTells(ops: seq<Op>, r': Row)
    requires ops != [] && ops[|ops| - 1].Take?
    requires Inv(Run(ops[..|ops| - 1])) && FreshCipher(Run(ops[..|ops| - 1]), ops[|ops| - 1])
    requires forall r :: r in Run(ops[..|ops| - 1]).rows ==> Tells(Since(ops[..|ops| - 1], r.digest), r)
    requires r' in Run(ops).rows
    ensures Tells(Since(ops, r'.digest), r')
  {
    var s, op := Run(ops[..|ops| - 1]), ops[|ops| - 1];
    if Hits(s, op.c) {
      var k :| 0 <= k < |s.rows| && Run(ops).rows[k] == r';
      assert s.rows[k] in s.rows;
      RefreshTells(ops, k);
    } else if r' in s.rows {
      HasDigestMember(s.rows, r'.digest);
      UntouchedTells(ops, r');
    } else {
      AppendTells(ops);
    }
  }

  /** Over every run each row is told by the captures of its content since its creation: one row a
    * content, its repeats counted, local exactly when one of them was, the first HTML kept. */
  lemma {:induction false} TableTellsLog(ops: seq<Op>)
    requires FreshRun(ops)
    ensures forall r :: r in Run(ops).rows ==> Tells(Since(ops, r.digest), r)
  {
    if ops != [] {
      var init, op := ops[..|ops| - 1], ops[|ops| - 1];
      assert forall n :: 0 <= n < |init| ==> init[..n] == ops[..n];
      TableTellsLog(init);
      RunKeeps(init);
      forall r' | r' in Run(ops).rows ensures Tells(Since(ops, r'.digest), r') {
        if op.Take? {
          CaptureTells(ops, r');
        } else {
          OtherKeepsLogged(Run(init), op, r');
          var r :| r in Run(init).rows && SameLogged(r, r');
          HasDigestMember(Run(ops).rows, r'.digest);
          SinceStep(ops, r'.digest);
          assert Since(init, r.digest) + [] == Since(init, r.digest);
          TellsSameLogged(Since(init, r.digest), r, r');
        }
      }
    }
  }

  /** There is a row for a content exactly when the log since its creation is not empty. */
  lemma RowIffLogged(ops: seq<Op>, d: Digest)
    requires FreshRun(ops)
    ensures HasDigest(Run(ops).rows, d) <==> Since(ops, d) != []
  {
    TableTellsLog(ops);
    HasDigestMember(Run(ops).rows, d);
    if HasDigest(Run(ops).rows, d) {
      var r :| r in Run(ops).rows && r.digest == d;
      assert Tells(Since(ops, r.digest), r);
    }
  }

  /** A repeat never touches what the user curates, on any row. */
  lemma RepeatKeepsCuration(s: Store, c: Capture, now: int, i: nat)
    requires Hits(s, c) && i < |s.rows|
    ensures |Captured(s, c, now).rows| == |s.rows| && Captured(s, c, now).stack == s.stack
    ensures var r, r' := s.rows[i], Captured(s, c, now).rows[i];
            r'.pinned == r.pinned && r'.group == r.group && r'.suggested == r.suggested && r'.dismissed == r.dismissed
  {
  }
}
