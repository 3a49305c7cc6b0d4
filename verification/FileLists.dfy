/** File lists: paths are joined with line feeds into one content, and read back by lines. */
module FileLists {

  import opened Wrappers
  import opened ClipModel
  import opened ClipInvariant
  import opened ClipReading

  function Join(paths: seq<string>): string {
    if paths == [] then ""
    else if |paths| == 1 then paths[0]
    else paths[0] + ['\n'] + Join(paths[1..])
  }

  function FirstFeed(s: string): (i: nat)
    ensures i <= |s|
    ensures i < |s| ==> s[i] == '\n'
    ensures forall k :: 0 <= k < i ==> s[k] != '\n'
  {
    if s == "" || s[0] == '\n' then 0 else 1 + FirstFeed(s[1..])
  }

  predicate EndsWithReturn(s: string) {
    s != "" && s[|s| - 1] == '\r'
  }

  function StripReturn(s: string): string {
    if EndsWithReturn(s) then s[..|s| - 1] else s
  }

  /** The lines of a text. A last line without a line feed counts unless empty, and keeps its return. */
  function Lines(s: string): seq<string>
    decreases |s|
  {
    var i := FirstFeed(s);
    if s == "" then []
    else if i == |s| then [s]
    else [StripReturn(s[..i])] + Lines(s[i + 1..])
  }

  /** What a list of paths must be like to survive the column: no path holds a line feed, none but the
    * last ends in a carriage return, and the last is not empty. */
  predicate Listable(paths: seq<string>) {
    && (forall i :: 0 <= i < |paths| ==> '\n' !in paths[i])
    && (forall i :: 0 <= i < |paths| - 1 ==> !EndsWithReturn(paths[i]))
    && (paths != [] ==> paths[|paths| - 1] != "")
  }

  lemma FirstFeedOfJoin(p: string, rest: string)
    requires '\n' !in p
    ensures FirstFeed(p + ['\n'] + rest) == |p|
  {
    var s := p + ['\n'] + rest;
    assert s[|p|] == '\n';
    assert forall k :: 0 <= k < |p| ==> s[k] == p[k];
  }

  /** One step of reading a joined list. */
  lemma LinesOfTwo(p: string, rest: string)
    requires '\n' !in p
    ensures Lines(p + ['\n'] + rest) == [StripReturn(p)] + Lines(rest)
  {
    var s := p + ['\n'] + rest;
    FirstFeedOfJoin(p, rest);
    assert s[..|p|] == p && s[|p| + 1..] == rest;
  }

  lemma LinesOfOne(p: string)
    requires '\n' !in p
    ensures Lines(p) == if p == "" then [] else [p]
  {
    assert forall k :: 0 <= k < |p| ==> p[k] != '\n';
  }

  lemma {:induction false} LinesHoldNoFeed(s: string, i: nat)
    requires i < |Lines(s)|
    ensures '\n' !in Lines(s)[i]
    decreases |s|
  {
    var f := FirstFeed(s);
    if f < |s| && i > 0 { LinesHoldNoFeed(s[f + 1..], i - 1); }
  }

  lemma {:induction false} ListableReadsBack(paths: seq<string>)
    requires forall i :: 0 <= i < |paths| ==> '\n' !in paths[i]
    ensures Lines(Join(paths)) == paths <==> Listable(paths)
  {
    if |paths| == 1 {
      LinesOfOne(paths[0]);
    } else if |paths| > 1 {
      var rest := paths[1..];
      LinesOfTwo(paths[0], Join(rest));
      ListableReadsBack(rest);
      ListableTail(paths);
      assert paths == [paths[0]] + rest;
    }
  }

  lemma ListableTail(paths: seq<string>)
    requires |paths| > 1 && '\n' !in paths[0]
    ensures Listable(paths) <==> !EndsWithReturn(paths[0]) && Listable(paths[1..])
  {
    var rest := paths[1..];
    assert forall i :: 0 <= i < |rest| ==> rest[i] == paths[i + 1];
    if !EndsWithReturn(paths[0]) && Listable(rest) {
      forall i | 0 <= i < |paths| ensures '\n' !in paths[i] {
        if i > 0 { assert paths[i] == rest[i - 1]; }
      }
      forall i | 0 <= i < |paths| - 1 ensures !EndsWithReturn(paths[i]) {
        if i > 0 { assert paths[i] == rest[i - 1]; }
      }
    }
    if Listable(paths) {
      assert Listable(rest);
    }
  }

  /** A list of paths reads back exactly when it is listable. */
  lemma PathsReadBackIff(paths: seq<string>)
    ensures Lines(Join(paths)) == paths <==> Listable(paths)
  {
    if Lines(Join(paths)) == paths {
      forall i | 0 <= i < |paths| ensures '\n' !in paths[i] {
        LinesHoldNoFeed(Join(paths), i);
      }
      ListableReadsBack(paths);
    } else if forall i :: 0 <= i < |paths| ==> '\n' !in paths[i] {
      ListableReadsBack(paths);
    }
  }

  /** The paths of a new file row come back as captured, after any later run in which it survives. */
  lemma PathsReadBack(s: Store, paths: seq<string>, app: Option<string>, origin: Origin, now: int, ops: seq<Op>)
    requires Inv(s) && Listable(paths)
    requires var c := FilesCapture(Join(paths), app, origin);
             && !HasDigest(s.rows, KeyOf(c)) && FreshFrom(Captured(s, c, now), ops)
             && HasId(RunFrom(Captured(s, c, now), ops).rows, CapturedId(s, c))
    ensures var c := FilesCapture(Join(paths), app, origin);
            var p := GetPayload(RunFrom(Captured(s, c, now), ops), CapturedId(s, c));
            p.Ok? && p.value.Some? && p.value.value.FilesPayload? && Lines(p.value.value.list) == paths
  {
    CaptureReadsBack(s, FilesCapture(Join(paths), app, origin), now, ops);
    PathsReadBackIff(paths);
  }
}
