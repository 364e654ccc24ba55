/** The watcher of a MySQL or MariaDB dump: a sliding window over the end of the stream. */
module Structure {
  import opened Text
  import opened Dumps

  const END_MARKER := "-- Dump completed"
  const KEPT_TAIL := 4096

  datatype Verdict = Sound(detail: string) | Empty | NoEndMarker

  predicate OccursAt(part: Bytes, s: Bytes, i: int) {
    0 <= i <= |s| - |part| && s[i..i + |part|] == part
  }

  predicate Occurs(part: Bytes, s: Bytes) {
    exists i | 0 <= i <= |s| :: OccursAt(part, s, i)
  }

  function TrimNewlines(s: string): (trimmed: string)
    ensures |trimmed| <= |s|
  {
    if s != "" && s[|s| - 1] == '\n' then TrimNewlines(s[..|s| - 1]) else s
  }

  /** Where the last line that is not empty begins. */
  function LineStart(of: string): (start: nat)
    ensures start <= |TrimNewlines(of)|
  {
    LastIndexOf(TrimNewlines(of), '\n') + 1
  }

  function LineAtEnd(of: string): string {
    TrimNewlines(of)[LineStart(of)..]
  }

  function LastLine(of: string): string {
    TrimSpace(LineAtEnd(of))
  }

  class EndMarkerWatcher {
    var tail: Bytes
    var seen: nat

    ghost var stream: Bytes

    ghost predicate Valid()
      reads this
    {
      tail == Last(KEPT_TAIL, stream) && seen == |stream|
    }

    constructor ()
      ensures Valid() && stream == ""
    {
      tail, seen, stream := "", 0, "";
    }

    method Write(p: Bytes) returns (n: nat)
      requires Valid()
      modifies this
      ensures Valid() && stream == old(stream) + p && n == |p|
    {
      LastOfLast(KEPT_TAIL, stream, p);
      stream := stream + p;
      seen := seen + |p|;
      tail := tail + p;
      if |tail| > KEPT_TAIL {
        tail := tail[|tail| - KEPT_TAIL..];
      }
      return |p|;
    }

    method Kept() returns (n: nat)
      requires Valid()
      ensures n == Min(KEPT_TAIL, |stream|)
    {
      n := |tail|;
    }

    /** Sound exactly when the end of the stream quotes the marker. */
    method Conclude() returns (verdict: Verdict)
      requires Valid()
      ensures verdict.Sound? <==> Occurs(END_MARKER, Last(KEPT_TAIL, stream))
      ensures verdict.Sound? ==> verdict.detail == LastLine(Last(KEPT_TAIL, stream))
      ensures verdict.Empty? <==> stream == ""
    {
      if seen == 0 {
        return Empty;
      }
      if !Occurs(END_MARKER, tail) {
        return NoEndMarker;
      }
      return Sound(LastLine(tail));
    }
  }

  // ------------------------------------------------------------------ chunks do not matter

  /** What one write leaves in a window. */
  function Slide(limit: nat, window: Bytes, p: Bytes): Bytes {
    Last(limit, window + p)
  }

  function SlideAll(limit: nat, chunks: seq<Bytes>): Bytes {
    if chunks == [] then "" else Slide(limit, SlideAll(limit, chunks[..|chunks| - 1]), chunks[|chunks| - 1])
  }

  lemma {:induction false} WindowHoldsTheEnd(limit: nat, chunks: seq<Bytes>)
    ensures SlideAll(limit, chunks) == Last(limit, Joined(chunks))
  {
    if chunks != [] {
      var earlier := chunks[..|chunks| - 1];
      WindowHoldsTheEnd(limit, earlier);
      JoinedLast(chunks);
      LastOfLast(limit, Joined(earlier), chunks[|chunks| - 1]);
    }
  }

  /** Two ways of cutting one stream leave the same window, and so the same verdict. */
  lemma ChunksDoNotMatter(limit: nat, a: seq<Bytes>, b: seq<Bytes>)
    requires Joined(a) == Joined(b)
    ensures SlideAll(limit, a) == SlideAll(limit, b)
  {
    WindowHoldsTheEnd(limit, a);
    WindowHoldsTheEnd(limit, b);
  }

  lemma OccursWithin(part: Bytes, before: Bytes, after: Bytes)
    ensures Occurs(part, before + part + after)
  {
    assert OccursAt(part, before + part + after, |before|);
  }

  /**
   * The marker is looked for in the end of the stream, not at its very end: a dump cut right
   * after a row that quotes it passes.
   */
  lemma AQuotedMarkerPasses(before: Bytes, after: Bytes)
    requires |after| + |END_MARKER| <= KEPT_TAIL
    ensures Occurs(END_MARKER, Last(KEPT_TAIL, before + END_MARKER + after))
  {
    hide Occurs;
    var stream := before + END_MARKER + after;
    var kept := |END_MARKER| + |after|;
    if |stream| > KEPT_TAIL {
      var cut := |stream| - KEPT_TAIL;
      assert stream[cut..] == before[cut..] + END_MARKER + after;
      OccursWithin(END_MARKER, before[cut..], after);
    } else {
      OccursWithin(END_MARKER, before, after);
    }
  }

  lemma OccursIn(part: Bytes, s: Bytes, i: int)
    requires OccursAt(part, s, i)
    ensures Occurs(part, s)
  {
  }

  /** The marker never spans two lines. */
  lemma TheMarkerIsOnOneLine(before: Bytes, line: Bytes)
    ensures Occurs(END_MARKER, before + "\n" + line) <==> Occurs(END_MARKER, before) || Occurs(END_MARKER, line)
  {
    hide Occurs;
    var s := before + "\n" + line;
    if Occurs(END_MARKER, before) {
      OccursSomewhere(END_MARKER, before, "", "\n" + line);
      assert "" + before + ("\n" + line) == s;
    }
    if Occurs(END_MARKER, line) {
      OccursSomewhere(END_MARKER, line, before + "\n", "");
      assert before + "\n" + line + "" == s;
    }
    if Occurs(END_MARKER, s) {
      OccursOnASide(before, line);
    }
  }

  lemma OccursSomewhere(part: Bytes, s: Bytes, before: Bytes, after: Bytes)
    requires Occurs(part, s)
    ensures Occurs(part, before + s + after)
  {
    var i :| 0 <= i <= |s| && OccursAt(part, s, i);
    assert (before + s + after)[|before| + i..|before| + i + |part|] == s[i..i + |part|];
    OccursIn(part, before + s + after, |before| + i);
  }

  /** Every character of a place where a part occurs is one of the part. */
  lemma Within(part: Bytes, s: Bytes, i: int, k: nat)
    requires OccursAt(part, s, i) && k < |s|
    ensures i <= k < i + |part| ==> s[k] in part
  {
    if i <= k < i + |part| {
      assert s[i..i + |part|][k - i] == s[k];
    }
  }

  lemma OccursOnASide(before: Bytes, line: Bytes)
    requires Occurs(END_MARKER, before + "\n" + line)
    ensures Occurs(END_MARKER, before) || Occurs(END_MARKER, line)
  {
    var s := before + "\n" + line;
    var i :| 0 <= i <= |s| && OccursAt(END_MARKER, s, i);
    hide Occurs;
    assert s[|before|] == '\n' && '\n' !in END_MARKER;
    Within(END_MARKER, s, i, |before|);
    if i + |END_MARKER| <= |before| {
      SamePlace(END_MARKER, s, i, before, i);
    } else {
      SamePlace(END_MARKER, s, i, line, i - |before| - 1);
    }
  }

  lemma SamePlace(part: Bytes, s: Bytes, i: int, t: Bytes, j: int)
    requires OccursAt(part, s, i) && 0 <= j <= |t| - |part|
    requires s[i..i + |part|] == t[j..j + |part|]
    ensures Occurs(part, t)
  {
    OccursIn(part, t, j);
  }

  // ------------------------------------------------------------------ whether it is the end that says so

  /** A dump that finished: its last line begins with the marker. */
  predicate IsFinished(stream: Bytes) {
    END_MARKER <= LineAtEnd(stream)
  }

  /** What comes before the last line, without the newline between. */
  function LinesBefore(of: string): string {
    if LineStart(of) == 0 then "" else TrimNewlines(of)[..LineStart(of) - 1]
  }

  lemma NoRoomForTheMarker()
    ensures !Occurs(END_MARKER, "")
  {
  }

  lemma {:induction false} NewlinesHoldNoMarker(s: string)
    ensures Occurs(END_MARKER, s) <==> Occurs(END_MARKER, TrimNewlines(s))
  {
    if s != "" && s[|s| - 1] == '\n' {
      hide Occurs;
      var front := s[..|s| - 1];
      NewlinesHoldNoMarker(front);
      NoRoomForTheMarker();
      assert s == front + "\n" + "";
      TheMarkerIsOnOneLine(front, "");
    }
  }

  /** The marker is in a text exactly when it is in its last line or in one before. */
  lemma TheMarkerIsInALine(s: string)
    ensures Occurs(END_MARKER, s) <==> Occurs(END_MARKER, LinesBefore(s)) || Occurs(END_MARKER, LineAtEnd(s))
  {
    hide Occurs;
    NewlinesHoldNoMarker(s);
    NoRoomForTheMarker();
    var trimmed, start := TrimNewlines(s), LineStart(s);
    if start > 0 {
      assert trimmed == trimmed[..start - 1] + "\n" + trimmed[start..];
      TheMarkerIsOnOneLine(LinesBefore(s), LineAtEnd(s));
    }
  }

  lemma BeginningsOccur(part: Bytes, s: Bytes)
    requires part <= s
    ensures Occurs(part, s)
  {
    OccursIn(part, s, 0);
  }

  /** A window speaks of its last line exactly when that begins with the marker, or no line of it holds one. */
  lemma AWindowSpeaksOfItsLastLineIff(window: Bytes)
    ensures (Occurs(END_MARKER, window) <==> IsFinished(window)) <==>
              || IsFinished(window)
              || (!Occurs(END_MARKER, LinesBefore(window)) && !Occurs(END_MARKER, LineAtEnd(window)))
  {
    hide Occurs, LineAtEnd, LinesBefore;
    TheMarkerIsInALine(window);
    if IsFinished(window) {
      BeginningsOccur(END_MARKER, LineAtEnd(window));
    }
  }

  lemma {:induction false} TrimmedSuffix(s: string, cut: nat)
    requires cut <= |TrimNewlines(s)|
    ensures TrimNewlines(s[cut..]) == TrimNewlines(s)[cut..]
  {
    if s != "" && s[|s| - 1] == '\n' {
      var front := s[..|s| - 1];
      TrimmedSuffix(front, cut);
      assert s[cut..][..|s[cut..]| - 1] == front[cut..];
    }
  }

  lemma {:induction false} OnlyNewlinesAfter(s: string, cut: nat)
    requires |TrimNewlines(s)| <= cut <= |s|
    ensures TrimNewlines(s[cut..]) == ""
  {
    if cut < |s| {
      var front := s[..|s| - 1];
      OnlyNewlinesAfter(front, cut);
      assert s[cut..][..|s[cut..]| - 1] == front[cut..];
    }
  }

  /** A window that holds the whole last line of a stream has it as its own last line. */
  lemma TheLastLineIsKept(s: string, cut: nat)
    requires cut <= LineStart(s)
    ensures LineAtEnd(s[cut..]) == LineAtEnd(s)
  {
    hide TrimNewlines;
    TrimmedSuffix(s, cut);
    var trimmed, start := TrimNewlines(s), LineStart(s);
    var rest := trimmed[start..];
    NothingAfterLastIndex(trimmed, '\n');
    assert '\n' !in rest;
    if cut < start {
      assert trimmed[cut..] == trimmed[cut..start - 1] + ['\n'] + rest;
      LastIndexOfParts(trimmed[cut..start - 1], '\n', rest);
    } else {
      NotFoundLast(rest, '\n');
    }
  }

  /** A window that begins within the last line of a stream has nothing before its own. */
  lemma TheLastLineIsCut(s: string, cut: nat)
    requires LineStart(s) < cut <= |s|
    ensures LinesBefore(s[cut..]) == ""
  {
    hide TrimNewlines;
    var trimmed := TrimNewlines(s);
    NothingAfterLastIndex(trimmed, '\n');
    if cut <= |trimmed| {
      TrimmedSuffix(s, cut);
      assert '\n' !in trimmed[cut..];
      NotFoundLast(trimmed[cut..], '\n');
    } else {
      OnlyNewlinesAfter(s, cut);
    }
  }

  /** Whether the last line of a stream, with the newlines after it, fits the window. */
  predicate LineFits(stream: Bytes) {
    |stream| - LineStart(stream) <= KEPT_TAIL
  }

  /**
   * What the program asks of the verdict is that the dump finished. For any stream it says that,
   * exactly when the last line fits the window and begins with the marker, or neither it nor a line
   * before it in the window holds one; or when that line does not fit, and its rest in the window
   * holds the marker just if its beginning is it.
   */
  lemma TheVerdictIsOfTheEndIff(stream: Bytes)
    ensures (Occurs(END_MARKER, Last(KEPT_TAIL, stream)) <==> IsFinished(stream)) <==>
              var window := Last(KEPT_TAIL, stream);
              if LineFits(stream) then
                || IsFinished(stream)
                || (!Occurs(END_MARKER, LinesBefore(window)) && !Occurs(END_MARKER, LineAtEnd(stream)))
              else IsFinished(stream) <==> Occurs(END_MARKER, LineAtEnd(window))
  {
    hide Occurs, LineAtEnd, LinesBefore, LineStart;
    var window := Last(KEPT_TAIL, stream);
    AWindowSpeaksOfItsLastLineIff(window);
    var cut := |stream| - |window|;
    assert stream[cut..] == window;
    if LineFits(stream) {
      TheLastLineIsKept(stream, cut);
    } else {
      TheLastLineIsCut(stream, cut);
      NoRoomForTheMarker();
      TheMarkerIsInALine(window);
    }
  }

  /** A dump is finished if the marker begins its last line, with or without a newline after it. */
  lemma DumpsFinishWithTheMarker(before: Bytes, rest: Bytes)
    requires '\n' !in rest
    ensures IsFinished(before + "\n" + END_MARKER + rest) && IsFinished(before + "\n" + END_MARKER + rest + "\n")
  {
    var line := END_MARKER + rest;
    var stream := before + "\n" + END_MARKER + rest;
    assert stream == before + ['\n'] + line && '\n' !in line;
    assert stream[|stream| - 1] == line[|line| - 1] && line[|line| - 1] in line;
    assert TrimNewlines(stream) == stream;
    assert (stream + "\n")[..|stream|] == stream;
    LastIndexOfParts(before, '\n', line);
    assert LineAtEnd(stream) == line && END_MARKER <= line;
  }

  /** A dump cut inside a row that quotes the marker: sound to the watcher, and not finished. */
  lemma ACutRowPasses(before: Bytes, row: Bytes, rest: Bytes)
    requires '\n' !in row && '\n' !in rest && |rest| + |END_MARKER| <= KEPT_TAIL
    ensures var stream := before + "\n('" + row + END_MARKER + rest;
      Occurs(END_MARKER, Last(KEPT_TAIL, stream)) && !IsFinished(stream)
  {
    hide Occurs;
    AQuotedMarkerPasses(before + "\n('" + row, rest);
    var line := "('" + row + END_MARKER + rest;
    var stream := before + "\n('" + row + END_MARKER + rest;
    assert stream == before + ['\n'] + line;
    assert '\n' !in line && stream[|stream| - 1] == line[|line| - 1] && line[|line| - 1] in line;
    assert TrimNewlines(stream) == stream;
    LastIndexOfParts(before, '\n', line);
    assert LineAtEnd(stream) == line && line[0] == '(';
  }
}
