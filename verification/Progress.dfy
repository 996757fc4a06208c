/** The two-zone progress display on a terminal (internal/cli/progress.go): finished jobs are printed
    once above, running and pending jobs are redrawn below. */
module Progress {
  import opened Names
  import opened Model
  import opened Texts

  const MAX_FAILED_LOG_LINES: nat := 10
  const MAX_TAIL_LINES: nat := 5

  datatype JobState =
    JobState(name: Name, status: Status, startedAt: nat, duration: nat, errMsg: string, dependsOn: seq<Name>)

  datatype StepState = StepState(jobName: Name, stepName: string, status: Status, logLines: seq<string>)

  datatype Event =
    | PipelineStarted(name: string, id: string)
    | PipelineFinished
    | JobStarted(job: Name, at: nat)
    | JobFinished(job: Name, status: Status, duration: nat, error: string)
    | JobSkipped(job: Name)
    | StepStarted(job: Name, step: string)
    | StepFinished(job: Name, step: string, status: Status)
    | StepLog(job: Name, step: string, data: string)

  // ------------------------------------------------------------ text pieces

  function LastN<T>(n: nat, s: seq<T>): seq<T> {
    if |s| <= n then s else s[|s| - n..]
  }

  /** The log lines of a chunk of output: trailing newlines are dropped, and an empty text has none. */
  function LinesOf(data: string): seq<string> {
    var text := TrimNewlines(data);
    if text == "" then [] else SplitLines(text)
  }

  lemma LastNSuffix<T>(n: nat, s: seq<T>)
    ensures LastN(n, s) == s[|s| - |LastN(n, s)|..] && |LastN(n, s)| == if |s| < n then |s| else n
  {
  }

  /** The log lines of a chunk, joined by newlines, are the chunk up to newlines at its end; none holds a
      newline, and the last one is not empty. */
  lemma LinesRestore(data: string) returns (k: nat)
    ensures var lines := LinesOf(data);
      && data == (if lines == [] then "" else Unsplit(lines)) + Newlines(k)
      && (forall l :: l in lines ==> '\n' !in l)
      && (lines != [] ==> lines[|lines| - 1] != "")
  {
    hide Unsplit, TrimNewlines, SplitLines;
    var text := TrimNewlines(data);
    k := TrimRestores(data);
    if text != "" {
      SplitJoins(text);
      LastLineNonEmpty(text);
    }
  }

  lemma LastLineNonEmpty(text: string)
    requires text != [] && text[|text| - 1] != '\n'
    ensures var lines := SplitLines(text); lines[|lines| - 1] != ""
  {
  }

  function StepKey(job: Name, step: string): string { job + "/" + step }

  /** Steps of different jobs, or different steps, have different keys as long as the jobs' names hold no
      slash. */
  lemma KeysDiffer(job: Name, step: string, otherJob: Name, otherStep: string)
    requires '/' !in job && '/' !in otherJob
    ensures StepKey(job, step) == StepKey(otherJob, otherStep) ==> job == otherJob && step == otherStep
  {
    var key := StepKey(job, step);
    assert key[..|job|] == job && key[|job|] == '/' && key[|job| + 1..] == step;
    if key == StepKey(otherJob, otherStep) {
      assert key[..|otherJob|] == otherJob && key[|otherJob|] == '/' && key[|otherJob| + 1..] == otherStep;
      NoSlashWithin(key, otherJob, |job|);
      NoSlashWithin(key, job, |otherJob|);
    }
  }

  lemma NoSlashWithin(key: string, job: Name, k: nat)
    requires job <= key && '/' !in job && k < |key| && key[k] == '/'
    ensures |job| <= k
  {
    assert forall i :: 0 <= i < |job| ==> job[i] == key[i] && job[i] in job;
  }

  /** With a slash in a job's name two steps may share a key. */
  lemma KeysCollide()
    ensures StepKey("a/b", "c") == StepKey("a", "b/c")
  {
  }

  // ------------------------------------------------------------- truncateANSI

  datatype Scan = Scan(visible: nat, inEsc: bool)

  predicate IsLetter(r: char) { ('A' <= r <= 'Z') || ('a' <= r <= 'z') }

  const ESC: char := '\U{001B}'

  /** The state of the scanner after `s`: how many characters were visible, and whether an escape
      sequence is open. */
  function ScanOf(s: string): Scan {
    if s == [] then Scan(0, false)
    else
      var before, r := ScanOf(s[..|s| - 1]), s[|s| - 1];
      if before.inEsc then Scan(before.visible, !IsLetter(r))
      else if r == ESC then Scan(before.visible, true)
      else Scan(before.visible + 1, false)
  }

  /** The longest prefix with at most `width` visible characters. */
  function Truncated(s: string, width: int): string {
    if width <= 0 || s == [] then s
    else
      var t := Truncated(s[..|s| - 1], width);
      if |t| < |s| - 1 || ScanOf(s).visible > width then t else s
  }

  lemma {:induction false} ScanGrows(s: string, k: nat)
    requires k <= |s|
    ensures ScanOf(s[..k]).visible <= ScanOf(s).visible
  {
    if k == |s| {
      assert s[..k] == s;
    } else {
      ScanGrows(s[..|s| - 1], k);
      assert s[..|s| - 1][..k] == s[..k];
    }
  }

  /** Truncation keeps a prefix that fits, and every longer prefix is too wide. */
  lemma {:induction false} TruncatedIsLongest(s: string, width: int)
    ensures Truncated(s, width) <= s
    ensures width > 0 ==> ScanOf(Truncated(s, width)).visible <= width
    ensures width > 0 ==> forall k :: |Truncated(s, width)| < k <= |s| ==> ScanOf(s[..k]).visible > width
    ensures width <= 0 ==> Truncated(s, width) == s
  {
    if width <= 0 || s == [] {
    } else {
      var n := |s| - 1;
      TruncatedIsLongest(s[..n], width);
      forall k | |Truncated(s, width)| < k <= |s| ensures ScanOf(s[..k]).visible > width {
        if k == |s| {
          assert s[..k] == s;
          if |Truncated(s[..n], width)| < n {
            assert ScanOf(s[..n][..n]).visible > width && s[..n][..n] == s[..n];
            ScanGrows(s, n);
          }
        } else {
          assert s[..n][..k] == s[..k];
        }
      }
    }
  }

  lemma {:induction false} TruncatedAt(s: string, width: int, i: nat)
    requires width > 0 && i < |s|
    requires Truncated(s[..i], width) == s[..i] && ScanOf(s[..i + 1]).visible > width
    ensures Truncated(s, width) == s[..i]
  {
    if i == |s| - 1 {
      assert s[..i + 1] == s;
    } else {
      var n := |s| - 1;
      assert s[..n][..i] == s[..i] && s[..n][..i + 1] == s[..i + 1];
      TruncatedAt(s[..n], width, i);
    }
  }

  // --------------------------------------------- truncation, piece by piece

  /** What a text consists of: characters that take a column, and complete escape sequences, which end
      with the first letter after ESC. */
  datatype Piece = Glyph(c: char) | Sequence(params: string, final: char)

  predicate ValidPiece(p: Piece) {
    match p
    case Glyph(c) => c as int != 27
    case Sequence(params, final) =>
      && (forall c :: c in params ==> !('A' <= c <= 'Z' || 'a' <= c <= 'z'))
      && ('A' <= final <= 'Z' || 'a' <= final <= 'z')
  }

  ghost predicate ValidPieces(ps: seq<Piece>) {
    forall i :: 0 <= i < |ps| ==> ValidPiece(ps[i])
  }

  /** An escape sequence that has not ended, or nothing. */
  predicate ValidTail(tail: string) {
    tail == "" || (tail[0] as int == 27 && forall c :: c in tail[1..] ==> !('A' <= c <= 'Z' || 'a' <= c <= 'z'))
  }

  function Spelled(p: Piece): string {
    match p
    case Glyph(c) => [c]
    case Sequence(params, final) => ['\U{001B}'] + params + [final]
  }

  function Text(ps: seq<Piece>): string {
    if ps == [] then "" else Text(ps[..|ps| - 1]) + Spelled(ps[|ps| - 1])
  }

  /** The columns that the pieces take. */
  function Glyphs(ps: seq<Piece>): nat {
    if ps == [] then 0 else Glyphs(ps[..|ps| - 1]) + if ps[|ps| - 1].Glyph? then 1 else 0
  }

  lemma ScanNext(s: string, r: char)
    ensures var before := ScanOf(s);
      ScanOf(s + [r]) == if before.inEsc then Scan(before.visible, !('A' <= r <= 'Z' || 'a' <= r <= 'z'))
                         else if r as int == 27 then Scan(before.visible, true)
                         else Scan(before.visible + 1, false)
  {
    assert (s + [r])[..|s|] == s;
  }

  /** Within an escape sequence everything but a letter is passed over. */
  lemma {:induction false} ScanOpen(s: string, params: string)
    requires ScanOf(s).inEsc && forall c :: c in params ==> !('A' <= c <= 'Z' || 'a' <= c <= 'z')
    ensures ScanOf(s + params) == ScanOf(s)
  {
    hide ScanOf;
    if params == [] {
      assert s + params == s;
    } else {
      var k := |params| - 1;
      assert params == params[..k] + [params[k]];
      assert forall c :: c in params[..k] ==> c in params;
      ScanOpen(s, params[..k]);
      ScanNext(s + params[..k], params[k]);
      assert s + params == s + params[..k] + [params[k]];
      assert params[k] in params;
    }
  }

  /** A piece after a text without an open escape takes its column, and leaves no escape open. */
  lemma ScanPiece(s: string, p: Piece)
    requires !ScanOf(s).inEsc && ValidPiece(p)
    ensures ScanOf(s + Spelled(p)) == Scan(ScanOf(s).visible + if p.Glyph? then 1 else 0, false)
  {
    hide ScanOf;
    match p
    case Glyph(c) => ScanNext(s, c);
    case Sequence(params, final) =>
      var esc := ['\U{001B}'];
      ScanNext(s, '\U{001B}');
      ScanOpen(s + esc, params);
      ScanNext(s + esc + params, final);
      assert s + Spelled(p) == s + esc + params + [final];
  }

  lemma {:induction false} ScanText(ps: seq<Piece>)
    requires ValidPieces(ps)
    ensures ScanOf(Text(ps)) == Scan(Glyphs(ps), false)
  {
    hide ScanOf, Spelled;
    if ps == [] {
      NothingScanned();
    } else {
      ScanText(ps[..|ps| - 1]);
      ScanPiece(Text(ps[..|ps| - 1]), ps[|ps| - 1]);
    }
  }

  lemma NothingScanned()
    ensures ScanOf("") == Scan(0, false)
  {
  }

  lemma ScanTail(s: string, tail: string)
    requires !ScanOf(s).inEsc && ValidTail(tail)
    ensures ScanOf(s + tail).visible == ScanOf(s).visible
  {
    hide ScanOf;
    if tail == "" {
      assert s + tail == s;
    } else {
      ScanNext(s, tail[0]);
      ScanOpen(s + [tail[0]], tail[1..]);
      assert s + tail == s + [tail[0]] + tail[1..];
    }
  }

  lemma {:induction false} TextPrefix(ps: seq<Piece>, k: nat)
    requires k <= |ps|
    ensures Text(ps[..k]) <= Text(ps)
    ensures k < |ps| ==> Text(ps[..k]) + Spelled(ps[k]) <= Text(ps)
  {
    hide Spelled;
    if k == |ps| {
      assert ps[..k] == ps;
    } else if k == |ps| - 1 {
    } else {
      var t := ps[..|ps| - 1];
      assert t[..k] == ps[..k];
      TextPrefix(t, k);
    }
  }

  lemma FitsWhole(s: string, width: int)
    requires width > 0 && ScanOf(s).visible <= width
    ensures Truncated(s, width) == s
  {
    TruncatedIsLongest(s, width);
    assert s[..|s|] == s;
  }

  /** `r` is `s` cut before the first character for which there is no column left, with all escape sequences
      before that character, and nothing is cut if there is a column for each. */
  ghost predicate CutByPieces(s: string, width: int, r: string) {
    exists ps, tail, k :: IsCut(s, width, ps, tail, k) && r == if k == |ps| then s else Text(ps[..k])
  }

  ghost predicate IsCut(s: string, width: int, ps: seq<Piece>, tail: string, k: nat) {
    && ValidPieces(ps) && ValidTail(tail) && s == Text(ps) + tail
    && k <= |ps| && Glyphs(ps[..k]) <= width
    && (k < |ps| ==> ps[k].Glyph? && Glyphs(ps[..k]) == width)
  }

  /** However a text is read as pieces, that is where truncation cuts. */
  lemma TruncatesAtPiece(s: string, width: int, ps: seq<Piece>, tail: string, k: nat)
    requires width > 0 && IsCut(s, width, ps, tail, k)
    ensures Truncated(s, width) == if k == |ps| then s else Text(ps[..k])
  {
    hide ScanOf, Truncated, Spelled, Text, Glyphs, ValidTail;
    if k == |ps| {
      assert ps[..k] == ps;
      ScanText(ps);
      ScanTail(Text(ps), tail);
      FitsWhole(s, width);
    } else {
      var cut := Text(ps[..k]);
      ScanText(ps[..k]);
      TextPrefix(ps, k);
      ScanPiece(cut, ps[k]);
      SpelledGlyph(ps[k]);
      assert s[..|cut|] == cut && s[..|cut| + 1] == cut + [ps[k].c];
      FitsWhole(cut, width);
      TruncatedAt(s, width, |cut|);
    }
  }

  lemma SpelledGlyph(p: Piece)
    requires p.Glyph?
    ensures Spelled(p) == [p.c]
  {
  }

  /** Every text can be read as pieces. */
  lemma {:induction false} Parse(s: string) returns (ps: seq<Piece>, tail: string)
    ensures ValidPieces(ps) && ValidTail(tail) && s == Text(ps) + tail
  {
    hide Spelled, Text;
    if s == [] {
      ps, tail := [], "";
      NoPieces();
    } else {
      var c := s[|s| - 1];
      ps, tail := Parse(s[..|s| - 1]);
      assert s == s[..|s| - 1] + [c];
      if tail == "" {
        if c as int == 27 {
          tail := [c];
          assert Text(ps) + "" + [c] == Text(ps) + [c];
        } else {
          OnePieceMore(ps, Glyph(c));
          SpelledGlyph(Glyph(c));
          ps := ps + [Glyph(c)];
          assert Text(ps) + "" == Text(ps);
        }
      } else if 'A' <= c <= 'Z' || 'a' <= c <= 'z' {
        var p := Sequence(tail[1..], c);
        OnePieceMore(ps, p);
        SpelledSequence(tail, c);
        assert Text(ps) + tail + [c] == Text(ps) + (tail + [c]);
        assert Text(ps + [p]) + "" == Text(ps + [p]);
        ps, tail := ps + [p], "";
      } else {
        assert (tail + [c])[1..] == tail[1..] + [c];
        assert Text(ps) + tail + [c] == Text(ps) + (tail + [c]);
        tail := tail + [c];
      }
    }
  }

  lemma NoPieces()
    ensures Text([]) == "" && "" + "" == ""
  {
  }

  lemma OnePieceMore(ps: seq<Piece>, p: Piece)
    ensures Text(ps + [p]) == Text(ps) + Spelled(p)
    ensures Glyphs(ps + [p]) == Glyphs(ps) + if p.Glyph? then 1 else 0
  {
    assert (ps + [p])[..|ps|] == ps;
  }

  lemma SpelledSequence(tail: string, c: char)
    requires tail != "" && tail[0] as int == 27
    ensures Spelled(Sequence(tail[1..], c)) == tail + [c]
  {
    assert tail == [tail[0]] + tail[1..];
  }

  /** And there is a place to cut. */
  lemma {:induction false} FindCut(ps: seq<Piece>, width: int) returns (k: nat)
    requires width > 0
    ensures k <= |ps| && Glyphs(ps[..k]) <= width && (k < |ps| ==> ps[k].Glyph? && Glyphs(ps[..k]) == width)
  {
    if ps == [] {
      k := 0;
    } else {
      var n := |ps| - 1;
      k := FindCut(ps[..n], width);
      assert ps[..n][..k] == ps[..k];
      if k == n {
        assert ps[..|ps|] == ps;
        if ps[n].Glyph? && Glyphs(ps[..n]) == width {
        } else {
          k := n + 1;
        }
      }
    }
  }

  lemma TruncatedByPieces(s: string, width: int)
    requires width > 0
    ensures CutByPieces(s, width, Truncated(s, width))
  {
    hide Truncated, Text, Glyphs, ValidPieces, ValidTail;
    var ps, tail := Parse(s);
    var k := FindCut(ps, width);
    TruncatesAtPiece(s, width, ps, tail, k);
  }

  method TruncateANSI(s: string, width: int) returns (r: string)
    ensures r == Truncated(s, width)
    ensures if width > 0 then CutByPieces(s, width, r) else r == s
  {
    hide CutByPieces;
    if width <= 0 { return s; }
    TruncatedByPieces(s, width);
    var visible, inEsc := 0, false;
    for i := 0 to |s|
      invariant ScanOf(s[..i]) == Scan(visible, inEsc) && visible <= width
      invariant Truncated(s[..i], width) == s[..i]
    {
      assert s[..i + 1][..i] == s[..i];
      var c := s[i];
      if inEsc {
        if IsLetter(c) { inEsc := false; }
      } else if c == ESC {
        inEsc := true;
      } else {
        visible := visible + 1;
        if visible > width {
          TruncatedAt(s, width, i);
          return s[..i];
        }
      }
      FitsStill(s, width, i);
    }
    assert s[..|s|] == s;
    return s;
  }

  lemma FitsStill(s: string, width: int, i: nat)
    requires width > 0 && i < |s| && Truncated(s[..i], width) == s[..i]
    ensures ScanOf(s[..i + 1]).visible <= width ==> Truncated(s[..i + 1], width) == s[..i + 1]
  {
    assert s[..i + 1][..i] == s[..i];
  }
}
