/** Text as a terminal sees it: line feeds, other control characters, and the rows that lines of text
    come to when some of them hold line feeds or are wider than the screen. */
module Texts {

  /** A control character: C0 with the line feed, DEL, or C1. */
  predicate IsControl(c: char) {
    c < ' ' || '\U{007F}' <= c <= '\U{009F}'
  }

  /** No control character but line feeds. */
  predicate Plain(s: string) {
    forall c :: c in s && IsControl(c) ==> c == '\n'
  }

  /** No control character at all, so it stays on one row. */
  predicate Clean(s: string) {
    forall c :: c in s ==> !IsControl(c)
  }

  /** Clean and at most `w` long. */
  predicate Short(w: nat, s: string) {
    Clean(s) && |s| <= w
  }

  predicate AllShort(w: nat, lines: seq<string>) {
    forall l :: l in lines ==> Short(w, l)
  }

  predicate AllPlain(lines: seq<string>) {
    forall l :: l in lines ==> Plain(l)
  }

  predicate AllClean(lines: seq<string>) {
    forall l :: l in lines ==> Clean(l)
  }

  lemma CleanIsPlain(s: string)
    requires Clean(s)
    ensures Plain(s) && '\n' !in s
  {
  }

  lemma CleanArePlain(lines: seq<string>)
    requires AllClean(lines)
    ensures AllPlain(lines)
  {
  }

  lemma CleanAppend(a: string, b: string)
    ensures Clean(a + b) <==> Clean(a) && Clean(b)
  {
    forall c ensures c in a + b <==> c in a || c in b {
    }
  }

  lemma PlainAppend(a: string, b: string)
    ensures Plain(a + b) <==> Plain(a) && Plain(b)
  {
    forall c ensures c in a + b <==> c in a || c in b {
    }
  }

  // -------------------------------------------------------- splitting into rows

  /** `strings.TrimRight(s, "\n")`. */
  function TrimNewlines(s: string): string {
    if s != [] && s[|s| - 1] == '\n' then TrimNewlines(s[..|s| - 1]) else s
  }

  /** The lines once `c` has been appended to the last one. */
  function Extended(lines: seq<string>, c: char): (r: seq<string>)
    requires lines != []
    ensures r != []
  {
    if c == '\n' then lines + [""] else lines[..|lines| - 1] + [lines[|lines| - 1] + [c]]
  }

  /** `strings.Split(s, "\n")`. */
  function SplitLines(s: string): (lines: seq<string>)
    ensures lines != []
  {
    if s == [] then [""] else Extended(SplitLines(s[..|s| - 1]), s[|s| - 1])
  }

  // --------------------------------------------------------- text on a screen

  /** How many characters fit on a row. */
  type Columns = n: int | 0 < n witness 1

  /** The rows once `c` has been typed at the end of the last one: a full row is continued on the next. */
  function Typed(w: Columns, rows: seq<string>, c: char): (r: seq<string>)
    requires rows != []
    ensures |r| >= |rows|
  {
    if c != '\n' && |rows[|rows| - 1]| >= w then rows + [[c]] else Extended(rows, c)
  }

  /** The rows that a text comes to. */
  function Laid(w: Columns, s: string): (rows: seq<string>)
    ensures rows != []
  {
    if s == [] then [""] else Typed(w, Laid(w, s[..|s| - 1]), s[|s| - 1])
  }

  lemma TypedBelow(w: Columns, above: seq<string>, rows: seq<string>, c: char)
    requires rows != []
    ensures Typed(w, above + rows, c) == above + Typed(w, rows, c)
  {
    var last := rows[|rows| - 1];
    assert (above + rows)[|above + rows| - 1] == last;
    if c != '\n' && |last| < w {
      assert (above + rows)[..|above + rows| - 1] == above + rows[..|rows| - 1];
    }
  }

  /** The rows that lines of text come to. */
  function Rows(w: Columns, lines: seq<string>): seq<string> {
    if lines == [] then [] else Rows(w, lines[..|lines| - 1]) + Laid(w, lines[|lines| - 1])
  }

  lemma {:induction false} RowsAppend(w: Columns, a: seq<string>, b: seq<string>)
    ensures Rows(w, a + b) == Rows(w, a) + Rows(w, b)
  {
    hide Laid;
    if b == [] {
      assert a + b == a;
    } else {
      var k := |b| - 1;
      assert (a + b)[..|a + b| - 1] == a + b[..k] && (a + b)[|a + b| - 1] == b[k];
      RowsAppend(w, a, b[..k]);
      Regroup(Rows(w, a), Rows(w, b[..k]), Laid(w, b[k]));
    }
  }

  lemma Regroup<T>(a: seq<T>, b: seq<T>, c: seq<T>)
    ensures a + (b + c) == a + b + c
  {
  }

  lemma RowsOne(w: Columns, line: string)
    ensures Rows(w, [line]) == Laid(w, line)
  {
    hide Laid;
    assert [line][..0] == [];
  }

  /** The text stays on one row. */
  predicate Fits(w: Columns, s: string) {
    '\n' !in s && |s| <= w
  }

  /** Every line stays on one row. */
  predicate Flat(w: Columns, lines: seq<string>) {
    forall l :: l in lines ==> Fits(w, l)
  }

  lemma {:induction false} OneRow(w: Columns, s: string)
    ensures |Laid(w, s)| == 1 <==> Fits(w, s)
    ensures Fits(w, s) ==> Laid(w, s) == [s]
  {
    if s == [] {
    } else {
      var k := |s| - 1;
      assert s == s[..k] + [s[k]];
      OneRow(w, s[..k]);
    }
  }

  /** Every line takes a row at least, and just one exactly when it fits. */
  lemma {:induction false} RowCount(w: Columns, lines: seq<string>)
    ensures |Rows(w, lines)| >= |lines|
    ensures |Rows(w, lines)| == |lines| <==> Flat(w, lines)
  {
    hide Laid, Flat, Fits;
    if lines == [] {
      NothingFlat(w);
    } else {
      var k := |lines| - 1;
      assert lines == lines[..k] + [lines[k]];
      RowCount(w, lines[..k]);
      OneRow(w, lines[k]);
      FlatLast(w, lines);
    }
  }

  lemma ShortIsFlat(w: Columns, lines: seq<string>)
    requires AllShort(w, lines)
    ensures Flat(w, lines) && AllPlain(lines)
  {
    hide IsControl;
    forall l | l in lines ensures Fits(w, l) && Plain(l) { CleanIsPlain(l); }
  }

  lemma NothingFlat(w: Columns)
    ensures Flat(w, [])
  {
  }

  lemma FlatLast(w: Columns, lines: seq<string>)
    requires lines != []
    ensures Flat(w, lines) <==> Flat(w, lines[..|lines| - 1]) && Fits(w, lines[|lines| - 1])
  {
    hide Fits;
    assert lines == lines[..|lines| - 1] + [lines[|lines| - 1]];
  }

  /** The first row starts as the text does. */
  lemma {:induction false} FirstRow(w: Columns, s: string)
    requires s != [] && s[0] != '\n'
    ensures Laid(w, s)[0] != [] && Laid(w, s)[0][0] == s[0]
  {
    if |s| == 1 {
      assert s[..0] == [];
    } else {
      FirstRow(w, s[..|s| - 1]);
    }
  }

  lemma {:induction false} FirstOfRows(w: Columns, lines: seq<string>)
    requires lines != [] && lines[0] != [] && lines[0][0] != '\n'
    ensures Rows(w, lines) != [] && Rows(w, lines)[0] != [] && Rows(w, lines)[0][0] == lines[0][0]
  {
    hide Laid;
    if |lines| == 1 {
      RowsOne(w, lines[0]);
      assert lines == [lines[0]];
      FirstRow(w, lines[0]);
    } else {
      FirstOfRows(w, lines[..|lines| - 1]);
    }
  }

  // ------------------------------------------------------ splitting loses nothing

  function Unsplit(lines: seq<string>): string
    requires lines != []
  {
    if |lines| == 1 then lines[0]
    else Unsplit(lines[..|lines| - 1]) + "\n" + lines[|lines| - 1]
  }

  /** Splitting loses nothing: the lines joined by newlines are the text, and none holds a newline. */
  lemma {:induction false} SplitJoins(s: string)
    ensures Unsplit(SplitLines(s)) == s
    ensures forall l :: l in SplitLines(s) ==> '\n' !in l
  {
    hide Unsplit, Extended;
    if s == [] {
      UnsplitOne("");
    } else {
      var n := |s| - 1;
      SplitJoins(s[..n]);
      UnsplitExtended(SplitLines(s[..n]), s[n]);
      ExtendedFlat(SplitLines(s[..n]), s[n]);
      assert s == s[..n] + [s[n]];
    }
  }

  lemma UnsplitOne(line: string)
    ensures Unsplit([line]) == line
  {
  }

  lemma ExtendedFlat(lines: seq<string>, c: char)
    requires lines != [] && forall l :: l in lines ==> '\n' !in l
    ensures forall l :: l in Extended(lines, c) ==> '\n' !in l
  {
    assert lines[|lines| - 1] in lines;
  }

  lemma UnsplitExtended(lines: seq<string>, c: char)
    requires lines != []
    ensures Unsplit(Extended(lines, c)) == Unsplit(lines) + [c]
  {
    hide Unsplit;
    var b := |lines| - 1;
    var typed := Extended(lines, c);
    if c == '\n' {
      assert typed[..|lines|] == lines;
      UnsplitLast(typed);
      assert Unsplit(lines) + "\n" + "" == Unsplit(lines) + ['\n'];
    } else if b == 0 {
      assert lines == [lines[0]] && typed == [lines[0] + [c]];
      UnsplitOne(lines[0]);
      UnsplitOne(lines[0] + [c]);
    } else {
      assert typed[..b] == lines[..b];
      UnsplitLast(lines);
      UnsplitLast(typed);
      Regroup(Unsplit(lines[..b]) + "\n", lines[b], [c]);
    }
  }

  lemma UnsplitLast(lines: seq<string>)
    requires |lines| > 1
    ensures Unsplit(lines) == Unsplit(lines[..|lines| - 1]) + "\n" + lines[|lines| - 1]
  {
  }

  function Newlines(n: nat): (s: string)
    ensures |s| == n && forall i :: 0 <= i < n ==> s[i] == '\n'
  {
    seq(n, _ => '\n')
  }

  /** Trimming takes away newlines at the end, all of them, and nothing else. */
  lemma {:induction false} TrimRestores(s: string) returns (k: nat)
    ensures s == TrimNewlines(s) + Newlines(k)
    ensures var t := TrimNewlines(s); t == [] || t[|t| - 1] != '\n'
  {
    if s != [] && s[|s| - 1] == '\n' {
      var n := |s| - 1;
      k := TrimRestores(s[..n]);
      assert s == s[..n] + ['\n'] && Newlines(k + 1) == Newlines(k) + ['\n'];
      k := k + 1;
    } else {
      k := 0;
      assert s == s + Newlines(0);
    }
  }

  // ------------------------------------------------------------ clean log lines

  lemma {:induction false} TrimmedPlain(s: string)
    requires Plain(s)
    ensures Plain(TrimNewlines(s))
  {
    if s != [] && s[|s| - 1] == '\n' {
      assert s == s[..|s| - 1] + [s[|s| - 1]];
      PlainAppend(s[..|s| - 1], [s[|s| - 1]]);
      TrimmedPlain(s[..|s| - 1]);
    } else {
    }
  }

  /** Splitting a plain text leaves clean lines. */
  lemma {:induction false} SplitClean(s: string)
    requires Plain(s)
    ensures AllClean(SplitLines(s))
  {
    hide Clean, Extended, IsControl, Plain;
    if s == [] {
      NothingClean();
    } else {
      var k := |s| - 1;
      assert s == s[..k] + [s[k]];
      PlainAppend(s[..k], [s[k]]);
      SplitClean(s[..k]);
      ExtendedClean(SplitLines(s[..k]), s[k]);
    }
  }

  lemma NothingClean()
    ensures Clean("")
  {
  }

  lemma ExtendedClean(lines: seq<string>, c: char)
    requires lines != [] && AllClean(lines) && Plain([c])
    ensures AllClean(Extended(lines, c))
  {
    hide IsControl;
    var b := |lines| - 1;
    assert lines[b] in lines;
    if c == '\n' {
    } else {
      assert c in [c];
      CleanAppend(lines[b], [c]);
      assert forall l :: l in Extended(lines, c) ==> l in lines || l == lines[b] + [c];
    }
  }

  // -------------------------------------------------------------------- quoting

  function HexDigit(n: nat): char
    requires n < 16
  {
    "0123456789abcdef"[n]
  }

  /** One character of a quoted string: quotes, backslashes and control characters are escaped. */
  function Escaped(c: char): string {
    match c
    case '\"' => "\\\""
    case '\\' => "\\\\"
    case '\U{0007}' => "\\a"
    case '\U{0008}' => "\\b"
    case '\t' => "\\t"
    case '\n' => "\\n"
    case '\U{000B}' => "\\v"
    case '\U{000C}' => "\\f"
    case '\r' => "\\r"
    case _ =>
      if !IsControl(c) then [c]
      else (if c <= '\U{007F}' then "\\x" else "\\u00") + [HexDigit(c as int / 16), HexDigit(c as int % 16)]
  }

  function Escapes(s: string): string {
    if s == [] then [] else Escapes(s[..|s| - 1]) + Escaped(s[|s| - 1])
  }

  /** What `%q` writes for a string. */
  function Quoted(s: string): string {
    "\"" + Escapes(s) + "\""
  }

  lemma EscapedClean(c: char)
    ensures Clean(Escaped(c))
  {
  }

  lemma {:induction false} EscapesClean(s: string)
    ensures Clean(Escapes(s))
  {
    hide Escaped, IsControl;
    if s == [] {
    } else {
      EscapesClean(s[..|s| - 1]);
      EscapedClean(s[|s| - 1]);
      CleanAppend(Escapes(s[..|s| - 1]), Escaped(s[|s| - 1]));
    }
  }

  /** A quoted text has no control character, whatever the text was. */
  lemma QuotedClean(s: string)
    ensures Clean(Quoted(s))
    ensures forall c :: c in Quoted(s) ==> 32 <= c as int < 127 || 160 <= c as int
  {
    hide IsControl, Escapes;
    EscapesClean(s);
    assert Clean("\"") by { assert !IsControl('\"') by { QuoteMark(); } }
    CleanAppend("\"", Escapes(s));
    CleanAppend("\"" + Escapes(s), "\"");
    CleanCodes(Quoted(s));
  }

  lemma CleanCodes(s: string)
    ensures Clean(s) <==> forall c :: c in s ==> 32 <= c as int < 127 || 160 <= c as int
  {
  }

  lemma QuoteMark()
    ensures !IsControl('\"')
  {
  }

  function HexValue(d: char): int {
    if '0' <= d <= '9' then d as int - '0' as int
    else if 'a' <= d <= 'f' then 10 + d as int - 'a' as int
    else 0
  }

  /** `code` stands for `c` in an interpreted string literal of Go. */
  predicate Denotes(code: string, c: char) {
    || (|code| == 1 && code == [c] && c != '\"' && c != '\\' && c != '\n')
    || (|code| == 2 && code[0] == '\\' &&
          match code[1]
          case 'a' => c as int == 7
          case 'b' => c as int == 8
          case 't' => c as int == 9
          case 'n' => c as int == 10
          case 'v' => c as int == 11
          case 'f' => c as int == 12
          case 'r' => c as int == 13
          case _ => code[1] == c && (c == '\"' || c == '\\'))
    || (|code| == 4 && code[..2] == "\\x" && c as int == 16 * HexValue(code[2]) + HexValue(code[3]))
    || (|code| == 6 && code[..4] == "\\u00" && c as int == 16 * HexValue(code[4]) + HexValue(code[5]))
  }

  lemma HexDigits(n: nat)
    requires n < 16
    ensures HexValue(HexDigit(n)) == n
  {
  }

  /** Quoting keeps every character: what is written for it denotes it. */
  lemma EscapedDenotes(c: char)
    ensures Denotes(Escaped(c), c)
  {
    hide HexValue, HexDigit;
    if IsControl(c) {
      HexDigits(c as int / 16);
      HexDigits(c as int % 16);
    }
  }

  function Concat(codes: seq<string>): string {
    if codes == [] then "" else Concat(codes[..|codes| - 1]) + codes[|codes| - 1]
  }

  /** `text` is a string literal for `s`: within quotes, one code for each character. */
  ghost predicate IsLiteralFor(text: string, s: string) {
    exists codes: seq<string> ::
      && |codes| == |s| && (forall i :: 0 <= i < |s| ==> Denotes(codes[i], s[i]))
      && text == "\"" + Concat(codes) + "\""
  }

  lemma {:induction false} EscapesDenote(s: string) returns (codes: seq<string>)
    ensures |codes| == |s| && (forall i :: 0 <= i < |s| ==> Denotes(codes[i], s[i])) && Concat(codes) == Escapes(s)
  {
    hide Denotes, Escaped;
    if s == [] {
      codes := [];
    } else {
      var k := |s| - 1;
      var before := EscapesDenote(s[..k]);
      EscapedDenotes(s[k]);
      codes := before + [Escaped(s[k])];
      assert codes[..|codes| - 1] == before;
    }
  }

  /** What is written for a string is a literal for that string. */
  lemma QuotedReads(s: string)
    ensures IsLiteralFor(Quoted(s), s)
  {
    hide Denotes, Escapes, Concat;
    var codes := EscapesDenote(s);
  }
}
