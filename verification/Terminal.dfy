/** A terminal of unbounded height that continues a full row on the next: what is left on the screen after
    text, line feeds, CURSOR UP (CUU) and ERASE IN LINE (EL), sections 8.3.22 and 8.3.41 of ECMA-48. Other
    control characters that come as part of a text are recorded as such; what they do is not modelled. */
module Terminals {
  import opened Texts

  function Spaces(n: nat): (s: string)
    ensures |s| == n
  {
    seq(n, _ => ' ')
  }

  /** `line` after `c` has been written over it at column `col`. */
  function Overwritten(line: string, col: nat, c: char): string {
    if col >= |line| then line + Spaces(col - |line|) + [c] else line[col := c]
  }

  /** The rows above the cursor, and whether a text held a control character other than a line feed. */
  datatype Screen = Screen(width: Columns, text: seq<string>, foreign: bool)

  /** The screen after these lines have been printed below what it shows. */
  function Written(screen: Screen, lines: seq<string>): Screen {
    screen.(text := screen.text + Rows(screen.width, lines), foreign := screen.foreign || !AllPlain(lines))
  }

  /** The screen without its last `n` rows. */
  function Cleared(screen: Screen, n: nat): Screen
    requires n <= |screen.text|
  {
    screen.(text := screen.text[..|screen.text| - n])
  }

  lemma WrittenNothing(screen: Screen)
    ensures Written(screen, []) == screen
  {
    assert screen.text + [] == screen.text;
  }

  /** Printing twice is printing once. */
  lemma WrittenTwice(screen: Screen, a: seq<string>, b: seq<string>)
    ensures Written(Written(screen, a), b) == Written(screen, a + b)
  {
    hide Plain;
    RowsAppend(screen.width, a, b);
    Regroup(screen.text, Rows(screen.width, a), Rows(screen.width, b));
    assert forall l :: l in a + b <==> l in a || l in b;
  }

  class Terminal {
    const width: Columns
    var rows: seq<string>
    var row: nat
    var col: nat
    var foreign: bool

    constructor (width: Columns)
      ensures Ready() && View() == Screen(width, [], false)
    {
      this.width, rows, row, col, foreign := width, [""], 0, 0, false;
    }

    /** The screen shows just these rows, and the cursor is at the end of the last one. */
    ghost predicate Shows(text: seq<string>)
      reads this
    {
      && text != [] && row == |text| - 1 && row < |rows| && rows[..row + 1] == text
      && col == |text[row]| && forall r :: row < r < |rows| ==> rows[r] == ""
    }

    /** The cursor is at the start of a line, and there is nothing from there on down. */
    ghost predicate Ready()
      reads this
    {
      row < |rows| && col == 0 && forall r :: row <= r < |rows| ==> rows[r] == ""
    }

    /** What stands above the cursor. */
    ghost function View(): Screen
      reads this
      requires row <= |rows|
    {
      Screen(width, rows[..row], foreign)
    }

    method LineFeed()
      requires row < |rows|
      modifies this`rows, this`row, this`col
      ensures row == old(row) + 1 && col == 0
      ensures rows == if row < |old(rows)| then old(rows) else old(rows) + [""]
    {
      row, col := row + 1, 0;
      if row == |rows| { rows := rows + [""]; }
    }

    /** CUU: up by `n` lines, stopping at the top; the column stays. */
    method CursorUp(n: nat)
      modifies this`row
      ensures row == if n <= old(row) then old(row) - n else 0
    {
      row := if n <= row then row - n else 0;
    }

    /** EL with parameter 2: the whole line is erased; the cursor stays. */
    method EraseLine()
      requires row < |rows|
      modifies this`rows
      ensures rows == old(rows)[row := ""]
    {
      rows := rows[row := ""];
    }

    method NewRow(ghost text: seq<string>)
      requires Shows(text)
      modifies this`rows, this`row, this`col
      ensures Shows(text + [""])
    {
      LineFeed();
      assert rows[..row + 1] == rows[..row] + [rows[row]];
    }

    /** A printable character at the end of the row. */
    method Append(c: char, ghost text: seq<string>)
      requires Shows(text) && c != '\n'
      modifies this`rows, this`col
      ensures Shows(Extended(text, c))
    {
      assert rows[row] == text[row] && rows[..row] == text[..row];
      assert rows[row] + Spaces(0) + [c] == rows[row] + [c];
      rows := rows[row := Overwritten(rows[row], col, c)];
      col := col + 1;
      assert rows[..row + 1] == rows[..row] + [rows[row]];
    }

    /** One character of a text. */
    method Put(c: char, ghost text: seq<string>)
      requires Shows(text)
      modifies this
      ensures Shows(Typed(width, text, c))
      ensures foreign == (old(foreign) || !Plain([c]))
    {
      assert c in [c] && col == |text[|text| - 1]|;
      hide Shows, Overwritten;
      if c == '\n' {
        NewRow(text);
      } else {
        foreign := foreign || IsControl(c);
        if col >= width {
          NewRow(text);
          WrapExtends(text, c);
          Append(c, text + [""]);
        } else {
          Append(c, text);
        }
      }
    }

    /** A text from a fresh line on, whatever line feeds it holds. */
    method Print(s: string)
      requires Ready()
      modifies this
      ensures Shows(old(View()).text + Laid(width, s))
      ensures foreign == (old(foreign) || !Plain(s))
    {
      hide Shows, IsControl, Plain, Typed;
      ghost var above := View().text;
      StartsFresh();
      assert s[..0] == "";
      NothingPlain();
      for i := 0 to |s|
        invariant Shows(above + Laid(width, s[..i]))
        invariant foreign == (old(foreign) || !Plain(s[..i]))
      {
        assert s[..i + 1][..i] == s[..i] && s[..i + 1] == s[..i] + [s[i]];
        PlainAppend(s[..i], [s[i]]);
        TypedBelow(width, above, Laid(width, s[..i]), s[i]);
        Put(s[i], above + Laid(width, s[..i]));
      }
      assert s[..|s|] == s;
    }

    lemma StartsFresh()
      requires Ready()
      ensures Shows(View().text + [""]) && Laid(width, "") == [""]
    {
      assert rows[..row + 1] == rows[..row] + [rows[row]];
    }

    lemma EndsFresh(text: seq<string>)
      requires text != [] && Shows(text + [""])
      ensures Ready() && View() == Screen(width, text, foreign)
    {
      assert rows[..row] == rows[..row + 1][..row];
    }

    /** A text and a line feed, on a fresh line. */
    method PrintLine(s: string)
      requires Ready()
      modifies this
      ensures Ready() && View() == Written(old(View()), [s])
    {
      hide Shows, IsControl, Plain;
      ghost var above := View().text;
      Print(s);
      Put('\n', above + Laid(width, s));
      LineFeedIsPlain();
      EndsFresh(above + Laid(width, s));
      RowsOne(width, s);
    }

    method PrintLines(lines: seq<string>)
      requires Ready()
      modifies this
      ensures Ready() && View() == Written(old(View()), lines)
    {
      hide Written;
      WrittenNothing(View());
      for i := 0 to |lines|
        invariant Ready() && View() == Written(old(View()), lines[..i])
      {
        assert lines[..i + 1] == lines[..i] + [lines[i]];
        WrittenTwice(old(View()), lines[..i], [lines[i]]);
        PrintLine(lines[i]);
      }
      assert lines[..|lines|] == lines;
    }
  }

  lemma WrapExtends(rows: seq<string>, c: char)
    requires c != '\n'
    ensures Extended(rows + [""], c) == rows + [[c]]
  {
    assert (rows + [""])[..|rows|] == rows && "" + [c] == [c];
  }

  lemma NothingPlain()
    ensures Plain("")
  {
  }

  lemma LineFeedIsPlain()
    ensures Plain(['\n'])
  {
  }
}
