/**
 * What `Canvas.Frame` (rendermaps/canvas.go) writes, first as a sequence of
 * terminal tokens (a reset, a colour escape, a glyph, a line break) and then
 * flattened to the string. The properties of the frame (its rows, its glyphs,
 * the colour in force at each glyph) are proved on the tokens.
 */
module Frames {

  import opened Cells
  import opened Seqs

  datatype Token = Reset | Code(code: string) | Glyph(g: char) | Newline

  /** `termReset`. */
  const ResetText: string := "\U{1B}[0m"

  function TokenText(t: Token): string {
    match t
    case Reset => ResetText
    case Code(s) => s
    case Glyph(g) => [g]
    case Newline => "\n"
  }

  function Flatten(ts: seq<Token>): string
    decreases |ts|
  {
    if ts == [] then [] else Flatten(ts[..|ts| - 1]) + TokenText(ts[|ts| - 1])
  }

  lemma FlattenSnoc(a: seq<Token>, t: Token)
    ensures Flatten(a + [t]) == Flatten(a) + TokenText(t)
  {
    var all := a + [t];
    assert all[..|all| - 1] == a;
    assert all[|all| - 1] == t;
  }

  lemma {:induction false} FlattenAppend(a: seq<Token>, b: seq<Token>)
    ensures Flatten(a + b) == Flatten(a) + Flatten(b)
    decreases |b|
  {
    if b == [] {
      RightUnit(a);
      RightUnit(Flatten(a));
    } else {
      var init, last := b[..|b| - 1], b[|b| - 1];
      FlattenAppend(a, init);
      SplitLast(b);
      FlattenAppendStep(a, init, last);
    }
  }

  lemma FlattenAppendStep(a: seq<Token>, init: seq<Token>, last: Token)
    requires Flatten(a + init) == Flatten(a) + Flatten(init)
    ensures Flatten(a + (init + [last])) == Flatten(a) + Flatten(init + [last])
  {
    Assoc(a, init, [last]);
    FlattenSnoc(a + init, last);
    FlattenSnoc(init, last);
    Assoc(Flatten(a), Flatten(init), TokenText(last));
  }

  /** The colour escape stored for a cell; a cell without one has the empty code. */
  function ColorAt(c: Cells, i: int): string {
    if i in c.colors then c.colors[i] else ""
  }

  /** The character shown for a cell: its override character, else the braille glyph of its dots,
      else a blank. */
  function GlyphAt(c: Cells, i: int): char {
    if i in c.chars then c.chars[i]
    else if 0 <= i < |c.pixels| && c.pixels[i] != 0 then (0x2800 + c.pixels[i] as int) as char
    else ' '
  }

  /** The tokens written before a cell whose colour is `code` while `cur` is in force. */
  function Switch(code: string, cur: string): seq<Token> {
    if code == cur then [] else if code != "" then [Reset, Code(code)] else [Reset]
  }

  /** `currentColor` after the first `n` cells of the row starting at cell `base` (it starts each row empty). */
  function CurAfter(c: Cells, base: int, n: nat): string {
    if n == 0 then "" else ColorAt(c, base + n - 1)
  }

  /** The tokens of the first `n` cells of the row starting at cell `base`. */
  function RowTokens(c: Cells, base: int, n: nat): seq<Token>
    decreases n
  {
    if n == 0 then []
    else
      RowTokens(c, base, n - 1) + Switch(ColorAt(c, base + n - 1), CurAfter(c, base, n - 1)) +
      [Glyph(GlyphAt(c, base + n - 1))]
  }

  /** A whole row: its cells, a reset, and a line break unless it is the last row. */
  function RowLine(c: Cells, cols: nat, rows: nat, y: nat): seq<Token> {
    RowTokens(c, y * cols, cols) + [Reset] + (if y + 1 < rows then [Newline] else [])
  }

  /** The tokens of the first `n` rows. */
  function FrameTokens(c: Cells, cols: nat, rows: nat, n: nat): seq<Token>
    decreases n
  {
    if n == 0 then [] else FrameTokens(c, cols, rows, n - 1) + RowLine(c, cols, rows, n - 1)
  }

  /** The whole frame of a canvas `cols` cells wide and `rows` cells tall: the glyphs of all
      `rows * cols` cells in order, `rows - 1` line breaks, and a final reset. */
  function FrameOf(c: Cells, cols: nat, rows: nat): (r: seq<Token>)
    ensures Glyphs(r) == seq(rows * cols, i => GlyphAt(c, i))
    ensures CountNewlines(r) == Max0(rows - 1)
    ensures rows > 0 ==> |r| > 0 && r[|r| - 1] == Reset
  {
    FrameShape(c, cols, rows, rows);
    FrameTokens(c, cols, rows, rows)
  }

  function GlyphOf(t: Token): seq<char> {
    if t.Glyph? then [t.g] else []
  }

  function Glyphs(ts: seq<Token>): seq<char>
    decreases |ts|
  {
    if ts == [] then [] else Glyphs(ts[..|ts| - 1]) + GlyphOf(ts[|ts| - 1])
  }

  function CountNewlines(ts: seq<Token>): nat
    decreases |ts|
  {
    if ts == [] then 0 else CountNewlines(ts[..|ts| - 1]) + (if ts[|ts| - 1] == Newline then 1 else 0)
  }

  /** The colour a terminal has in force after reading the tokens: a reset clears it, an escape sets it. */
  function Active(ts: seq<Token>): string
    decreases |ts|
  {
    if ts == [] then ""
    else
      match ts[|ts| - 1]
      case Reset => ""
      case Code(s) => s
      case _ => Active(ts[..|ts| - 1])
  }

  lemma Snoc(a: seq<Token>, t: Token)
    ensures Glyphs(a + [t]) == Glyphs(a) + GlyphOf(t)
    ensures CountNewlines(a + [t]) == CountNewlines(a) + (if t == Newline then 1 else 0)
  {
    var all := a + [t];
    assert all[..|all| - 1] == a;
    assert all[|all| - 1] == t;
  }

  lemma SnocActive(a: seq<Token>, t: Token)
    ensures Active(a + [t]) == match t case Reset => "" case Code(s) => s case _ => Active(a)
  {
    assert (a + [t])[..|a + [t]| - 1] == a;
  }

  lemma {:induction false} GlyphsAppend(a: seq<Token>, b: seq<Token>)
    ensures Glyphs(a + b) == Glyphs(a) + Glyphs(b)
    ensures CountNewlines(a + b) == CountNewlines(a) + CountNewlines(b)
    decreases |b|
  {
    if b == [] {
      RightUnit(a);
      RightUnit(Glyphs(a));
    } else {
      var init, last := b[..|b| - 1], b[|b| - 1];
      GlyphsAppend(a, init);
      SplitLast(b);
      GlyphsAppendStep(a, init, last);
    }
  }

  lemma GlyphsAppendStep(a: seq<Token>, init: seq<Token>, last: Token)
    requires Glyphs(a + init) == Glyphs(a) + Glyphs(init)
    requires CountNewlines(a + init) == CountNewlines(a) + CountNewlines(init)
    ensures Glyphs(a + (init + [last])) == Glyphs(a) + Glyphs(init + [last])
    ensures CountNewlines(a + (init + [last])) == CountNewlines(a) + CountNewlines(init + [last])
  {
    Assoc(a, init, [last]);
    Snoc(a + init, last);
    Snoc(init, last);
    Assoc(Glyphs(a), Glyphs(init), GlyphOf(last));
  }

  /** A colour switch holds no glyph and no line break, and leaves the new colour in force. */
  lemma SwitchTokens(pre: seq<Token>, code: string, cur: string)
    requires Active(pre) == cur
    ensures Glyphs(pre + Switch(code, cur)) == Glyphs(pre)
    ensures CountNewlines(pre + Switch(code, cur)) == CountNewlines(pre)
    ensures Active(pre + Switch(code, cur)) == code
  {
    if code == cur {
      assert pre + Switch(code, cur) == pre;
    } else {
      Snoc(pre, Reset);
      SnocActive(pre, Reset);
      if code != "" {
        assert pre + Switch(code, cur) == (pre + [Reset]) + [Code(code)];
        Snoc(pre + [Reset], Code(code));
        SnocActive(pre + [Reset], Code(code));
      }
    }
  }

  /** The row starting at cell `base` shows the glyphs of its `n` cells, left to right, holds no line
      break, and ends with the colour of its last cell in force. */
  lemma {:induction false} RowGlyphs(c: Cells, base: int, n: nat)
    ensures Glyphs(RowTokens(c, base, n)) == seq(n, i => GlyphAt(c, base + i))
    ensures CountNewlines(RowTokens(c, base, n)) == 0
    ensures Active(RowTokens(c, base, n)) == CurAfter(c, base, n)
    decreases n
  {
    if n > 0 {
      RowGlyphs(c, base, n - 1);
      RowGlyphsStep(c, base, n);
    }
  }

  lemma RowGlyphsStep(c: Cells, base: int, n: nat)
    requires n > 0
    requires Glyphs(RowTokens(c, base, n - 1)) == seq(n - 1, i => GlyphAt(c, base + i))
    requires CountNewlines(RowTokens(c, base, n - 1)) == 0
    requires Active(RowTokens(c, base, n - 1)) == CurAfter(c, base, n - 1)
    ensures Glyphs(RowTokens(c, base, n)) == seq(n, i => GlyphAt(c, base + i))
    ensures CountNewlines(RowTokens(c, base, n)) == 0
    ensures Active(RowTokens(c, base, n)) == CurAfter(c, base, n)
  {
    var pre := RowTokens(c, base, n - 1);
    var code := ColorAt(c, base + n - 1);
    var sw := Switch(code, CurAfter(c, base, n - 1));
    var g := GlyphAt(c, base + n - 1);
    assert RowTokens(c, base, n) == pre + sw + [Glyph(g)];
    SwitchTokens(pre, code, CurAfter(c, base, n - 1));
    Snoc(pre + sw, Glyph(g));
    SnocActive(pre + sw, Glyph(g));
    GlyphSeqSnoc(c, base, n);
  }

  lemma GlyphSeqSnoc(c: Cells, base: int, n: nat)
    requires n > 0
    ensures seq(n - 1, i => GlyphAt(c, base + i)) + [GlyphAt(c, base + n - 1)] == seq(n, i => GlyphAt(c, base + i))
  {
  }

  /** Run-length colour switching is sound: when the glyph of cell `n - 1` of a row is written, the
      colour in force is that cell's own colour. */
  lemma RowColours(c: Cells, base: int, n: nat)
    requires n > 0
    ensures Active(RowTokens(c, base, n - 1) + Switch(ColorAt(c, base + n - 1), CurAfter(c, base, n - 1))) ==
      ColorAt(c, base + n - 1)
  {
    RowActive(c, base, n - 1);
    SwitchTokens(RowTokens(c, base, n - 1), ColorAt(c, base + n - 1), CurAfter(c, base, n - 1));
  }

  /** After the first `n` cells of a row the colour in force is that of cell `n - 1`. */
  lemma {:induction false} RowActive(c: Cells, base: int, n: nat)
    ensures Active(RowTokens(c, base, n)) == CurAfter(c, base, n)
    decreases n
  {
    if n > 0 {
      RowActive(c, base, n - 1);
      var pre := RowTokens(c, base, n - 1);
      var sw := Switch(ColorAt(c, base + n - 1), CurAfter(c, base, n - 1));
      var g := GlyphAt(c, base + n - 1);
      assert RowTokens(c, base, n) == pre + sw + [Glyph(g)];
      SwitchTokens(pre, ColorAt(c, base + n - 1), CurAfter(c, base, n - 1));
      SnocActive(pre + sw, Glyph(g));
    }
  }

  /** An escape is written before a cell exactly when its colour differs from the one in force. */
  lemma SwitchOnlyOnChange(code: string, cur: string)
    ensures Switch(code, cur) == [] <==> code == cur
    ensures Switch(code, cur) != [] ==> Switch(code, cur)[0] == Reset && Active(Switch(code, cur)) == code
  {
    if code != cur {
      SnocActive([], Reset);
      if code != "" {
        SnocActive([Reset], Code(code));
      }
    }
  }

  function Max0(a: int): nat {
    if a < 0 then 0 else a
  }

  /** The frame is `rows` rows separated by `rows - 1` line breaks, row `y` reading the glyphs of
      cells `y * cols` to `y * cols + cols - 1`; it ends in a reset and never in a line break. */
  lemma FrameShape(c: Cells, cols: nat, rows: nat, n: nat)
    requires n <= rows
    ensures FrameShaped(c, cols, rows, n)
  {
    var y := 0;
    while y < n
      invariant y <= n && FrameShaped(c, cols, rows, y)
    {
      FrameShapeStep(c, cols, rows, y);
      y := y + 1;
    }
  }

  /** The first `n` rows of a frame: the glyphs of cells `0 .. n * cols - 1` in order, one line break
      after each row but the last of the frame, and a last token that is that line break, or the
      final reset once all `rows` rows are written. */
  ghost predicate FrameShaped(c: Cells, cols: nat, rows: nat, n: nat) {
    var f := FrameTokens(c, cols, rows, n);
    Glyphs(f) == seq(n * cols, i => GlyphAt(c, i)) &&
    CountNewlines(f) == (if n == rows then Max0(n - 1) else n) &&
    (n > 0 ==> f[|f| - 1] == (if n == rows then Reset else Newline))
  }

  lemma FrameShapeStep(c: Cells, cols: nat, rows: nat, y: nat)
    requires y < rows && FrameShaped(c, cols, rows, y)
    ensures FrameShaped(c, cols, rows, y + 1)
  {
    RowLineShape(c, cols, rows, y);
    var pre := FrameTokens(c, cols, rows, y);
    var line := RowLine(c, cols, rows, y);
    assert FrameTokens(c, cols, rows, y + 1) == pre + line;
    GlyphsAppend(pre, line);
    RowCells(c, y, cols);
  }

  /** One row: the glyphs of its cells, then a reset, then a line break unless it is the last row. */
  lemma RowLineShape(c: Cells, cols: nat, rows: nat, y: nat)
    ensures Glyphs(RowLine(c, cols, rows, y)) == seq(cols, i => GlyphAt(c, y * cols + i))
    ensures CountNewlines(RowLine(c, cols, rows, y)) == if y + 1 < rows then 1 else 0
    ensures |RowLine(c, cols, rows, y)| > 0
    ensures RowLine(c, cols, rows, y)[|RowLine(c, cols, rows, y)| - 1] == if y + 1 < rows then Newline else Reset
  {
    var base := y * cols;
    RowGlyphs(c, base, cols);
    var row := RowTokens(c, base, cols);
    Snoc(row, Reset);
    if y + 1 < rows {
      assert RowLine(c, cols, rows, y) == row + [Reset] + [Newline];
      Snoc(row + [Reset], Newline);
    } else {
      assert RowLine(c, cols, rows, y) == row + [Reset];
    }
  }

  /** The glyphs of rows `0 .. y` are those of cells `0 .. (y + 1) * cols - 1`. */
  lemma RowCells(c: Cells, y: nat, cols: nat)
    ensures seq(y * cols, i => GlyphAt(c, i)) + seq(cols, i => GlyphAt(c, y * cols + i)) ==
      seq((y + 1) * cols, i => GlyphAt(c, i))
  {
    assert (y + 1) * cols == y * cols + cols;
  }

  /** A row of cells that all share one non-empty colour is written with one escape and one reset. */
  lemma {:induction false} UniformRow(c: Cells, base: int, n: nat, code: string)
    requires code != ""
    requires forall i | base <= i < base + n :: ColorAt(c, i) == code
    ensures n > 0 ==> RowTokens(c, base, n) == [Reset, Code(code)] + seq(n, i => Glyph(GlyphAt(c, base + i)))
    decreases n
  {
    if n > 1 {
      UniformRow(c, base, n - 1, code);
      assert ColorAt(c, base + n - 2) == code;
      assert ColorAt(c, base + n - 1) == code;
      var gs := seq(n - 1, i => Glyph(GlyphAt(c, base + i)));
      assert gs + [Glyph(GlyphAt(c, base + n - 1))] == seq(n, i => Glyph(GlyphAt(c, base + i)));
    } else if n == 1 {
      assert ColorAt(c, base) == code;
    }
  }

  /** One more cell of a row, as text. */
  lemma CellTokens(c: Cells, base: int, n: nat)
    requires n > 0
    ensures Flatten(RowTokens(c, base, n)) ==
      Flatten(RowTokens(c, base, n - 1)) + Flatten(Switch(ColorAt(c, base + n - 1), CurAfter(c, base, n - 1))) +
      [GlyphAt(c, base + n - 1)]
  {
    var pre := RowTokens(c, base, n - 1);
    var sw := Switch(ColorAt(c, base + n - 1), CurAfter(c, base, n - 1));
    var g := Glyph(GlyphAt(c, base + n - 1));
    assert RowTokens(c, base, n) == pre + sw + [g];
    FlattenAppend(pre + sw, [g]);
    FlattenAppend(pre, sw);
    assert Flatten([g]) == Flatten([]) + TokenText(g);
  }

  lemma SwitchText(code: string, cur: string)
    ensures Flatten(Switch(code, cur)) == if code == cur then "" else ResetText + (if code != "" then code else "")
  {
    if code != cur {
      if code != "" {
        FlattenTwo(Reset, Code(code));
      } else {
        FlattenOne(Reset);
      }
    }
  }

  lemma FlattenOne(t: Token)
    ensures Flatten([t]) == TokenText(t)
  {
    assert [t][..0] == [];
  }

  lemma FlattenTwo(t: Token, u: Token)
    ensures Flatten([t, u]) == TokenText(t) + TokenText(u)
  {
    assert [t, u][..1] == [t];
    FlattenOne(t);
  }

  /** One more row of the frame, as text. */
  lemma FrameText(c: Cells, cols: nat, rows: nat, y: nat)
    ensures Flatten(FrameTokens(c, cols, rows, y + 1)) ==
      Flatten(FrameTokens(c, cols, rows, y)) + Flatten(RowLine(c, cols, rows, y))
  {
    FlattenAppend(FrameTokens(c, cols, rows, y), RowLine(c, cols, rows, y));
  }

  lemma RowLineText(c: Cells, cols: nat, rows: nat, y: nat)
    ensures Flatten(RowLine(c, cols, rows, y)) ==
      Flatten(RowTokens(c, y * cols, cols)) + ResetText + (if y + 1 < rows then "\n" else "")
  {
    var row := RowTokens(c, y * cols, cols);
    FlattenAppend(row, [Reset]);
    assert Flatten([Reset]) == Flatten([]) + ResetText;
    if y + 1 < rows {
      assert RowLine(c, cols, rows, y) == (row + [Reset]) + [Newline];
      FlattenAppend(row + [Reset], [Newline]);
      assert Flatten([Newline]) == Flatten([]) + "\n";
    } else {
      assert RowLine(c, cols, rows, y) == row + [Reset];
    }
  }

  /** The text of the first `n` cells of the row starting at cell `base`, as the frame loop builds it. */
  function RowString(c: Cells, base: int, n: nat): string
    decreases n
  {
    if n == 0 then ""
    else
      RowString(c, base, n - 1) + Flatten(Switch(ColorAt(c, base + n - 1), CurAfter(c, base, n - 1))) +
      [GlyphAt(c, base + n - 1)]
  }

  /** One more cell of the row text, and the colour in force after it. */
  lemma RowStringStep(c: Cells, base: int, x: nat)
    ensures RowString(c, base, x + 1) ==
      RowString(c, base, x) + Flatten(Switch(ColorAt(c, base + x), CurAfter(c, base, x))) + [GlyphAt(c, base + x)]
    ensures CurAfter(c, base, x + 1) == ColorAt(c, base + x)
  {
  }

  /** The text of the first `n` rows, as the frame loop builds it. */
  function FrameString(c: Cells, cols: nat, rows: nat, n: nat): string
    decreases n
  {
    if n == 0 then ""
    else FrameString(c, cols, rows, n - 1) + RowString(c, (n - 1) * cols, cols) + ResetText + (if n < rows then "\n" else "")
  }

  /** The row text is the text of the row's tokens. */
  lemma {:induction false} RowStringTokens(c: Cells, base: int, n: nat)
    ensures RowString(c, base, n) == Flatten(RowTokens(c, base, n))
    decreases n
  {
    if n > 0 {
      RowStringTokens(c, base, n - 1);
      CellTokens(c, base, n);
      var sw := Flatten(Switch(ColorAt(c, base + n - 1), CurAfter(c, base, n - 1)));
      var g := [GlyphAt(c, base + n - 1)];
      JoinCell(RowString(c, base, n), RowString(c, base, n - 1), Flatten(RowTokens(c, base, n)),
        Flatten(RowTokens(c, base, n - 1)), sw, g);
    }
  }

  /** Both texts of a row grow by the same cell. */
  lemma JoinCell(text: string, textBefore: string, flat: string, flatBefore: string, switch: string, glyph: string)
    requires text == textBefore + switch + glyph && textBefore == flatBefore && flat == flatBefore + switch + glyph
    ensures text == flat
  {
  }

  /** The frame text is the text of the frame's tokens. */
  lemma FrameStringTokens(c: Cells, cols: nat, rows: nat, n: nat)
    ensures FrameString(c, cols, rows, n) == Flatten(FrameTokens(c, cols, rows, n))
  {
    var y := 0;
    while y < n
      invariant y <= n
      invariant FrameString(c, cols, rows, y) == Flatten(FrameTokens(c, cols, rows, y))
    {
      FrameStringTokensStep(c, cols, rows, y);
      y := y + 1;
    }
  }

  lemma FrameStringTokensStep(c: Cells, cols: nat, rows: nat, y: nat)
    requires FrameString(c, cols, rows, y) == Flatten(FrameTokens(c, cols, rows, y))
    ensures FrameString(c, cols, rows, y + 1) == Flatten(FrameTokens(c, cols, rows, y + 1))
  {
    var nl := if y + 1 < rows then "\n" else "";
    var text, textBefore, row := FrameString(c, cols, rows, y + 1), FrameString(c, cols, rows, y), RowString(c, y * cols, cols);
    var flat, flatBefore := Flatten(FrameTokens(c, cols, rows, y + 1)), Flatten(FrameTokens(c, cols, rows, y));
    var flatLine, flatRow := Flatten(RowLine(c, cols, rows, y)), Flatten(RowTokens(c, y * cols, cols));
    RowStringTokens(c, y * cols, cols);
    FrameText(c, cols, rows, y);
    RowLineText(c, cols, rows, y);
    FrameStringUnfold(c, cols, rows, y);
    JoinRow(text, textBefore, row, flat, flatBefore, flatLine, flatRow, nl);
  }

  /** The frame loop's text after row `y`: the row, a reset, and a line break unless it is the last row. */
  lemma FrameStep(c: Cells, cols: nat, rows: nat, y: nat, sb: string, row: string)
    requires y < rows && sb == FrameString(c, cols, rows, y) && row == RowString(c, y * cols, cols)
    ensures FrameString(c, cols, rows, y + 1) == if y < rows - 1 then sb + row + ResetText + "\n" else sb + row + ResetText
  {
    FrameStringUnfold(c, cols, rows, y);
    RightUnit(sb + row + ResetText);
  }

  lemma FrameStringUnfold(c: Cells, cols: nat, rows: nat, y: nat)
    ensures FrameString(c, cols, rows, y + 1) ==
      FrameString(c, cols, rows, y) + RowString(c, y * cols, cols) + ResetText + (if y + 1 < rows then "\n" else "")
  {
  }

  /** Both texts of a frame grow by the same row. */
  lemma JoinRow(text: string, textBefore: string, row: string, flat: string, flatBefore: string,
                flatLine: string, flatRow: string, nl: string)
    requires text == textBefore + row + ResetText + nl && textBefore == flatBefore && row == flatRow
    requires flat == flatBefore + flatLine && flatLine == flatRow + ResetText + nl
    ensures text == flat
  {
    Assoc(flatBefore, flatRow + ResetText, nl);
    Assoc(flatBefore, flatRow, ResetText);
  }
}
