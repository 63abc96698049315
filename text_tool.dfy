/** The text tool: every character drawn as a 3 x 5 bitmap glyph, the
    glyphs of a line of text set side by side with one blank column
    between them. */
module TextTool {
  import opened Pixels

  const Ink: char := '■'
  const Blank: char := '□'

  /** `fontPatterns`: five rows of three cells per character. */
  const FontPatterns: map<char, seq<string>> := map[
    'A' := ["■■■", "■□■", "■■■", "■□■", "■□■"],
    'B' := ["■■□", "■□■", "■■□", "■□■", "■■□"],
    'C' := ["■■■", "■□□", "■□□", "■□□", "■■■"],
    'D' := ["■■□", "■□■", "■□■", "■□■", "■■□"],
    'E' := ["■■■", "■□□", "■■□", "■□□", "■■■"],
    'F' := ["■■■", "■□□", "■■□", "■□□", "■□□"],
    'G' := ["■■■", "■□□", "■□■", "■□■", "■■■"],
    'H' := ["■□■", "■□■", "■■■", "■□■", "■□■"],
    'I' := ["■■■", "□■□", "□■□", "□■□", "■■■"],
    'J' := ["■■■", "□□■", "□□■", "■□■", "■■■"],
    'K' := ["■□■", "■■□", "■□□", "■■□", "■□■"],
    'L' := ["■□□", "■□□", "■□□", "■□□", "■■■"],
    'M' := ["■□■", "■■■", "■■■", "■□■", "■□■"],
    'N' := ["■□■", "■■■", "■■■", "■□■", "■□■"],
    'O' := ["■■■", "■□■", "■□■", "■□■", "■■■"],
    'P' := ["■■■", "■□■", "■■■", "■□□", "■□□"],
    'Q' := ["■■■", "■□■", "■□■", "■■■", "□□■"],
    'R' := ["■■■", "■□■", "■■□", "■■□", "■□■"],
    'S' := ["■■■", "■□□", "■■■", "□□■", "■■■"],
    'T' := ["■■■", "□■□", "□■□", "□■□", "□■□"],
    'U' := ["■□■", "■□■", "■□■", "■□■", "■■■"],
    'V' := ["■□■", "■□■", "■□■", "■□■", "□■□"],
    'W' := ["■□■", "■□■", "■■■", "■■■", "■□■"],
    'X' := ["■□■", "□■□", "□■□", "□■□", "■□■"],
    'Y' := ["■□■", "■□■", "□■□", "□■□", "□■□"],
    'Z' := ["■■■", "□□■", "□■□", "■□□", "■■■"],
    ' ' := ["□□□", "□□□", "□□□", "□□□", "□□□"]
  ]

  /** Five rows of three cells, each inked or blank. */
  predicate IsGlyph(rows: seq<string>)
  {
    |rows| == 5
    && forall i :: 0 <= i < 5 ==>
         (|rows[i]| == 3 && forall j :: 0 <= j < 3 ==> rows[i][j] == Ink || rows[i][j] == Blank)
  }

  lemma FontWellFormed()
    ensures ' ' in FontPatterns
    ensures forall c :: c in FontPatterns ==> IsGlyph(FontPatterns[c])
  {
  }

  /** `fontPatterns[char] || fontPatterns[' ']`: unknown characters are
      drawn as the space. */
  function Glyph(c: char): (rows: seq<string>)
    ensures IsGlyph(rows)
  {
    FontWellFormed();
    if c in FontPatterns then FontPatterns[c] else FontPatterns[' ']
  }

  /** `toUpperCase` for the characters whose upper case is one character
      the font knows: the ASCII letters, the dotless i and the long s. */
  function Upper(c: char): (u: char)
    ensures 'A' <= u <= 'Z' || u == c
  {
    if 'a' <= c <= 'z' then (c as int - 32) as char
    else if c == '\U{0131}' then 'I'
    else if c == '\U{017F}' then 'S'
    else c
  }

  function UpperText(text: string): (u: string)
    ensures |u| == |text| && forall i :: 0 <= i < |text| ==> u[i] == Upper(text[i])
  {
    seq(|text|, i requires 0 <= i < |text| => Upper(text[i]))
  }

  /** A UTF-16 code unit: what one element of `split('')` holds. */
  type CodeUnit = u: int | 0 <= u < 0x10000

  predicate IsSurrogate(u: CodeUnit)
  {
    0xD800 <= u < 0xE000
  }

  /** The UTF-16 encoding of one character: itself below U+10000, a high
      and a low surrogate above. */
  function Utf16(c: char): (us: seq<CodeUnit>)
    ensures |us| == 1 <==> (c as int) < 0x10000
    ensures |us| == 1 ==> us[0] == c as int && !IsSurrogate(us[0])
    ensures |us| != 1 ==>
      (|us| == 2 && 0xD800 <= us[0] < 0xDC00 <= us[1] < 0xE000
       && (us[0] as int - 0xD800) * 0x400 + (us[1] as int - 0xDC00) + 0x10000 == c as int)
  {
    if (c as int) < 0x10000 then [c as int]
    else
      var v := c as int - 0x10000;
      [0xD800 + v / 0x400, 0xDC00 + v % 0x400]
  }

  /** `split('')`: the code units of the string, character by character. */
  function CodeUnits(s: string): (us: seq<CodeUnit>)
    ensures |us| >= |s|
  {
    if s == [] then [] else CodeUnits(s[..|s| - 1]) + Utf16(s[|s| - 1])
  }

  /** A string of characters below U+10000 splits into those characters. */
  lemma {:induction false} BmpUnits(s: string)
    requires forall i :: 0 <= i < |s| ==> (s[i] as int) < 0x10000
    ensures CodeUnits(s) == seq(|s|, i requires 0 <= i < |s| => s[i] as int)
  {
    if s != [] {
      BmpUnits(s[..|s| - 1]);
    }
  }

  /** Upper-casing keeps the number of code units. */
  lemma {:induction false} UpperKeepsUnits(s: string)
    ensures |CodeUnits(UpperText(s))| == |CodeUnits(s)|
  {
    if s != [] {
      var m := |s| - 1;
      assert UpperText(s)[..m] == UpperText(s[..m]);
      UpperKeepsUnits(s[..m]);
    }
  }

  /** The glyph looked up for one code unit: a surrogate is never a font
      key, so it draws as the space. */
  function UnitGlyph(u: CodeUnit): (rows: seq<string>)
    ensures IsGlyph(rows)
    ensures IsSurrogate(u) ==> rows == FontPatterns[' ']
  {
    FontWellFormed();
    if IsSurrogate(u) then FontPatterns[' '] else Glyph(u as char)
  }

  /** The characters `String.prototype.trim` removes: white space and line
      terminators. */
  predicate IsSpace(c: char)
  {
    c == '\t' || c == '\n' || c == '\U{000B}' || c == '\U{000C}' || c == '\r' || c == ' '
    || c == '\U{00A0}' || c == '\U{1680}' || '\U{2000}' <= c <= '\U{200A}'
    || c == '\U{2028}' || c == '\U{2029}' || c == '\U{202F}' || c == '\U{205F}'
    || c == '\U{3000}' || c == '\U{FEFF}'
  }

  /** `!text.trim()`: nothing but white space. */
  predicate IsBlankText(text: string)
  {
    forall i :: 0 <= i < |text| ==> IsSpace(text[i])
  }

  /** Row `i` of the drawing of `cs`: the glyph rows of the code units in
      order, a blank cell before every glyph but the first. */
  function Row(cs: seq<CodeUnit>, i: nat): string
    requires i < 5
  {
    if |cs| == 0 then ""
    else Row(cs[..|cs| - 1], i) + (if |cs| > 1 then [Blank] else []) + UnitGlyph(cs[|cs| - 1])[i]
  }

  /** The five lines of the drawing of `text`: upper-cased, then split
      into code units. */
  function Lines(text: string): (ls: seq<string>)
    ensures |ls| == 5
  {
    seq(5, i requires 0 <= i < 5 => Row(CodeUnits(UpperText(text)), i))
  }

  /** A row of `n > 0` glyphs is `4n - 1` cells wide. */
  lemma {:induction false} RowLength(cs: seq<CodeUnit>, i: nat)
    requires i < 5
    ensures |cs| > 0 ==> |Row(cs, i)| == 4 * |cs| - 1
  {
    if |cs| > 1 {
      RowLength(cs[..|cs| - 1], i);
    }
  }

  /** Cell `4k + j` of a row is column `j` of the `k`-th glyph, and cell
      `4k + 3` between two glyphs is blank. */
  lemma {:induction false} RowCells(cs: seq<CodeUnit>, i: nat, k: nat, j: nat)
    requires i < 5 && k < |cs| && j < 4
    requires j == 3 ==> k < |cs| - 1
    ensures 4 * k + j < |Row(cs, i)|
    ensures Row(cs, i)[4 * k + j] == if j < 3 then UnitGlyph(cs[k])[i][j] else Blank
  {
    RowLength(cs, i);
    var pre := cs[..|cs| - 1];
    if k < |cs| - 1 {
      RowLength(pre, i);
      assert Row(cs, i)[..|Row(pre, i)|] == Row(pre, i);
      if j < 3 || k < |cs| - 2 {
        RowCells(pre, i, k, j);
        assert pre[k] == cs[k];
      }
    }
  }

  /** A row of one more code unit: a blank cell unless it is the first,
      then that unit's glyph row. */
  lemma RowSnoc(cs: seq<CodeUnit>, k: nat, i: nat)
    requires k < |cs| && i < 5
    ensures Row(cs[..k + 1], i) == Row(cs[..k], i) + (if k > 0 then [Blank] else []) + UnitGlyph(cs[k])[i]
  {
    assert cs[..k + 1][..k] == cs[..k];
  }

  /** One character's `pattern.forEach`: each of the five lines gets a
      blank cell when `spaced` and then the glyph's row. */
  method AppendGlyph(lines: seq<string>, pattern: seq<string>, spaced: bool) returns (out: seq<string>)
    requires |lines| == 5 && |pattern| == 5
    ensures |out| == 5
    ensures forall i :: 0 <= i < 5 ==> out[i] == lines[i] + (if spaced then [Blank] else []) + pattern[i]
  {
    out := lines;
    var li := 0;
    while li < 5
      invariant 0 <= li <= 5 && |out| == 5
      invariant forall i :: 0 <= i < li ==> out[i] == lines[i] + (if spaced then [Blank] else []) + pattern[i]
      invariant forall i :: li <= i < 5 ==> out[i] == lines[i]
    {
      if spaced {
        out := out[li := out[li] + [Blank]];
      }
      out := out[li := out[li] + pattern[li]];
      li := li + 1;
    }
  }

  /** The shared line building of generateTextPattern and previewText:
      five empty lines, and for every code unit of the upper-cased text its
      glyph rows appended, after a blank cell from the second unit on. */
  method DrawLines(text: string) returns (lines: seq<string>)
    ensures lines == Lines(text)
  {
    lines := ["", "", "", "", ""];
    var chars := CodeUnits(UpperText(text));
    var k := 0;
    while k < |chars|
      invariant 0 <= k <= |chars| && |lines| == 5
      invariant forall i :: 0 <= i < 5 ==> lines[i] == Row(chars[..k], i)
    {
      var pattern := UnitGlyph(chars[k]);
      var prev := lines;
      lines := AppendGlyph(lines, pattern, k > 0);
      forall i | 0 <= i < 5
        ensures lines[i] == Row(chars[..k + 1], i)
      {
        RowSnoc(chars, k, i);
        assert prev[i] == Row(chars[..k], i);
      }
      k := k + 1;
    }
    assert chars[..|chars|] == chars;
  }

  /** The pattern handed to `onAddText`. */
  datatype TextPattern = TextPattern(kind: string, content: string, pattern: seq<string>,
                                     color: string, fontSize: string)

  /** generateTextPattern: nothing for blank text, otherwise the drawing of
      the text with the chosen colour and size. */
  method GenerateTextPattern(text: string, textColor: string, fontSize: string)
    returns (r: Option<TextPattern>)
    ensures r.None? <==> IsBlankText(text)
    ensures r.Some? ==> r.value == TextPattern("text", text, Lines(text), textColor, fontSize)
  {
    if IsBlankText(text) {
      return None;
    }
    var lines := DrawLines(text);
    return Some(TextPattern("text", text, lines, textColor, fontSize));
  }

  /** previewText: the same lines, or nothing for blank text. */
  method PreviewText(text: string) returns (r: Option<seq<string>>)
    ensures r.None? <==> IsBlankText(text)
    ensures r.Some? ==> r.value == Lines(text)
  {
    if IsBlankText(text) {
      return None;
    }
    var lines := DrawLines(text);
    return Some(lines);
  }

  /** Every line of a drawing of a text of `n > 0` code units is `4n - 1`
      cells of ink or blank. */
  lemma LinesShape(text: string, i: nat)
    requires i < 5 && |text| > 0
    ensures |Lines(text)[i]| == 4 * |CodeUnits(text)| - 1
    ensures forall p :: 0 <= p < |Lines(text)[i]| ==> Lines(text)[i][p] == Ink || Lines(text)[i][p] == Blank
  {
    var cs := CodeUnits(UpperText(text));
    var line := Row(cs, i);
    assert Lines(text)[i] == line;
    UpperKeepsUnits(text);
    RowLength(cs, i);
    forall p | 0 <= p < |line|
      ensures line[p] == Ink || line[p] == Blank
    {
      var k, j := p / 4, p % 4;
      assert p == 4 * k + j;
      RowCells(cs, i, k, j);
    }
  }

  /** Text below U+10000 is one code unit per character, so its lines are
      `4n - 1` cells for `n` characters. */
  lemma BmpLinesWidth(text: string, i: nat)
    requires i < 5 && |text| > 0
    requires forall k :: 0 <= k < |text| ==> (text[k] as int) < 0x10000
    ensures |Lines(text)[i]| == 4 * |text| - 1
  {
    BmpUnits(text);
    LinesShape(text, i);
  }

  /** A character beyond U+10000 is two code units. */
  lemma AstralUnits()
    ensures CodeUnits("\U{1F600}") == [0xD83D, 0xDE00]
  {
    var t := "\U{1F600}";
    assert t[..0] == [];
  }

  /** A character beyond U+10000 draws as two spaces: seven cells on each
      line where one glyph would give three. */
  lemma AstralDrawsTwoSpaces(i: nat)
    requires i < 5
    ensures Lines("\U{1F600}")[i] == FontPatterns[' '][i] + [Blank] + FontPatterns[' '][i]
  {
    var t := "\U{1F600}";
    assert UpperText(t) == t;
    AstralUnits();
    var us: seq<CodeUnit> := [0xD83D, 0xDE00];
    assert us[..1] == [0xD83D] && us[..1][..0] == [];
    assert Row(us[..1], i) == UnitGlyph(0xD83D)[i];
    assert Row(us, i) == Row(us[..1], i) + [Blank] + UnitGlyph(0xDE00)[i];
  }

  /** Upper and lower case draw alike. */
  lemma CaseInsensitive(text: string)
    ensures Lines(UpperText(text)) == Lines(text)
  {
    assert UpperText(UpperText(text)) == UpperText(text);
  }
}
