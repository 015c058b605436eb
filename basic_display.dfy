/** The four-digit seven-segment display driven through an HT16K33: a 16-byte display RAM
    image (`buffer`), the character table, the brightness command, the digit layout and the
    text pipeline of `show_text` (dots folded into the previous digit, right-justified to
    four digits).  The I2C bus is modelled as a log of the writes sent to it. */
module Displays {

  // ---------------------------------------------------------------------------------------
  // Commands and the character table

  const CMD_SYSTEM_SETUP: bv8 := 0x20
  const CMD_DISPLAY_SETUP: bv8 := 0x80
  const CMD_BRIGHTNESS: bv8 := 0xE0
  /** The decimal-point segment. */
  const DOT: bv8 := 0x80
  /** The display RAM image: eight two-byte words. */
  const BUFFER_SIZE := 16
  const DIGITS := 4

  /** The segment patterns of the characters the display knows. */
  const CHARS: map<char, bv8> := map[
    '0' := 0x3F, '1' := 0x06, '2' := 0x5B, '3' := 0x4F, '4' := 0x66,
    '5' := 0x6D, '6' := 0x7D, '7' := 0x07, '8' := 0x7F, '9' := 0x6F,
    'A' := 0x77, 'B' := 0x7C, 'C' := 0x39, 'D' := 0x5E, 'E' := 0x79,
    'F' := 0x71, 'H' := 0x76, 'L' := 0x38, 'O' := 0x3F, 'P' := 0x73,
    'S' := 0x6D, 'T' := 0x78, 'U' := 0x3E, 'Y' := 0x6E, '-' := 0x40,
    ' ' := 0x00, '_' := 0x08, 'R' := 0x50, 'N' := 0x54, '.' := 0x80]

  /** `CHARS.get(c, 0)`: an unknown character is blank. */
  function Pattern(c: char): (p: bv8)
    ensures c !in CHARS ==> p == 0
    ensures c in CHARS ==> p == CHARS[c]
  {
    if c in CHARS then CHARS[c] else 0
  }

  /** `max(0, min(15, level))`. */
  function ClampLevel(level: int): (l: int)
    ensures 0 <= l <= 15
    ensures 0 <= level <= 15 ==> l == level
    ensures level < 0 ==> l == 0
    ensures level > 15 ==> l == 15
  {
    if level < 0 then 0 else if level > 15 then 15 else level
  }

  /** The brightness command byte `0xE0 | level` for the clamped level: its high nibble is
      the command and its low nibble reads back as the clamped level. */
  function BrightnessCommand(level: int): (cmd: bv8)
    ensures cmd & 0xF0 == CMD_BRIGHTNESS
    ensures (cmd & 0x0F) as int == ClampLevel(level)
  {
    CMD_BRIGHTNESS | ClampLevel(level) as bv8
  }

  /** Brightness commands for different clamped levels differ: no two levels share a byte. */
  lemma BrightnessCommandInjective(a: int, b: int)
    ensures BrightnessCommand(a) == BrightnessCommand(b) <==> ClampLevel(a) == ClampLevel(b)
  {
    if BrightnessCommand(a) == BrightnessCommand(b) {
      assert BrightnessCommand(a) & 0x0F == BrightnessCommand(b) & 0x0F;
    }
  }

  // ---------------------------------------------------------------------------------------
  // The display RAM

  /** `pos_map`: digit `pos` lives in the low byte of word `0, 1, 3, 4`. */
  function DigitAddress(pos: int): (a: nat)
    requires 0 <= pos < DIGITS
    ensures a + 1 < BUFFER_SIZE && a % 2 == 0
  {
    if pos == 0 then 0 else if pos == 1 then 2 else if pos == 2 then 6 else 8
  }

  /** Two digits never share a byte, and no digit's byte is the spare byte of another. */
  lemma DigitAddressesApart(i: int, j: int)
    requires 0 <= i < DIGITS && 0 <= j < DIGITS
    ensures DigitAddress(i) == DigitAddress(j) <==> i == j
    ensures DigitAddress(i) != DigitAddress(j) + 1
    ensures IsDigitAddress(DigitAddress(i))
  {
  }

  /** The addresses the digits occupy. */
  predicate IsDigitAddress(k: int) {
    k == 0 || k == 2 || k == 6 || k == 8
  }

  /** An all-zero display RAM image. */
  function Zeros(): (z: seq<bv8>)
    ensures |z| == BUFFER_SIZE && forall k :: 0 <= k < BUFFER_SIZE ==> z[k] == 0
  {
    seq(BUFFER_SIZE, _ => 0)
  }

  /** `_set_digit` on the image: for a digit position, its byte takes the pattern (with the
      dot segment when asked) and the byte after it is cleared; otherwise nothing changes. */
  function PutDigit(buf: seq<bv8>, pos: int, pattern: bv8, dot: bool): (r: seq<bv8>)
    requires |buf| == BUFFER_SIZE
    ensures |r| == BUFFER_SIZE
  {
    if 0 <= pos < DIGITS then
      var a := DigitAddress(pos);
      buf[a := if dot then pattern | DOT else pattern][a + 1 := 0]
    else buf
  }

  /** `_set_digit` touches exactly two bytes of a valid position and nothing otherwise. */
  lemma PutDigitFrame(buf: seq<bv8>, pos: int, pattern: bv8, dot: bool)
    requires |buf| == BUFFER_SIZE
    ensures var r := PutDigit(buf, pos, pattern, dot);
      (!(0 <= pos < DIGITS) ==> r == buf)
      && (0 <= pos < DIGITS ==>
            r[DigitAddress(pos)] == (if dot then pattern | DOT else pattern)
            && r[DigitAddress(pos) + 1] == 0
            && forall k :: 0 <= k < BUFFER_SIZE && k != DigitAddress(pos) && k != DigitAddress(pos) + 1 ==>
                 r[k] == buf[k])
  {
  }

  /** The decimal point of a written digit is lit when asked for, and otherwise is whatever
      the pattern itself holds. */
  lemma PutDigitDot(buf: seq<bv8>, pos: int, pattern: bv8, dot: bool)
    requires |buf| == BUFFER_SIZE && 0 <= pos < DIGITS
    ensures PutDigit(buf, pos, pattern, dot)[DigitAddress(pos)] & DOT == (if dot then DOT else pattern & DOT)
  {
  }

  // ---------------------------------------------------------------------------------------
  // The text pipeline of show_text

  /** One digit to show: a character and whether its decimal point is lit. */
  datatype Cell = Cell(ch: char, dot: bool)

  const BLANK := Cell(' ', false)

  /** The processing loop of `show_text`: a `.` after the first character lights the
      previous digit's dot; every other character (a leading `.` included) takes a digit. */
  function Cells(text: string): (cs: seq<Cell>)
    ensures |cs| <= |text| && (|text| > 0 ==> |cs| > 0)
    ensures |text| > 0 ==> cs[|cs| - 1].dot == (text[|text| - 1] == '.' && |text| > 1)
    decreases |text|
  {
    if |text| == 0 then []
    else
      var p := Cells(text[..|text| - 1]);
      var c := text[|text| - 1];
      if c == '.' && |text| > 1 then p[|p| - 1 := Cell(p[|p| - 1].ch, true)]
      else p + [Cell(c, false)]
  }

  /** The text a sequence of digits spells: each character, followed by `.` if its dot is lit. */
  function Spell(cs: seq<Cell>): string
    decreases |cs|
  {
    if |cs| == 0 then ""
    else Spell(cs[..|cs| - 1]) + [cs[|cs| - 1].ch] + (if cs[|cs| - 1].dot then "." else "")
  }

  /** Spelling distributes over concatenation. */
  lemma {:induction false} SpellAppend(a: seq<Cell>, b: seq<Cell>)
    ensures Spell(a + b) == Spell(a) + Spell(b)
    decreases |b|
  {
    if |b| > 0 {
      var n := |b| - 1;
      SpellAppend(a, b[..n]);
      assert (a + b)[..|a + b| - 1] == a + b[..n];
    } else {
      assert a + b == a;
    }
  }

  /** No `.` beyond the first character is followed by another `.`: nothing for the folding
      to lose. */
  predicate NoDoubleDot(text: string) {
    forall i :: 1 <= i < |text| - 1 ==> !(text[i] == '.' && text[i + 1] == '.')
  }

  /** Digits a folded text can produce: only the first may hold `.` as its character. */
  predicate DotsFolded(cs: seq<Cell>) {
    forall k :: 1 <= k < |cs| ==> cs[k].ch != '.'
  }

  /** Folding loses nothing when no dot follows another: the digits spell the text back. */
  lemma {:induction false} SpellCells(text: string)
    requires NoDoubleDot(text)
    ensures Spell(Cells(text)) == text
    decreases |text|
  {
    if |text| > 0 {
      var n := |text| - 1;
      var pre, c := text[..n], text[n];
      assert text == pre + [c];
      NoDoubleDotPrefix(text);
      SpellCells(pre);
      var p := Cells(pre);
      if c == '.' && n > 0 {
        var front, last := p[..|p| - 1], p[|p| - 1];
        assert p == front + [last];
        LastDigitUndotted(text);
        assert Cells(text) == front + [Cell(last.ch, true)];
        SpellSnoc(front, last);
        SpellSnoc(front, Cell(last.ch, true));
      } else {
        assert Cells(text) == p + [Cell(c, false)];
        SpellSnoc(p, Cell(c, false));
      }
    }
  }

  /** A prefix of a text without a doubled dot has none either. */
  lemma NoDoubleDotPrefix(text: string)
    requires NoDoubleDot(text) && |text| > 0
    ensures NoDoubleDot(text[..|text| - 1])
  {
    var pre := text[..|text| - 1];
    forall i | 1 <= i < |pre| - 1 ensures !(pre[i] == '.' && pre[i + 1] == '.') {
      assert pre[i] == text[i] && pre[i + 1] == text[i + 1];
    }
  }

  /** When a text ends in a folded dot, the digit it folds into had no dot yet. */
  lemma LastDigitUndotted(text: string)
    requires NoDoubleDot(text) && |text| > 1 && text[|text| - 1] == '.'
    ensures var p := Cells(text[..|text| - 1]); |p| > 0 && !p[|p| - 1].dot
  {
    var n := |text| - 1;
    if n > 1 {
      assert text[..n][n - 1] == text[n - 1];
      assert text[n - 1] != '.';
    }
  }

  /** Spelling one more digit appends its character and, when lit, its dot. */
  lemma SpellSnoc(cs: seq<Cell>, c: Cell)
    ensures Spell(cs + [c]) == Spell(cs) + [c.ch] + (if c.dot then "." else "")
  {
    assert (cs + [c])[..|cs|] == cs;
  }

  /** Folding one more character: a `.` after the first character lights the last digit's
      dot, anything else takes a digit of its own. */
  lemma CellsSnoc(text: string, c: char)
    ensures var p := Cells(text);
      Cells(text + [c]) == if c == '.' && |text| > 0 then p[|p| - 1 := Cell(p[|p| - 1].ch, true)]
                           else p + [Cell(c, false)]
  {
    assert (text + [c])[..|text|] == text;
  }

  /** And the folding recovers the digits from the text they spell. */
  lemma {:induction false} CellsSpell(cs: seq<Cell>)
    requires DotsFolded(cs)
    ensures Cells(Spell(cs)) == cs
    decreases |cs|
  {
    if |cs| > 0 {
      var n := |cs| - 1;
      var front, last := cs[..n], cs[n];
      assert cs == front + [last];
      assert DotsFolded(front);
      CellsSpell(front);
      var s := Spell(front);
      assert n > 0 ==> last.ch != '.';
      assert |s| == 0 ==> n == 0 by {
        if n > 0 { SpellSnoc(front[..n - 1], front[n - 1]); assert front == front[..n - 1] + [front[n - 1]]; }
      }
      var t := s + [last.ch];
      CellsSnoc(s, last.ch);
      assert Cells(t) == front + [Cell(last.ch, false)];
      SpellSnoc(front, last);
      if last.dot {
        assert Spell(cs) == t + ".";
        CellsSnoc(t, '.');
        assert Cells(t + ".") == front + [Cell(last.ch, true)];
        assert cs == front + [Cell(last.ch, true)];
      } else {
        assert Spell(cs) == t;
        assert cs == front + [Cell(last.ch, false)];
      }
    }
  }

  /** A text without dots takes one digit per character, none with its dot lit. */
  lemma {:induction false} CellsWithoutDots(text: string)
    requires forall i :: 0 <= i < |text| ==> text[i] != '.'
    ensures |Cells(text)| == |text|
    ensures forall i :: 0 <= i < |text| ==> Cells(text)[i] == Cell(text[i], false)
    decreases |text|
  {
    if |text| > 0 {
      CellsWithoutDots(text[..|text| - 1]);
    }
  }

  /** Right-justify to four digits: blanks in front of a short sequence, only the last four
      of a long one. */
  function Justify(cs: seq<Cell>): (r: seq<Cell>)
    ensures |r| == DIGITS
  {
    if |cs| < DIGITS then seq(DIGITS - |cs|, _ => BLANK) + cs else cs[|cs| - DIGITS..]
  }

  /** Justifying keeps the last `min(4, |cs|)` digits in place at the right and blanks the
      rest; justifying again changes nothing. */
  lemma JustifyKeepsLast(cs: seq<Cell>)
    ensures var r := Justify(cs);
      (forall k :: 0 <= k < DIGITS && DIGITS - |cs| <= k ==> r[k] == cs[|cs| - DIGITS + k])
      && (forall i :: 0 <= i < DIGITS - |cs| ==> r[i] == BLANK)
      && Justify(r) == r
  {
  }

  /** What `_set_digit` is called with for one digit: `CHARS.get(ch, 0)` and the dot flag. */
  datatype Glyph = Glyph(pattern: bv8, dot: bool)

  function GlyphOf(c: Cell): Glyph {
    Glyph(Pattern(c.ch), c.dot)
  }

  function Glyphs(cells: seq<Cell>): (gs: seq<Glyph>)
    ensures |gs| == |cells|
  {
    seq(|cells|, i requires 0 <= i < |cells| => GlyphOf(cells[i]))
  }

  /** The byte a glyph puts in the display RAM. */
  function Lit(g: Glyph): bv8 {
    if g.dot then g.pattern | DOT else g.pattern
  }

  /** The byte a digit puts in the display RAM. */
  function SegmentByte(c: Cell): bv8 {
    Lit(GlyphOf(c))
  }

  /** The display loop of `show_text`: glyphs `0 .. n - 1` written onto `buf`. */
  function Rendered(buf: seq<bv8>, glyphs: seq<Glyph>, n: nat): (r: seq<bv8>)
    requires |buf| == BUFFER_SIZE && n <= |glyphs| && n <= DIGITS
    ensures |r| == BUFFER_SIZE
  {
    if n == 0 then buf else PutDigit(Rendered(buf, glyphs, n - 1), n - 1, glyphs[n - 1].pattern, glyphs[n - 1].dot)
  }

  /** The display RAM `show_text` leaves for four digits. */
  function Render(cells: seq<Cell>): (r: seq<bv8>)
    requires |cells| == DIGITS
    ensures |r| == BUFFER_SIZE
  {
    Rendered(Zeros(), Glyphs(cells), DIGITS)
  }

  /** After the first `n` glyphs are written on a cleared image, those digits hold their
      bytes and every other byte is still zero. */
  lemma {:induction false} RenderedLayout(glyphs: seq<Glyph>, n: nat)
    requires n <= |glyphs| && n <= DIGITS
    ensures var r := Rendered(Zeros(), glyphs, n);
      (forall i :: 0 <= i < n ==> r[DigitAddress(i)] == Lit(glyphs[i]))
      && (forall i :: n <= i < DIGITS ==> r[DigitAddress(i)] == 0)
      && (forall k :: 0 <= k < BUFFER_SIZE && !IsDigitAddress(k) ==> r[k] == 0)
  {
    if n > 0 {
      RenderedLayout(glyphs, n - 1);
      var prev, r := Rendered(Zeros(), glyphs, n - 1), Rendered(Zeros(), glyphs, n);
      PutDigitFrame(prev, n - 1, glyphs[n - 1].pattern, glyphs[n - 1].dot);
      forall i | 0 <= i < DIGITS && i != n - 1 ensures r[DigitAddress(i)] == prev[DigitAddress(i)] {
        DigitAddressesApart(i, n - 1);
      }
      forall k | 0 <= k < BUFFER_SIZE && !IsDigitAddress(k) ensures r[k] == 0 {
        DigitAddressesApart(n - 1, n - 1);
      }
    }
  }

  /** The layout of a rendered image: digit `i`'s byte at `pos_map[i]`, zero everywhere else. */
  lemma RenderLayout(cells: seq<Cell>)
    requires |cells| == DIGITS
    ensures var r := Render(cells);
      (forall i :: 0 <= i < DIGITS ==> r[DigitAddress(i)] == SegmentByte(cells[i]))
      && (forall k :: 0 <= k < BUFFER_SIZE && !IsDigitAddress(k) ==> r[k] == 0)
  {
    RenderedLayout(Glyphs(cells), DIGITS);
  }

  /** The display RAM `show_text(text)` leaves. */
  function TextImage(text: string): (r: seq<bv8>)
    ensures |r| == BUFFER_SIZE
  {
    Render(Justify(Cells(text)))
  }

  /** A blank digit is dark. */
  lemma BlankIsDark()
    ensures SegmentByte(BLANK) == 0
  {
  }

  /** The digits of a text without dots: its last four characters, right-aligned behind
      blanks. */
  lemma JustifyPlain(text: string)
    requires forall i :: 0 <= i < |text| ==> text[i] != '.'
    ensures forall i :: 0 <= i < DIGITS ==>
              Justify(Cells(text))[i] == if i + |text| < DIGITS then BLANK else Cell(text[|text| - DIGITS + i], false)
  {
    CellsWithoutDots(text);
    JustifyKeepsLast(Cells(text));
  }

  /** A text of at most four characters without dots is shown right-aligned, blank in front;
      of a longer one only the last four characters are shown. */
  lemma TextImagePlain(text: string)
    requires forall i :: 0 <= i < |text| ==> text[i] != '.'
    ensures var r := TextImage(text);
      (forall i :: 0 <= i < DIGITS ==>
         r[DigitAddress(i)] == if i + |text| < DIGITS then 0 else Pattern(text[|text| - DIGITS + i]))
      && (forall k :: 0 <= k < BUFFER_SIZE && !IsDigitAddress(k) ==> r[k] == 0)
  {
    JustifyPlain(text);
    RenderLayout(Justify(Cells(text)));
    BlankIsDark();
  }

  /** Characters outside the table light nothing: a dot-free text made only of them leaves
      the whole display RAM dark. */
  lemma UnknownTextIsDark(text: string)
    requires forall i :: 0 <= i < |text| ==> text[i] != '.' && text[i] !in CHARS
    ensures TextImage(text) == Zeros()
  {
    TextImagePlain(text);
    var r := TextImage(text);
    forall k | 0 <= k < BUFFER_SIZE ensures r[k] == 0 {
      if k == 0 { assert r[DigitAddress(0)] == 0; }
      else if k == 2 { assert r[DigitAddress(1)] == 0; }
      else if k == 6 { assert r[DigitAddress(2)] == 0; }
      else if k == 8 { assert r[DigitAddress(3)] == 0; }
    }
  }

  /** A dot after the first character is folded: `c.` followed by dot-free `rest` takes
      `1 + |rest|` digits, the first with its dot lit. */
  lemma CellsFoldDot(c: char, rest: string)
    requires c != '.' && forall i :: 0 <= i < |rest| ==> rest[i] != '.'
    ensures Cells([c, '.'] + rest) == [Cell(c, true)] + Cells(rest)
  {
    var cs := [Cell(c, true)] + Cells(rest);
    CellsWithoutDots(rest);
    SpellCells(rest);
    SpellAppend([Cell(c, true)], Cells(rest));
    assert Spell([Cell(c, true)]) == [c, '.'];
    CellsSpell(cs);
  }

  /** `"1.23"` and the like: the dot lights the decimal point of the character before it
      rather than taking a digit of its own. */
  lemma TextImageFoldsDot(c: char, rest: string)
    requires c != '.' && |rest| < DIGITS && forall i :: 0 <= i < |rest| ==> rest[i] != '.'
    ensures var r := TextImage([c, '.'] + rest);
      r[DigitAddress(DIGITS - 1 - |rest|)] == Pattern(c) | DOT
      && forall i :: 0 <= i < |rest| ==> r[DigitAddress(DIGITS - |rest| + i)] == Pattern(rest[i])
  {
    CellsFoldDot(c, rest);
    CellsWithoutDots(rest);
    var cs := [Cell(c, true)] + Cells(rest);
    var j := Justify(cs);
    var first := DIGITS - 1 - |rest|;
    JustifyKeepsLast(cs);
    RenderLayout(j);
    var r := Render(j);
    assert j[first] == Cell(c, true);
    assert r[DigitAddress(first)] == SegmentByte(j[first]);
    forall i | 0 <= i < |rest| ensures r[DigitAddress(DIGITS - |rest| + i)] == Pattern(rest[i]) {
      assert j[DIGITS - |rest| + i] == cs[1 + i] == Cell(rest[i], false);
    }
  }

  // ---------------------------------------------------------------------------------------
  // The driver

  /** One I2C transfer: the device address and the bytes sent. */
  datatype I2CWrite = I2CWrite(address: int, data: seq<bv8>)

  class BasicDisplay {
    const address: int
    /** `bytearray(16)`: the display RAM image. */
    const buffer: array<bv8>
    /** The transfers sent on the bus, oldest first. */
    ghost var writes: seq<I2CWrite>

    predicate Valid()
      reads this
    {
      buffer.Length == BUFFER_SIZE
    }

    /** Oscillator on, display on, brightness 8, then a cleared image sent out. */
    constructor(address: int)
      ensures Valid() && this.address == address && fresh(buffer)
      ensures buffer[..] == Zeros()
      ensures writes == [I2CWrite(address, [CMD_SYSTEM_SETUP | 1]), I2CWrite(address, [CMD_DISPLAY_SETUP | 1]),
                         I2CWrite(address, [BrightnessCommand(8)]), I2CWrite(address, [0] + Zeros())]
    {
      this.address := address;
      buffer := new bv8[BUFFER_SIZE];
      writes := [];
      new;
      WriteCommand(CMD_SYSTEM_SETUP | 1);
      WriteCommand(CMD_DISPLAY_SETUP | 1);
      SetBrightness(8);
      Clear();
    }

    /** `_write_cmd`: a one-byte transfer. */
    method WriteCommand(cmd: bv8)
      modifies this
      ensures writes == old(writes) + [I2CWrite(address, [cmd])]
    {
      writes := writes + [I2CWrite(address, [cmd])];
    }

    /** `_write_buffer`: register address 0, then the whole image. */
    method WriteBuffer()
      requires Valid()
      modifies this
      ensures writes == old(writes) + [I2CWrite(address, [0] + buffer[..])]
    {
      writes := writes + [I2CWrite(address, [0] + buffer[..])];
    }

    /** `set_brightness`: the command for the clamped level. */
    method SetBrightness(level: int)
      modifies this
      ensures writes == old(writes) + [I2CWrite(address, [BrightnessCommand(level)])]
    {
      var clamped := if level < 0 then 0 else if level > 15 then 15 else level;
      WriteCommand(CMD_BRIGHTNESS | clamped as bv8);
    }

    /** `clear`: every byte of the image zero, then the image sent out. */
    method Clear()
      requires Valid()
      modifies this, buffer
      ensures buffer[..] == Zeros()
      ensures writes == old(writes) + [I2CWrite(address, [0] + Zeros())]
    {
      for i := 0 to BUFFER_SIZE
        invariant forall k :: 0 <= k < i ==> buffer[k] == 0
        invariant writes == old(writes)
      {
        buffer[i] := 0;
      }
      assert buffer[..] == Zeros();
      WriteBuffer();
    }

    /** `_set_digit`. */
    method SetDigit(pos: int, pattern: bv8, dot: bool)
      requires Valid()
      modifies buffer
      ensures buffer[..] == PutDigit(old(buffer[..]), pos, pattern, dot)
    {
      if 0 <= pos < DIGITS {
        var p := pattern;
        if dot {
          p := p | DOT;
        }
        var a := DigitAddress(pos);
        buffer[a] := p;
        buffer[a + 1] := 0;
      }
    }

    /** `show_text`: a cleared image sent out, then the text's four digits written and the
        image sent out again. */
    method ShowText(text: string)
      requires Valid()
      modifies this, buffer
      ensures buffer[..] == TextImage(text)
      ensures writes == old(writes) + [I2CWrite(address, [0] + Zeros()), I2CWrite(address, [0] + TextImage(text))]
    {
      Clear();
      var processed := FoldDots(text);
      processed := JustifyDigits(processed);
      for i := 0 to DIGITS
        invariant buffer[..] == Rendered(Zeros(), Glyphs(processed), i)
        invariant writes == old(writes) + [I2CWrite(address, [0] + Zeros())]
      {
        SetDigit(i, Pattern(processed[i].ch), processed[i].dot);
      }
      WriteBuffer();
    }

    /** The dot folding of `show_text`. */
    static method FoldDots(text: string) returns (processed: seq<Cell>)
      ensures processed == Cells(text)
    {
      processed := [];
      for i := 0 to |text|
        invariant processed == Cells(text[..i])
      {
        assert text[..i + 1][..i] == text[..i];
        if text[i] == '.' && i > 0 {
          processed := processed[|processed| - 1 := Cell(processed[|processed| - 1].ch, true)];
        } else {
          processed := processed + [Cell(text[i], false)];
        }
      }
      assert text[..|text|] == text;
    }

    /** The right-justification of `show_text`: blanks inserted in front up to four digits,
        then only the last four kept. */
    static method JustifyDigits(cells: seq<Cell>) returns (processed: seq<Cell>)
      ensures processed == Justify(cells)
    {
      processed := cells;
      while |processed| < DIGITS
        invariant |processed| == |cells| || (|cells| < |processed| <= DIGITS)
        invariant processed == seq(|processed| - |cells|, _ => BLANK) + cells
        decreases DIGITS - |processed|
      {
        processed := [BLANK] + processed;
      }
      if |processed| > DIGITS {
        processed := processed[|processed| - DIGITS..];
      }
    }
  }
}
