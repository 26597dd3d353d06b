/**
  The VGA text-mode writer of the kernel.

  The screen is a 25 x 80 grid of screen characters (an ASCII byte and a
  colour byte). A `Writer` keeps a cursor column on the bottom row and a
  fixed colour; it writes bytes into the bottom row, wraps to a new line
  when the row is full, and on a newline scrolls every row up by one and
  blanks the bottom row.

  The pure functions on `WriterState` say what each operation does to the
  whole screen; the methods of `Writer` do the same work in place on a
  two-dimensional array and are proved to agree with them.
*/
module VgaBuffer {
  import opened Wrappers

  /** Number of text rows on the screen. */
  const BufferHeight: nat := 25
  /** Number of text columns on the screen. */
  const BufferWidth: nat := 80
  /** The row the writer writes into. */
  const Bottom: nat := BufferHeight - 1
  /** The row a line moves to when a newline follows it. */
  const AboveBottom: nat := BufferHeight - 2

  /** Shown in place of a byte that is neither printable ASCII nor a newline. */
  const UnrecognizedChar: bv8 := 0xfe
  const Newline: bv8 := 0x0a
  const Space: bv8 := 0x20

  /** The standard 16-colour VGA palette. */
  datatype Color =
    | Black | Blue | Green | Cyan | Red | Magenta | Brown | LightGray
    | DarkGray | LightBlue | LightGreen | LightCyan | LightRed | Pink | Yellow | White
  {
    /** The palette index of the colour (its `u8` discriminant). */
    function Value(): (v: bv8)
      ensures v < 16
    {
      match this
      case Black => 0
      case Blue => 1
      case Green => 2
      case Cyan => 3
      case Red => 4
      case Magenta => 5
      case Brown => 6
      case LightGray => 7
      case DarkGray => 8
      case LightBlue => 9
      case LightGreen => 10
      case LightCyan => 11
      case LightRed => 12
      case Pink => 13
      case Yellow => 14
      case White => 15
    }
  }

  /** A colour attribute byte: background in the high nibble, foreground in the low one. */
  datatype ColorCode = ColorCode(value: bv8)

  /** `ColorCode::new`: packs a foreground and a background colour into one byte. */
  function NewColorCode(foreground: Color, background: Color): (code: ColorCode)
    ensures code.value & 0x0f == foreground.Value()
    ensures code.value >> 4 == background.Value()
    ensures code.value as int == 16 * background.Value() as int + foreground.Value() as int
  {
    ColorCode((background.Value() << 4) | foreground.Value())
  }

  /** One cell of the screen. */
  datatype ScreenChar = ScreenChar(asciiCharacter: bv8, colorCode: ColorCode)

  /** Bytes in `0x20..=0x7e`, the printable ASCII range. */
  predicate IsPrintable(byte: bv8)
    ensures IsPrintable(byte) ==> byte != Newline && byte != UnrecognizedChar
  {
    0x20 <= byte <= 0x7e
  }

  /** The byte `write_string` hands to `write_byte` for an input byte. */
  function Sanitize(byte: bv8): (shown: bv8)
    ensures shown == byte || shown == UnrecognizedChar
    ensures IsPrintable(byte) ==> shown == byte
    ensures !IsPrintable(byte) && byte != Newline ==> shown == UnrecognizedChar
    ensures shown == Newline <==> byte == Newline
  {
    if IsPrintable(byte) || byte == Newline then byte else UnrecognizedChar
  }

  /** A whole screen: 25 rows of 80 cells. */
  predicate IsGrid(rows: seq<seq<ScreenChar>>) {
    |rows| == BufferHeight && forall r :: 0 <= r < |rows| ==> |rows[r]| == BufferWidth
  }

  /** The observable state of a `Writer`: the screen, the cursor column and the colour. */
  datatype WriterState = WriterState(rows: seq<seq<ScreenChar>>, columnPos: nat, colorCode: ColorCode)
  {
    predicate Valid() {
      IsGrid(rows)
    }
  }

  /** The blank cell `clear_row` writes. */
  function Blank(color: ColorCode): ScreenChar {
    ScreenChar(Space, color)
  }

  function BlankRow(color: ColorCode): seq<ScreenChar> {
    seq(BufferWidth, _ => Blank(color))
  }

  /** The screen after `clear_row(row)`. */
  function ClearRowSpec(rows: seq<seq<ScreenChar>>, row: nat, color: ColorCode): (cleared: seq<seq<ScreenChar>>)
    requires IsGrid(rows) && row < BufferHeight
    ensures IsGrid(cleared)
    ensures forall c :: 0 <= c < BufferWidth ==> cleared[row][c] == Blank(color)
    ensures forall r :: 0 <= r < BufferHeight && r != row ==> cleared[r] == rows[r]
  {
    rows[row := BlankRow(color)]
  }

  /** The screen after the copy loop of `new_line`: row r - 1 takes row r; the last row stays. */
  function ScrollUp(rows: seq<seq<ScreenChar>>): (scrolled: seq<seq<ScreenChar>>)
    requires IsGrid(rows)
    ensures IsGrid(scrolled)
    ensures forall r :: 1 <= r < BufferHeight ==> scrolled[r - 1] == rows[r]
    ensures scrolled[Bottom] == rows[Bottom]
  {
    rows[1..] + [rows[Bottom]]
  }

  /** `new_line`: scroll up, blank the bottom row, move the cursor to column 0. */
  function NewLineSpec(s: WriterState): (t: WriterState)
    requires s.Valid()
    ensures t.Valid() && t.colorCode == s.colorCode && t.columnPos == 0
    ensures forall r :: 1 <= r < BufferHeight ==> t.rows[r - 1] == s.rows[r]
    ensures forall c :: 0 <= c < BufferWidth ==> t.rows[Bottom][c] == Blank(s.colorCode)
  {
    WriterState(ClearRowSpec(ScrollUp(s.rows), Bottom, s.colorCode), 0, s.colorCode)
  }

  /** `write_byte`. */
  function WriteByteSpec(s: WriterState, byte: bv8): (t: WriterState)
    requires s.Valid()
    ensures t.Valid() && t.colorCode == s.colorCode
    ensures t.columnPos <= BufferWidth
    ensures byte != Newline ==>
      1 <= t.columnPos && t.rows[Bottom][t.columnPos - 1] == ScreenChar(byte, s.colorCode)
  {
    if byte == Newline then NewLineSpec(s)
    else
      var u := if s.columnPos >= BufferWidth then NewLineSpec(s) else s;
      var bottom := u.rows[Bottom][u.columnPos := ScreenChar(byte, u.colorCode)];
      WriterState(u.rows[Bottom := bottom], u.columnPos + 1, u.colorCode)
  }

  /** `write_string`: every byte, sanitized, through `write_byte`, in order. */
  function WriteStringSpec(s: WriterState, bytes: seq<bv8>): (t: WriterState)
    requires s.Valid()
    ensures t.Valid() && t.colorCode == s.colorCode
    ensures s.columnPos <= BufferWidth ==> t.columnPos <= BufferWidth
    decreases |bytes|
  {
    if bytes == [] then s
    else WriteByteSpec(WriteStringSpec(s, bytes[..|bytes| - 1]), Sanitize(bytes[|bytes| - 1]))
  }

  // ---------------------------------------------------------------------
  // Properties of the writer
  // ---------------------------------------------------------------------

  /** A non-newline byte with the cursor inside the row lands under the cursor; nothing else changes. */
  lemma WriteByteAtCursor(s: WriterState, byte: bv8)
    requires s.Valid() && byte != Newline && s.columnPos < BufferWidth
    ensures var t := WriteByteSpec(s, byte);
      && t.columnPos == s.columnPos + 1
      && t.rows[Bottom][s.columnPos] == ScreenChar(byte, s.colorCode)
      && (forall c :: 0 <= c < BufferWidth && c != s.columnPos ==>
            t.rows[Bottom][c] == s.rows[Bottom][c])
      && (forall r :: 0 <= r < Bottom ==> t.rows[r] == s.rows[r])
  {
  }

  /** With the cursor past the end of the row, a byte first starts a new line and lands in column 0. */
  lemma WriteByteWraps(s: WriterState, byte: bv8)
    requires s.Valid() && byte != Newline && s.columnPos >= BufferWidth
    ensures var t := WriteByteSpec(s, byte);
      && t.columnPos == 1
      && t.rows[Bottom][0] == ScreenChar(byte, s.colorCode)
      && (forall c :: 1 <= c < BufferWidth ==> t.rows[Bottom][c] == Blank(s.colorCode))
      && (forall r :: 1 <= r < BufferHeight ==> t.rows[r - 1] == s.rows[r])
  {
    var u := NewLineSpec(s);
    assert WriteByteSpec(s, byte).rows[Bottom] == u.rows[Bottom][0 := ScreenChar(byte, s.colorCode)];
  }

  /** Writing two strings one after the other is writing their concatenation. */
  lemma {:induction false} WriteStringAppend(s: WriterState, a: seq<bv8>, b: seq<bv8>)
    requires s.Valid()
    ensures WriteStringSpec(s, a + b) == WriteStringSpec(WriteStringSpec(s, a), b)
    decreases |b|
  {
    if b == [] {
      assert a + b == a;
    } else {
      var b' := b[..|b| - 1];
      assert (a + b)[..|a + b| - 1] == a + b';
      assert (a + b)[|a + b| - 1] == b[|b| - 1];
      WriteStringAppend(s, a, b');
    }
  }

  /** Predicate for the lemmas below: `bytes` holds no newline. */
  predicate NoNewline(bytes: seq<bv8>) {
    forall i :: 0 <= i < |bytes| ==> bytes[i] != Newline
  }

  /**
    A run of bytes without a newline that fits in the rest of the bottom row
    fills one cell per byte, starting at the cursor, with the sanitized byte,
    and changes nothing else; the cursor advances by the length of the run.
  */
  lemma {:induction false} WriteRun(s: WriterState, bytes: seq<bv8>)
    requires s.Valid() && NoNewline(bytes) && s.columnPos + |bytes| <= BufferWidth
    ensures var t := WriteStringSpec(s, bytes);
      && t.columnPos == s.columnPos + |bytes|
      && (forall r :: 0 <= r < Bottom ==> t.rows[r] == s.rows[r])
      && (forall c :: 0 <= c < BufferWidth ==>
            t.rows[Bottom][c] ==
              if s.columnPos <= c < s.columnPos + |bytes|
              then ScreenChar(Sanitize(bytes[c - s.columnPos]), s.colorCode)
              else s.rows[Bottom][c])
    decreases |bytes|
  {
    if bytes != [] {
      var n := |bytes| - 1;
      var init := bytes[..n];
      assert NoNewline(init) by {
        forall i | 0 <= i < |init| ensures init[i] != Newline {
          assert init[i] == bytes[i];
        }
      }
      WriteRun(s, init);
      var u := WriteStringSpec(s, init);
      assert Sanitize(bytes[n]) != Newline;
      WriteByteAtCursor(u, Sanitize(bytes[n]));
      assert forall i :: 0 <= i < n ==> init[i] == bytes[i];
    }
  }

  /**
    A short line followed by a newline: after scrolling, the line sits one
    row above the bottom, the bottom row is blank and the cursor is at 0.
  */
  lemma WriteLine(s: WriterState, bytes: seq<bv8>)
    requires s.Valid() && NoNewline(bytes) && s.columnPos + |bytes| <= BufferWidth
    ensures var t := WriteStringSpec(s, bytes + [Newline]);
      && t.columnPos == 0
      && (forall i :: 0 <= i < |bytes| ==>
            t.rows[AboveBottom][s.columnPos + i] == ScreenChar(Sanitize(bytes[i]), s.colorCode))
      && (forall c :: 0 <= c < BufferWidth ==> t.rows[Bottom][c] == Blank(s.colorCode))
  {
    var line := bytes + [Newline];
    assert line[..|line| - 1] == bytes;
    WriteRun(s, bytes);
  }

  /**
    In-crate test `test_println_output`: printing a printable string of at
    most one row from column 0, then a newline, leaves the string's bytes in
    the second row from the bottom, column by column.
  */
  lemma PrintlnOutput(s: WriterState, text: seq<bv8>)
    requires s.Valid() && s.columnPos == 0 && |text| <= BufferWidth
    requires forall i :: 0 <= i < |text| ==> IsPrintable(text[i])
    ensures var t := WriteStringSpec(s, text + [Newline]);
      forall i :: 0 <= i < |text| ==> t.rows[AboveBottom][i].asciiCharacter == text[i]
  {
    WriteLine(s, text);
  }

  /** Eighty copies of one byte. */
  function FullRow(byte: bv8): (row: seq<bv8>)
    ensures |row| == BufferWidth && forall i :: 0 <= i < |row| ==> row[i] == byte
  {
    seq(BufferWidth, _ => byte)
  }

  /**
    From column 0, a full row of one printable byte fills the bottom row; the
    next printable byte pushes that row up one and lands at the start of the
    bottom row.
  */
  lemma FullRowThenWrap(s: WriterState, x: bv8, y: bv8)
    requires s.Valid() && s.columnPos == 0 && IsPrintable(x) && IsPrintable(y)
    ensures var t := WriteStringSpec(s, FullRow(x) + [y]);
      && (forall i :: 0 <= i < BufferWidth ==> t.rows[AboveBottom][i] == ScreenChar(x, s.colorCode))
      && t.rows[Bottom][0] == ScreenChar(y, s.colorCode)
      && t.columnPos == 1
  {
    var xs := FullRow(x);
    var all := xs + [y];
    assert all[..|all| - 1] == xs;
    WriteRun(s, xs);
    var u := WriteStringSpec(s, xs);
    WriteByteWraps(u, y);
  }

  /**
    In-crate test `test_print_line_wrap`: eighty 'X' then 'Y' leave the 'X's
    one row above the bottom and the 'Y' at the start of the bottom row.
  */
  lemma PrintLineWrap(s: WriterState)
    requires s.Valid() && s.columnPos == 0
    ensures var t := WriteStringSpec(s, FullRow('X' as bv8) + ['Y' as bv8]);
      && (forall i :: 0 <= i < BufferWidth ==> t.rows[AboveBottom][i].asciiCharacter == 'X' as bv8)
      && t.rows[Bottom][0].asciiCharacter == 'Y' as bv8
  {
    FullRowThenWrap(s, 'X' as bv8, 'Y' as bv8);
  }

  /**
    From column 0, a line of at most 80 bytes none of which is printable or
    a newline, followed by a newline, shows as one 0xfe per byte in the row
    above the bottom.
  */
  lemma NonPrintableLine(s: WriterState, bytes: seq<bv8>)
    requires s.Valid() && s.columnPos == 0 && |bytes| <= BufferWidth
    requires forall i :: 0 <= i < |bytes| ==> !IsPrintable(bytes[i]) && bytes[i] != Newline
    ensures var t := WriteStringSpec(s, bytes + [Newline]);
      forall i :: 0 <= i < |bytes| ==> t.rows[AboveBottom][i].asciiCharacter == UnrecognizedChar
  {
    WriteLine(s, bytes);
    var t := WriteStringSpec(s, bytes + [Newline]);
    forall i | 0 <= i < |bytes| ensures t.rows[AboveBottom][i].asciiCharacter == UnrecognizedChar {
      assert t.rows[AboveBottom][s.columnPos + i] == ScreenChar(Sanitize(bytes[i]), s.colorCode);
    }
  }

  /**
    The string literal of `test_non_printable_char` as the source file holds
    it: the ten UTF-8 bytes of U+00F0 U+0178 U+2019 U+2013.
  */
  const NonPrintableLiteral: seq<bv8> := [0xc3, 0xb0, 0xc5, 0xb8, 0xe2, 0x80, 0x99, 0xe2, 0x80, 0x93]

  /**
    The four UTF-8 bytes of U+1F496. Read as Windows-1252 and encoded again
    as UTF-8, they give exactly the literal above.
  */
  const SparklingHeart: seq<bv8> := [0xf0, 0x9f, 0x92, 0x96]

  /**
    In-crate test `test_non_printable_char`: printing the literal, then a
    newline, shows every byte of it, the first two cells included, as 0xfe.
  */
  lemma NonPrintableChar(s: WriterState)
    requires s.Valid() && s.columnPos == 0
    ensures var t := WriteStringSpec(s, NonPrintableLiteral + [Newline]);
      forall i :: 0 <= i < |NonPrintableLiteral| ==> t.rows[AboveBottom][i].asciiCharacter == UnrecognizedChar
  {
    assert forall i :: 0 <= i < |NonPrintableLiteral| ==> 0x80 <= NonPrintableLiteral[i];
    NonPrintableLine(s, NonPrintableLiteral);
  }

  /** The same for the four bytes of U+1F496. */
  lemma NonPrintableHeart(s: WriterState)
    requires s.Valid() && s.columnPos == 0
    ensures var t := WriteStringSpec(s, SparklingHeart + [Newline]);
      forall i :: 0 <= i < |SparklingHeart| ==> t.rows[AboveBottom][i].asciiCharacter == UnrecognizedChar
  {
    assert forall i :: 0 <= i < |SparklingHeart| ==> 0x80 <= SparklingHeart[i];
    NonPrintableLine(s, SparklingHeart);
  }

  // ---------------------------------------------------------------------
  // The writer itself, working in place on the screen buffer
  // ---------------------------------------------------------------------

  /** `fmt::Error`. */
  datatype FmtError = FmtError

  class Writer {
    var columnPos: nat
    const colorCode: ColorCode
    const buffer: array2<ScreenChar>

    /** The buffer has the screen's shape and the cursor never runs past the end of the row. */
    ghost predicate Valid()
      reads this
    {
      buffer.Length0 == BufferHeight && buffer.Length1 == BufferWidth && columnPos <= BufferWidth
    }

    /** The writer the kernel creates: cursor at column 0, a fixed colour, over the text buffer. */
    constructor (buffer: array2<ScreenChar>, foreground: Color, background: Color)
      requires buffer.Length0 == BufferHeight && buffer.Length1 == BufferWidth
      ensures Valid() && this.buffer == buffer
      ensures columnPos == 0 && colorCode == NewColorCode(foreground, background)
    {
      this.buffer := buffer;
      colorCode := NewColorCode(foreground, background);
      columnPos := 0;
    }

    /** The buffer contents as a grid of rows. */
    ghost function Screen(): (g: seq<seq<ScreenChar>>)
      reads buffer
      requires buffer.Length0 == BufferHeight && buffer.Length1 == BufferWidth
      ensures IsGrid(g)
      ensures forall r, c :: 0 <= r < BufferHeight && 0 <= c < BufferWidth ==> g[r][c] == buffer[r, c]
    {
      seq(BufferHeight, r requires 0 <= r < buffer.Length0 reads buffer =>
        seq(BufferWidth, c requires 0 <= c < buffer.Length1 reads buffer => buffer[r, c]))
    }

    ghost function State(): WriterState
      reads this, buffer
      requires Valid()
    {
      WriterState(Screen(), columnPos, colorCode)
    }

    /** The buffer shows `g` when it agrees with `g` cell by cell. */
    lemma ScreenIs(g: seq<seq<ScreenChar>>)
      requires Valid() && IsGrid(g)
      requires forall r, c :: 0 <= r < BufferHeight && 0 <= c < BufferWidth ==> buffer[r, c] == g[r][c]
      ensures Screen() == g
    {
      var sc := Screen();
      forall r | 0 <= r < BufferHeight ensures sc[r] == g[r] {
        assert forall c :: 0 <= c < BufferWidth ==> sc[r][c] == g[r][c];
      }
    }

    /** `clear_row`: overwrites every cell of `row` with a blank in the writer's colour. */
    method ClearRow(row: nat)
      requires Valid() && row < BufferHeight
      modifies buffer
      ensures Valid() && columnPos == old(columnPos)
      ensures Screen() == ClearRowSpec(old(Screen()), row, colorCode)
    {
      var blank := ScreenChar(Space, colorCode);
      for col := 0 to BufferWidth
        invariant forall r, c :: 0 <= r < BufferHeight && 0 <= c < BufferWidth ==>
          buffer[r, c] == if r == row && c < col then blank else old(buffer[r, c])
      {
        buffer[row, col] := blank;
      }
      ScreenIs(ClearRowSpec(old(Screen()), row, colorCode));
    }

    /** `new_line`: copies every row one up, clears the bottom row, resets the cursor. */
    method NewLine()
      requires Valid()
      modifies this, buffer
      ensures Valid()
      ensures State() == NewLineSpec(old(State()))
    {
      for row := 1 to BufferHeight
        modifies buffer
        invariant forall r, c :: 0 <= r < BufferHeight && 0 <= c < BufferWidth ==>
          buffer[r, c] == if r < row - 1 then old(buffer[r + 1, c]) else old(buffer[r, c])
      {
        for col := 0 to BufferWidth
          modifies buffer
          invariant forall r, c :: 0 <= r < BufferHeight && 0 <= c < BufferWidth ==>
            buffer[r, c] ==
              if r < row - 1 || (r == row - 1 && c < col) then old(buffer[r + 1, c]) else old(buffer[r, c])
        {
          buffer[row - 1, col] := buffer[row, col];
        }
      }
      ScreenIs(ScrollUp(old(Screen())));
      ClearRow(Bottom);
      columnPos := 0;
    }

    /** `write_byte`: a newline starts a new line; any other byte is stored under the cursor. */
    method WriteByte(byte: bv8)
      requires Valid()
      modifies this, buffer
      ensures Valid()
      ensures State() == WriteByteSpec(old(State()), byte)
    {
      if byte == Newline {
        NewLine();
      } else {
        if columnPos >= BufferWidth {
          NewLine();
        }
        var row := Bottom;
        var col := columnPos;
        ghost var before := State();
        buffer[row, col] := ScreenChar(byte, colorCode);
        columnPos := columnPos + 1;
        ScreenIs(before.rows[row := before.rows[row][col := ScreenChar(byte, colorCode)]]);
      }
    }

    /** `write_string`: printable bytes and newlines go through as they are, any other byte as 0xfe. */
    method WriteString(s: seq<bv8>)
      requires Valid()
      modifies this, buffer
      ensures Valid()
      ensures State() == WriteStringSpec(old(State()), s)
    {
      for i := 0 to |s|
        invariant Valid()
        invariant State() == WriteStringSpec(old(State()), s[..i])
      {
        var byte := s[i];
        if IsPrintable(byte) || byte == Newline {
          WriteByte(byte);
        } else {
          WriteByte(UnrecognizedChar);
        }
        assert s[..i + 1][..i] == s[..i];
      }
      assert s[..|s|] == s;
    }

    /** `fmt::Write::write_str`: writes the string and never reports an error. */
    method WriteStr(s: seq<bv8>) returns (result: Result<(), FmtError>)
      requires Valid()
      modifies this, buffer
      ensures Valid()
      ensures result == Ok(())
      ensures State() == WriteStringSpec(old(State()), s)
    {
      WriteString(s);
      result := Ok(());
    }
  }
}
