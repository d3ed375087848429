/** The VGA text writer (src/display/vga_text.rs): a 25 x 80 buffer scrolled in place, as the last
    rows of a tape that never scrolls. */
module Vga {
  import opened Wrappers

  const WIDTH: nat := 80
  const HEIGHT: nat := 25
  const NEWLINE: byte := 10
  const QUESTION: byte := 63
  const SPACE: byte := 32

  datatype ScreenChar = ScreenChar(code: byte, color: byte)

  type Row = r: seq<ScreenChar> | |r| == WIDTH witness seq(WIDTH, _ => ScreenChar(SPACE, 0))

  function BlankRow(color: byte): (r: Row)
    ensures forall c :: 0 <= c < WIDTH ==> r[c] == ScreenChar(SPACE, color)
  {
    seq(WIDTH, _ => ScreenChar(SPACE, color))
  }

  /** An unbounded tape of rows, with the cursor in one of the last 25. */
  datatype Tape = Tape(rows: seq<Row>, row: nat, col: nat, color: byte) {
    predicate Valid() {
      |rows| >= HEIGHT && |rows| - HEIGHT <= row < |rows| && col < WIDTH
    }

    /** The cursor as a position on the tape read row by row. */
    function Cursor(): nat {
      WIDTH * row + col
    }
  }

  /** The part of the tape a screen shows. */
  function Window(t: Tape): seq<Row>
    requires t.Valid()
  {
    t.rows[|t.rows| - HEIGHT..]
  }

  /** Down one row; past the end the tape gets a blank row in the current colour. */
  function NewLine(t: Tape): Tape
    requires t.Valid()
  {
    t.(rows := if t.row + 1 < |t.rows| then t.rows else t.rows + [BlankRow(t.color)], row := t.row + 1, col := 0)
  }

  function Put(t: Tape, b: byte): (r: Tape)
    requires t.Valid()
    ensures r.Valid() && r.row == t.row && r.col == t.col && r.color == t.color
  {
    t.(rows := t.rows[t.row := t.rows[t.row][t.col := ScreenChar(b, t.color)]])
  }

  function WriteByte(t: Tape, b: byte): Tape
    requires t.Valid()
  {
    if b == NEWLINE then NewLine(t)
    else
      var t1 := Put(t, b);
      if t.col + 1 < WIDTH then t1.(col := t.col + 1) else NewLine(t1.(col := 0))
  }

  /** What `write_string` writes for a byte. */
  function Shown(b: byte): byte {
    if 0x20 <= b <= 0x7E || b == NEWLINE then b else QUESTION
  }

  function WriteString(t: Tape, s: seq<byte>): (r: Tape)
    requires t.Valid()
    ensures r.Valid() && r.color == t.color && |r.rows| >= |t.rows|
  {
    if s == [] then t else WriteByte(WriteString(t, s[..|s| - 1]), Shown(s[|s| - 1]))
  }

  /** Where the text goes on an endless tape of 80 columns: one place on, or to the start of the next row. */
  function Advance(p: nat, b: byte): nat {
    if b == 10 then 80 * (p / 80 + 1) else p + 1
  }

  function AdvanceAll(p: nat, s: seq<byte>): nat {
    if s == [] then p else Advance(AdvanceAll(p, s[..|s| - 1]), s[|s| - 1])
  }

  function CellAt(t: Tape, p: nat): ScreenChar
    requires p < WIDTH * |t.rows|
  {
    t.rows[p / WIDTH][p % WIDTH]
  }

  /** One byte: the cursor advances as on the endless tape, the byte is at the old cursor unless it
      is a newline, and every other cell of the tape is as before. */
  lemma WriteByteOnTape(t: Tape, b: byte, p: nat)
    requires t.Valid() && p < WIDTH * |t.rows|
    ensures var t' := WriteByte(t, b);
            && t'.Valid() && t'.Cursor() == Advance(t.Cursor(), b) && |t'.rows| >= |t.rows|
            && CellAt(t', p) == (if b != NEWLINE && p == t.Cursor() then ScreenChar(b, t.color) else CellAt(t, p))
  {
    assert t.Cursor() / WIDTH == t.row && t.Cursor() % WIDTH == t.col;
    assert p == WIDTH * (p / WIDTH) + p % WIDTH;
  }

  lemma {:induction false} CursorFollows(t: Tape, s: seq<byte>)
    requires t.Valid()
    ensures WriteString(t, s).Cursor() == AdvanceAll(t.Cursor(), s)
    decreases |s|
  {
    if s != [] {
      var s0 := s[..|s| - 1];
      CursorFollows(t, s0);
      WriteByteOnTape(WriteString(t, s0), Shown(s[|s| - 1]), 0);
    }
  }

  lemma AdvanceIncreases(p: nat, b: byte)
    ensures Advance(p, b) > p
  {
  }

  /** Cells behind the cursor never change again. */
  lemma {:induction false} WrittenStays(t: Tape, s: seq<byte>, p: nat)
    requires t.Valid() && p < t.Cursor()
    ensures p < WIDTH * |t.rows| && CellAt(WriteString(t, s), p) == CellAt(t, p)
    ensures p < WriteString(t, s).Cursor()
    decreases |s|
  {
    assert t.Cursor() < WIDTH * |t.rows|;
    if s != [] {
      var s0 := s[..|s| - 1];
      WrittenStays(t, s0, p);
      var t0 := WriteString(t, s0);
      WriteByteOnTape(t0, Shown(s[|s| - 1]), p);
      AdvanceIncreases(t0.Cursor(), Shown(s[|s| - 1]));
    }
  }

  lemma {:induction false} WriteStringSplits(t: Tape, s: seq<byte>, i: nat)
    requires t.Valid() && i <= |s|
    ensures WriteString(t, s) == WriteString(WriteString(t, s[..i]), s[i..])
    decreases |s|
  {
    if i < |s| {
      var s0 := s[..|s| - 1];
      WriteStringSplits(t, s0, i);
      assert s0[..i] == s[..i] && s0[i..] == s[i..][..|s[i..]| - 1];
    } else {
      assert s[..i] == s;
    }
  }

  /** The tape after a string: every byte that is not a newline stands, in the current colour, where
      wrapping at column 80 puts it; as itself if it is printable ASCII, and otherwise as a '?'. */
  lemma TextOnTape(t: Tape, s: seq<byte>, i: nat)
    requires t.Valid() && i < |s| && s[i] != 10
    ensures var r, p := WriteString(t, s), AdvanceAll(t.Cursor(), s[..i]);
            && p < 80 * |r.rows|
            && (0x20 <= s[i] <= 0x7E ==> r.rows[p / 80][p % 80] == ScreenChar(s[i], t.color))
            && (!(0x20 <= s[i] <= 0x7E) ==> r.rows[p / 80][p % 80] == ScreenChar(63, t.color))
  {
    var t0 := WriteString(t, s[..i]);
    CursorFollows(t, s[..i]);
    var p := t0.Cursor();
    assert p < WIDTH * |t0.rows|;
    WriteByteOnTape(t0, Shown(s[i]), p);
    AdvanceIncreases(p, Shown(s[i]));
    var t1 := WriteString(t, s[..i + 1]);
    assert s[..i + 1][..i] == s[..i];
    WrittenStays(t1, s[i + 1..], p);
    WriteStringSplits(t, s, i + 1);
  }

  /** No byte of the string lands on cell `p`. */
  ghost predicate Missed(t: Tape, s: seq<byte>, p: nat) {
    forall i :: 0 <= i < |s| && s[i] != NEWLINE ==> p != AdvanceAll(t.Cursor(), s[..i])
  }

  lemma WriteByteAdds(t: Tape, b: byte, p: nat)
    requires t.Valid() && WIDTH * |t.rows| <= p < WIDTH * |WriteByte(t, b).rows|
    ensures CellAt(WriteByte(t, b), p) == ScreenChar(SPACE, t.color)
  {
    var t1 := if b == NEWLINE then t else Put(t, b);
    assert p / WIDTH == |t.rows| && |t1.rows| == |t.rows|;
  }

  /** A cell no byte lands on: in a row the tape had it stays, and in a row added by a scroll it is a
      space in the colour current at that scroll. */
  lemma {:induction false} MissedCells(t: Tape, s: seq<byte>, p: nat)
    requires t.Valid() && p < WIDTH * |WriteString(t, s).rows| && Missed(t, s, p)
    ensures CellAt(WriteString(t, s), p) ==
              if p < WIDTH * |t.rows| then CellAt(t, p) else ScreenChar(SPACE, t.color)
    decreases |s|
  {
    if s != [] {
      var s0, b := s[..|s| - 1], Shown(s[|s| - 1]);
      var t0 := WriteString(t, s0);
      CursorFollows(t, s0);
      assert forall i :: 0 <= i < |s0| ==> s0[..i] == s[..i];
      assert Missed(t, s0, p);
      if p < WIDTH * |t0.rows| {
        MissedCells(t, s0, p);
        WriteByteOnTape(t0, b, p);
      } else {
        WriteByteAdds(t0, b, p);
      }
    }
  }

  /** The writer; `tape` is all it has ever shown, and the buffer its last 25 rows. */
  class Writer {
    var row: nat
    var col: nat
    var defaultColor: byte
    const buffer: array2<ScreenChar>
    ghost var tape: Tape

    ghost predicate Valid()
      reads this, buffer
    {
      && buffer.Length0 == HEIGHT && buffer.Length1 == WIDTH
      && tape.Valid() && row == tape.row - (|tape.rows| - HEIGHT) && col == tape.col && defaultColor == tape.color
      && forall r, c :: 0 <= r < HEIGHT && 0 <= c < WIDTH ==> buffer[r, c] == Window(tape)[r][c]
    }

    /** A writer over a screen that shows anything at all. */
    constructor (screen: array2<ScreenChar>, color: byte)
      requires screen.Length0 == 25 && screen.Length1 == 80
      ensures Valid() && buffer == screen && tape.Cursor() == 0 && |tape.rows| == HEIGHT && tape.color == color
    {
      row, col, defaultColor, buffer := 0, 0, color, screen;
      var rows := seq(HEIGHT, r requires 0 <= r < HEIGHT reads screen =>
                                seq(WIDTH, c requires 0 <= c < WIDTH reads screen => screen[r, c]));
      tape := Tape(rows, 0, 0, color);
    }

    method SetColor(color: byte)
      requires Valid()
      modifies this
      ensures Valid() && tape == old(tape).(color := color)
    {
      defaultColor := color;
      tape := tape.(color := color);
    }

    method ClearRow(r: nat)
      requires buffer.Length0 == HEIGHT && buffer.Length1 == WIDTH && r < HEIGHT
      modifies buffer
      ensures forall c :: 0 <= c < WIDTH ==> buffer[r, c] == ScreenChar(SPACE, defaultColor)
      ensures forall q, c :: 0 <= q < HEIGHT && 0 <= c < WIDTH && q != r ==> buffer[q, c] == old(buffer[q, c])
    {
      for c := 0 to WIDTH
        invariant forall d :: 0 <= d < c ==> buffer[r, d] == ScreenChar(SPACE, defaultColor)
        invariant forall q, d :: 0 <= q < HEIGHT && 0 <= d < WIDTH && q != r ==> buffer[q, d] == old(buffer[q, d])
      {
        buffer[r, c] := ScreenChar(SPACE, defaultColor);
      }
    }

    /** The scroll: every row takes the contents of the one below it. */
    method ScrollUp()
      requires buffer.Length0 == HEIGHT && buffer.Length1 == WIDTH
      modifies buffer
      ensures forall q, c :: 0 <= q < HEIGHT - 1 && 0 <= c < WIDTH ==> buffer[q, c] == old(buffer[q + 1, c])
    {
      for r := 1 to HEIGHT
        invariant forall q, d :: 0 <= q < r - 1 && 0 <= d < WIDTH ==> buffer[q, d] == old(buffer[q + 1, d])
        invariant forall q, d :: r - 1 <= q < HEIGHT && 0 <= d < WIDTH ==> buffer[q, d] == old(buffer[q, d])
      {
        for c := 0 to WIDTH
          invariant forall q, d :: 0 <= q < r - 1 && 0 <= d < WIDTH ==> buffer[q, d] == old(buffer[q + 1, d])
          invariant forall d :: 0 <= d < c ==> buffer[r - 1, d] == old(buffer[r, d])
          invariant forall q, d :: r <= q < HEIGHT && 0 <= d < WIDTH ==> buffer[q, d] == old(buffer[q, d])
        {
          buffer[r - 1, c] := buffer[r, c];
        }
      }
    }

    /** `new_line`: at the bottom the screen scrolls, and its last row is blank in the current colour. */
    method StartNewLine()
      requires Valid()
      modifies this, buffer
      ensures Valid() && tape == NewLine(old(tape))
    {
      ghost var t := tape;
      row, col := row + 1, 0;
      if row >= HEIGHT {
        row := HEIGHT - 1;
        ScrollUp();
        ClearRow(HEIGHT - 1);
        tape := NewLine(t);
        assert Window(tape) == Window(t)[1..] + [BlankRow(t.color)];
      } else {
        tape := NewLine(t);
      }
    }

    /** The character under the cursor. */
    method PutChar(b: byte)
      requires Valid()
      modifies this`tape, buffer
      ensures Valid() && tape == Put(old(tape), b)
    {
      ghost var t := tape;
      buffer[row, col] := ScreenChar(b, defaultColor);
      tape := Put(t, b);
      assert Window(tape) == Window(t)[row := t.rows[t.row][t.col := ScreenChar(b, t.color)]];
    }

    method WriteOneByte(b: byte)
      requires Valid()
      modifies this, buffer
      ensures Valid() && tape == WriteByte(old(tape), b)
    {
      if b == NEWLINE {
        StartNewLine();
      } else {
        PutChar(b);
        hide Put, Window;
        col := col + 1;
        if col >= WIDTH {
          col, tape := 0, tape.(col := 0);
          StartNewLine();
        } else {
          tape := tape.(col := col);
        }
      }
    }

    /** `write_string`: for every string and every screen, the buffer ends as the last 25 rows of the
        tape with the string written on it. */
    method WriteText(s: seq<byte>)
      requires Valid()
      modifies this, buffer
      ensures Valid() && tape == WriteString(old(tape), s)
    {
      for i := 0 to |s|
        invariant Valid() && tape == WriteString(old(tape), s[..i])
      {
        assert s[..i + 1][..i] == s[..i];
        WriteOneByte(Shown(s[i]));
      }
      assert s[..|s|] == s;
    }
  }
}
