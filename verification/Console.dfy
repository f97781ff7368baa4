/** The text console of kernel/console.c: an 80x25 buffer scrolled in place, proved to be the last
    25 rows of an unbounded transcript with delayed wrap. */
module Console {
  import opened Bits

  const COLS: nat := 80
  const ROWS: nat := 25
  const CELLS: nat := COLS * ROWS

  /** Character in the low byte, attribute above it. */
  function Cell(c: byte, attr: nat): (r: nat)
    ensures r % 256 == c && r / 256 == attr && r == c + 256 * attr
  {
    CellSum(c, attr);
    Or(attr * 256, c)
  }

  lemma {:induction false} CellSum(c: byte, attr: nat)
    ensures Or(attr * 256, c) == attr * 256 + c
  {
    assert Pow2(8) == 256 by { Powers(); }
    OrShifted(attr, 8, c);
  }

  function Blank(attr: nat): nat { Cell(32, attr) }

  /** What a byte puts on the screen: bytes are signed characters, the unprintable ones show as '?'. */
  function Glyph(b: byte): byte { if b < 32 || b > 126 then 63 else b }

  datatype Event = Byte(b: byte) | Colour(attr: nat) | Clear

  // ---------------------------------------------------------------- the transcript

  /** All rows ever started, at least a screenful, and a cursor in one of the last 25. */
  datatype Transcript = Transcript(rows: seq<seq<nat>>, row: nat, col: nat, attr: nat)

  function BlankRow(attr: nat): (r: seq<nat>)
    ensures |r| == COLS
  {
    seq(COLS, _ => Blank(attr))
  }

  function Fresh(attr: nat): Transcript {
    Transcript(seq(ROWS, _ => BlankRow(attr)), 0, 0, attr)
  }

  ghost predicate GoodTranscript(t: Transcript) {
    && |t.rows| >= ROWS && |t.rows| - ROWS <= t.row < |t.rows| && t.col <= COLS
    && (|t.rows| > ROWS ==> t.row == |t.rows| - 1)
    && forall r :: 0 <= r < |t.rows| ==> |t.rows[r]| == COLS
  }

  /** Down one row, starting a new one below the last. */
  function LineFeed(t: Transcript): Transcript {
    t.(rows := if t.row + 1 >= |t.rows| then t.rows + [BlankRow(t.attr)] else t.rows, row := t.row + 1, col := 0)
  }

  function SetCell(t: Transcript, col: nat, v: nat): Transcript
    requires t.row < |t.rows| && col < |t.rows[t.row]|
  {
    var r: seq<nat> := t.rows[t.row][col := v];
    t.(rows := t.rows[t.row := r])
  }

  ghost function Put(t: Transcript, b: byte): Transcript
    requires GoodTranscript(t)
  {
    if b == 13 then t
    else if b == 10 then LineFeed(t)
    else if b == 8 then if t.col > 0 then SetCell(t, t.col - 1, Blank(t.attr)).(col := t.col - 1) else t
    else
      var u := if t.col >= COLS then LineFeed(t) else t;
      SetCell(u, u.col, Cell(Glyph(b), u.attr)).(col := u.col + 1)
  }

  ghost function After(t: Transcript, e: Event): Transcript
    requires GoodTranscript(t)
  {
    match e
    case Byte(b) => Put(t, b)
    case Colour(a) => t.(attr := And(a, 15))
    case Clear => Fresh(t.attr)
  }

  lemma {:induction false} FreshIsGood(attr: nat)
    ensures GoodTranscript(Fresh(attr))
  {
  }

  lemma {:induction false} LineFeedGood(t: Transcript)
    requires GoodTranscript(t)
    ensures GoodTranscript(LineFeed(t))
  {
  }

  lemma {:induction false} SetCellGood(t: Transcript, col: nat, v: nat)
    requires GoodTranscript(t) && col < COLS
    ensures GoodTranscript(SetCell(t, col, v))
  {
  }

  lemma {:induction false} PutGood(t: Transcript, b: byte)
    requires GoodTranscript(t)
    ensures GoodTranscript(Put(t, b))
  {
    LineFeedGood(t);
    if b == 8 && t.col > 0 {
      SetCellGood(t, t.col - 1, Blank(t.attr));
    } else if b != 13 && b != 10 && b != 8 {
      var u := if t.col >= COLS then LineFeed(t) else t;
      SetCellGood(u, u.col, Cell(Glyph(b), u.attr));
    }
  }

  lemma {:induction false} AfterGood(t: Transcript, e: Event)
    requires GoodTranscript(t)
    ensures GoodTranscript(After(t, e))
  {
    match e {
      case Byte(b) => PutGood(t, b);
      case Colour(a) =>
      case Clear => FreshIsGood(t.attr);
    }
  }

  /** The transcript of a whole input. */
  ghost function Replay(t: Transcript, events: seq<Event>): (r: Transcript)
    requires GoodTranscript(t)
    ensures GoodTranscript(r)
    decreases |events|
  {
    if |events| == 0 then t
    else
      AfterGood(t, events[0]);
      Replay(After(t, events[0]), events[1..])
  }

  // ---------------------------------------------------------------- the window

  /** Cell p of the last 25 rows. */
  ghost function WindowCell(t: Transcript, p: nat): nat
    requires GoodTranscript(t) && p < CELLS
  {
    t.rows[|t.rows| - ROWS + p / COLS][p % COLS]
  }

  ghost predicate IsWindow(vga: seq<nat>, t: Transcript)
    requires GoodTranscript(t)
  {
    |vga| == CELLS && forall p :: 0 <= p < CELLS ==> vga[p] == WindowCell(t, p)
  }

  /** The screen shows the transcript, with the cursor where it belongs. */
  ghost predicate Shows(vga: seq<nat>, row: nat, col: nat, attr: nat, t: Transcript) {
    && GoodTranscript(t) && IsWindow(vga, t)
    && row == t.row - (|t.rows| - ROWS) && col == t.col && attr == t.attr
  }

  lemma {:induction false} SetCellWindow(vga: seq<nat>, t: Transcript, col: nat, v: nat)
    requires GoodTranscript(t) && IsWindow(vga, t) && col < COLS
    ensures var row := t.row - (|t.rows| - ROWS);
      row * COLS + col < CELLS && GoodTranscript(SetCell(t, col, v))
      && IsWindow(vga[row * COLS + col := v], SetCell(t, col, v))
  {
    SetCellGood(t, col, v);
    var row := t.row - (|t.rows| - ROWS);
    var at := row * COLS + col;
    forall p | 0 <= p < CELLS
      ensures vga[at := v][p] == WindowCell(SetCell(t, col, v), p)
    {
      assert vga[p] == WindowCell(t, p);
      assert p == at <==> p / COLS == row && p % COLS == col;
    }
  }

  /** The buffer after scrolling one row up. */
  ghost predicate Scrolled(next: seq<nat>, vga: seq<nat>, blank: nat)
    requires |vga| == CELLS
  {
    && |next| == CELLS
    && (forall p :: 0 <= p < CELLS - COLS ==> next[p] == vga[p + COLS])
    && (forall p :: CELLS - COLS <= p < CELLS ==> next[p] == blank)
  }

  lemma {:induction false} ScrollWindow(next: seq<nat>, vga: seq<nat>, t: Transcript)
    requires GoodTranscript(t) && IsWindow(vga, t) && t.row + 1 == |t.rows|
    requires Scrolled(next, vga, Blank(t.attr))
    ensures GoodTranscript(LineFeed(t)) && IsWindow(next, LineFeed(t))
  {
    LineFeedGood(t);
    var u := LineFeed(t);
    forall p | 0 <= p < CELLS
      ensures next[p] == WindowCell(u, p)
    {
      if p < CELLS - COLS {
        assert vga[p + COLS] == WindowCell(t, p + COLS);
        assert (p + COLS) / COLS == p / COLS + 1 && (p + COLS) % COLS == p % COLS;
      } else {
        assert p / COLS == ROWS - 1;
      }
    }
  }

  // ---------------------------------------------------------------- one byte on the screen

  /** The cursor goes down one row, the screen scrolls when it was in the last; cell `skip` aside. */
  ghost predicate NextRow(now: seq<nat>, was: seq<nat>, row': nat, row: nat, attr: nat, skip: int) {
    && |now| == |was| == CELLS
    && if row < ROWS - 1 then
         row' == row + 1 && forall p :: 0 <= p < CELLS && p != skip ==> now[p] == was[p]
       else
         row' == ROWS - 1 && forall p :: 0 <= p < CELLS && p != skip ==>
           now[p] == if p < CELLS - COLS then was[p + COLS] else 32 + 256 * attr
  }

  /** What one byte does to buffer and cursor: a carriage return nothing, a line feed the next row, a
      backspace blanks the cell before the cursor, and any other byte shows itself or, when it is not
      printable, '?', in the current colour; past the last column that starts the next row. */
  ghost predicate Shown(now: seq<nat>, row': nat, col': nat, was: seq<nat>, row: nat, col: nat, attr: nat, b: byte)
    requires |was| == CELLS && row < ROWS && col <= COLS
  {
    var v := (if 32 <= b <= 126 then b else 63) + 256 * attr;
    if b == 10 then NextRow(now, was, row', row, attr, -1) && col' == 0
    else if b == 13 || (b == 8 && col == 0) then now == was && row' == row && col' == col
    else if b == 8 then now == was[row * COLS + col - 1 := 32 + 256 * attr] && row' == row && col' == col - 1
    else if col < COLS then now == was[row * COLS + col := v] && row' == row && col' == col + 1
    else NextRow(now, was, row', row, attr, row' * COLS) && col' == 1 && row' < ROWS && now[row' * COLS] == v
  }

  lemma {:induction false} WrapShown(now: seq<nat>, mid: seq<nat>, was: seq<nat>, row': nat, row: nat, attr: nat, v: nat)
    requires NextRow(mid, was, row', row, attr, -1) && row < ROWS && now == mid[row' * COLS := v]
    ensures NextRow(now, was, row', row, attr, row' * COLS) && row' * COLS < CELLS && now[row' * COLS] == v
  {
  }

  // ---------------------------------------------------------------- the driver

  class Terminal {
    const vga: array<nat>
    var row: nat
    var col: nat
    var attr: nat

    ghost predicate Valid(t: Transcript)
      reads this, vga
    {
      vga.Length == CELLS && Shows(vga[..], row, col, attr, t)
    }

    /** The buffer as `qizo_console_init` leaves it. */
    constructor ()
      ensures fresh(vga) && Valid(Fresh(7))
    {
      vga := new nat[CELLS](_ => Blank(7));
      row, col, attr := 0, 0, 7;
    }

    /** `term_scroll`: past the last row, move 24 rows up in place and blank the last; else nothing. */
    method Scroll()
      requires vga.Length == CELLS
      modifies this`row, vga
      ensures old(row) < ROWS ==> row == old(row) && vga[..] == old(vga[..])
      ensures old(row) >= ROWS ==> row == ROWS - 1 && Scrolled(vga[..], old(vga[..]), Blank(attr))
    {
      if row < ROWS {
        return;
      }
      var i: nat := 0;
      while i < (ROWS - 1) * COLS
        invariant i <= (ROWS - 1) * COLS
        invariant forall p :: 0 <= p < i ==> vga[p] == old(vga[..])[p + COLS]
        invariant forall p :: i <= p < CELLS ==> vga[p] == old(vga[..])[p]
      {
        vga[i] := vga[i + COLS];
        i := i + 1;
      }
      while i < ROWS * COLS
        invariant (ROWS - 1) * COLS <= i <= ROWS * COLS
        invariant forall p :: 0 <= p < (ROWS - 1) * COLS ==> vga[p] == old(vga[..])[p + COLS]
        invariant forall p :: (ROWS - 1) * COLS <= p < i ==> vga[p] == Blank(attr)
      {
        vga[i] := Cell(32, attr);
        i := i + 1;
      }
      row := ROWS - 1;
    }

    /** Column zero of the next row, scrolling past the last. */
    method NewLine(ghost t: Transcript)
      requires Valid(t)
      modifies this`row, this`col, vga
      ensures Valid(LineFeed(t))
      ensures NextRow(vga[..], old(vga[..]), row, old(row), attr, -1) && col == 0
    {
      LineFeedGood(t);
      col := 0;
      row := row + 1;
      Scroll();
      if old(row) + 1 >= ROWS {
        ScrollWindow(vga[..], old(vga[..]), t);
      }
    }

    /** Store into the cursor row. */
    method WriteCell(at: nat, v: nat, ghost t: Transcript)
      requires Valid(t) && at < COLS
      modifies vga
      ensures GoodTranscript(t) && Valid(SetCell(t, at, v))
      ensures row * COLS + at < CELLS && vga[..] == old(vga[..])[row * COLS + at := v]
    {
      SetCellWindow(vga[..], t, at, v);
      ghost var was := vga[..];
      vga[row * COLS + at] := v;
      assert vga[..] == was[row * COLS + at := v];
    }

    /** Store at the cursor and move on. */
    method PutCell(c: byte, ghost t: Transcript)
      requires Valid(t) && col < COLS
      modifies this`col, vga
      ensures GoodTranscript(t) && Valid(SetCell(t, t.col, Cell(c, t.attr)).(col := t.col + 1)) && col == old(col) + 1
      ensures row * COLS + old(col) < CELLS && vga[..] == old(vga[..])[row * COLS + old(col) := c + 256 * attr]
    {
      WriteCell(col, Cell(c, attr), t);
      col := col + 1;
    }

    /** `term_putc` at a printable or unknown byte. */
    method PutShown(b: byte, ghost t: Transcript)
      requires Valid(t) && b != 8 && b != 10 && b != 13
      modifies this`row, this`col, vga
      ensures GoodTranscript(t) && Valid(Put(t, b))
      ensures Shown(vga[..], row, col, old(vga[..]), old(row), old(col), attr, b)
    {
      var c := if b < 32 || b > 126 then 63 else b;
      if col >= COLS {
        PutWrapped(c, t);
      } else {
        PutCell(c, t);
      }
    }

    /** The delayed wrap: next row first. */
    method PutWrapped(c: byte, ghost t: Transcript)
      requires Valid(t) && col >= COLS
      modifies this`row, this`col, vga
      ensures GoodTranscript(t) && GoodTranscript(LineFeed(t))
      ensures Valid(SetCell(LineFeed(t), 0, Cell(c, t.attr)).(col := 1))
      ensures NextRow(vga[..], old(vga[..]), row, old(row), attr, row * COLS) && col == 1
      ensures row < ROWS && row * COLS < CELLS && vga[row * COLS] == c + 256 * attr
    {
      NewLine(t);
      ghost var mid := vga[..];
      PutCell(c, LineFeed(t));
      WrapShown(vga[..], mid, old(vga[..]), row, old(row), attr, c + 256 * attr);
    }

    /** Backspace. */
    method BackSpace(ghost t: Transcript)
      requires Valid(t)
      modifies this`col, vga
      ensures GoodTranscript(t) && Valid(Put(t, 8))
      ensures Shown(vga[..], row, col, old(vga[..]), row, old(col), attr, 8)
    {
      if col > 0 {
        WriteCell(col - 1, Cell(32, attr), t);
        col := col - 1;
      }
    }

    /** `term_putc`. */
    method Putc(b: byte, ghost t: Transcript)
      requires Valid(t)
      modifies this`row, this`col, vga
      ensures GoodTranscript(t) && Valid(Put(t, b))
      ensures Shown(vga[..], row, col, old(vga[..]), old(row), old(col), attr, b)
    {
      if b == 13 {
        return;
      }
      if b == 10 {
        NewLine(t);
        return;
      }
      if b == 8 {
        BackSpace(t);
        return;
      }
      PutShown(b, t);
    }

    /** `qizo_clear`. */
    method ClearScreen(ghost t: Transcript)
      requires Valid(t)
      modifies this`row, this`col, vga
      ensures Valid(Fresh(t.attr)) && row == 0 && col == 0
      ensures forall p :: 0 <= p < CELLS ==> vga[p] == 32 + 256 * attr
    {
      var i: nat := 0;
      while i < CELLS
        invariant i <= CELLS && forall p :: 0 <= p < i ==> vga[p] == Blank(attr)
      {
        vga[i] := Cell(32, attr);
        i := i + 1;
      }
      col := 0;
      row := 0;
      FreshIsGood(attr);
    }

    /** `qizo_console_color`. */
    method SetColour(a: nat, ghost t: Transcript)
      requires Valid(t)
      modifies this`attr
      ensures Valid(t.(attr := And(a, 15))) && attr == a % 16
    {
      Powers();
      AndMask(a, 4);
      attr := And(a, 15);
    }

    /** For every sequence of bytes, colour changes and clears, the buffer is the last 25 rows of the
        transcript, with the row below 25 and the column at most 80. */
    method Play(events: seq<Event>, ghost t: Transcript)
      requires Valid(t)
      modifies this, vga
      ensures GoodTranscript(t) && Valid(Replay(t, events)) && row < ROWS && col <= COLS
    {
      var i: nat := 0;
      ghost var u := t;
      assert events[0..] == events;
      while i < |events|
        invariant i <= |events| && Valid(u) && Replay(t, events) == Replay(u, events[i..])
      {
        AfterGood(u, events[i]);
        match events[i] {
          case Byte(b) => Putc(b, u);
          case Colour(a) => SetColour(a, u);
          case Clear => ClearScreen(u);
        }
        assert events[i..][1..] == events[i + 1..];
        u := After(u, events[i]);
        i := i + 1;
      }
    }
  }
}
