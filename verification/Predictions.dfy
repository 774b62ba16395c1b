/** The overlay of predicted cells, each tagged with the frame its keystroke rides in. */
module Predictions {
  import opened Basics

  const PASTE_THRESHOLD: nat := 100

  datatype Cell = Cell(row: int, col: int, ch: byte)

  datatype Prediction = Prediction(enabled: bool, cells: seq<Cell>, frames: seq<u64>, cursor: Option<(int, int)>)

  function Shadow(p: Prediction): (int, int) {
    if p.cursor.Some? then p.cursor.value else (0, 0)
  }

  predicate Printable(b: byte) {
    0x20 <= b < 0x7F
  }

  predicate Predictable(b: byte) {
    b == 0x0D || b == 0x7F || Printable(b)
  }

  /** Nothing to pop leaves an overlay without cells as it is. */
  function Popped<T>(s: seq<T>): seq<T> {
    if s == [] then s else s[..|s| - 1]
  }

  /** One predictable byte: a line start, a retraction, or a guessed cell. */
  function FeedByte(p: Prediction, cols: int, rows: int, frame: u64, b: byte): Prediction {
    var (col, row) := Shadow(p);
    if b == 0x0D then p.(cursor := Some((0, if row + 1 < rows - 1 then row + 1 else rows - 1)))
    else if b == 0x7F then
      if p.cells == [] then p
      else
        var last := Last(p.cells);
        p.(cursor := Some((last.col, last.row)), cells := Popped(p.cells), frames := Popped(p.frames))
    else if Printable(b) && col < cols - 1 then
      p.(cells := p.cells + [Cell(row, col, b)], frames := p.frames + [frame], cursor := Some((col + 1, row)))
    else p
  }

  /** A burst up to its first unpredictable byte. */
  function Feed(p: Prediction, cols: int, rows: int, frame: u64, bytes: seq<byte>): Prediction
    decreases |bytes|
  {
    if bytes == [] || !Predictable(bytes[0]) then p
    else Feed(FeedByte(p, cols, rows, frame, bytes[0]), cols, rows, frame, bytes[1..])
  }

  /** `predict_input`: pastes are not predicted, and a fresh run starts at the display's cursor. */
  function PredictInput(p: Prediction, cols: int, rows: int, at: (int, int), frame: u64, bytes: seq<byte>): Prediction {
    if |bytes| > PASTE_THRESHOLD || !p.enabled then p
    else Feed(if p.cursor.None? then p.(cursor := Some(at)) else p, cols, rows, frame, bytes)
  }

  // ----- where predicted cells land -----

  /** The cells of printable bytes typed from column `col` of `row` on. */
  function RowOf(row: int, col: int, bytes: seq<byte>): (cells: seq<Cell>)
    ensures |cells| == |bytes| && forall i | 0 <= i < |bytes| :: cells[i] == Cell(row, col + i, bytes[i])
  {
    seq(|bytes|, i requires 0 <= i < |bytes| => Cell(row, col + i, bytes[i]))
  }

  function FrameTags(frame: u64, n: nat): (frames: seq<u64>)
    ensures |frames| == n && forall i | 0 <= i < n :: frames[i] == frame
  {
    seq(n, _ => frame)
  }

  /** How many of `n` printable bytes fit before the last column. */
  function Fitting(col: int, cols: int, n: nat): nat {
    if col >= cols - 1 then 0 else if n <= cols - 1 - col then n else cols - 1 - col
  }

  predicate AllPrintable(bytes: seq<byte>) {
    forall i | 0 <= i < |bytes| :: Printable(bytes[i])
  }

  lemma {:induction false} RowSplits(
    cells: seq<Cell>, frames: seq<u64>, frame: u64, row: int, col: int, bytes: seq<byte>)
    requires bytes != []
    ensures cells + RowOf(row, col, bytes) == cells + [Cell(row, col, bytes[0])] + RowOf(row, col + 1, bytes[1..])
    ensures frames + FrameTags(frame, |bytes|) == frames + [frame] + FrameTags(frame, |bytes| - 1)
  {
  }

  lemma {:induction false} PrintableByte(p: Prediction, cols: int, rows: int, frame: u64, b: byte, col: int, row: int)
    requires p.cursor == Some((col, row)) && Printable(b)
    ensures FeedByte(p, cols, rows, frame, b)
            == if col < cols - 1 then
                 p.(cells := p.cells + [Cell(row, col, b)], frames := p.frames + [frame], cursor := Some((col + 1, row)))
               else p
  {
  }

  /**
   Printable bytes from (col, row) become cells side by side, in order, up to the last column, which
   takes none; and the cursor ends behind them.
   */
  lemma {:induction false} PrintableRun(
    p: Prediction, cols: int, rows: int, frame: u64, bytes: seq<byte>, col: int, row: int)
    requires p.cursor == Some((col, row)) && AllPrintable(bytes)
    ensures var n := Fitting(col, cols, |bytes|);
            && n <= |bytes|
            && Feed(p, cols, rows, frame, bytes)
            == p.(cells := p.cells + RowOf(row, col, bytes[..n]), frames := p.frames + FrameTags(frame, n), cursor := Some((col + n, row)))
    decreases |bytes|
  {
    hide FeedByte;
    var n := Fitting(col, cols, |bytes|);
    if n == 0 {
      assert p.cells + RowOf(row, col, bytes[..n]) == p.cells && p.frames + FrameTags(frame, n) == p.frames;
    }
    if bytes != [] {
      assert Printable(bytes[0]);
      PrintableByte(p, cols, rows, frame, bytes[0], col, row);
      var q := FeedByte(p, cols, rows, frame, bytes[0]);
      var at := if n == 0 then col else col + 1;
      PrintableRun(q, cols, rows, frame, bytes[1..], at, row);
      if n == 0 {
        assert p.cells + RowOf(row, col, bytes[1..][..0]) == p.cells;
      } else {
        assert bytes[1..][..n - 1] == bytes[..n][1..];
        RowSplits(p.cells, p.frames, frame, row, col, bytes[..n]);
      }
    }
  }

  /** A burst is fed byte by byte, as far as it is predictable. */
  lemma {:induction false} FeedConcat(p: Prediction, cols: int, rows: int, frame: u64, a: seq<byte>, b: seq<byte>)
    requires forall i | 0 <= i < |a| :: Predictable(a[i])
    ensures Feed(p, cols, rows, frame, a + b) == Feed(Feed(p, cols, rows, frame, a), cols, rows, frame, b)
    decreases |a|
  {
    if a == [] {
      assert a + b == b;
    } else {
      assert (a + b)[0] == a[0] && (a + b)[1..] == a[1..] + b;
      FeedConcat(FeedByte(p, cols, rows, frame, a[0]), cols, rows, frame, a[1..], b);
    }
  }

  /** Nothing behind the first unpredictable byte is looked at. */
  lemma {:induction false} BurstStops(p: Prediction, cols: int, rows: int, frame: u64, a: seq<byte>, stop: byte, b: seq<byte>)
    requires (forall i | 0 <= i < |a| :: Predictable(a[i])) && !Predictable(stop)
    ensures Feed(p, cols, rows, frame, a + ([stop] + b)) == Feed(p, cols, rows, frame, a)
  {
    FeedConcat(p, cols, rows, frame, a, [stop] + b);
  }

  /** A carriage return goes to the start of the next row, or of the last one, and adds no cell. */
  lemma {:induction false} ReturnMoves(p: Prediction, cols: int, rows: int, frame: u64, col: int, row: int)
    requires p.cursor == Some((col, row)) || (p.cursor == None && (col, row) == (0, 0))
    ensures var q := Feed(p, cols, rows, frame, [0x0D]);
            && q.cells == p.cells && q.frames == p.frames && q.cursor.Some? && q.cursor.value.0 == 0
            && (row + 1 <= rows - 1 ==> q.cursor.value.1 == row + 1) && (row + 1 > rows - 1 ==> q.cursor.value.1 == rows - 1)
  {
    assert [0x0D as byte][1..] == [];
  }

  function Erase(n: nat): (bytes: seq<byte>)
    ensures |bytes| == n && forall i | 0 <= i < n :: bytes[i] == 0x7F
  {
    seq(n, _ => 0x7F)
  }

  /** Backspaces take the last cells back, and the cursor with them, to where the first one taken back was. */
  lemma {:induction false} ErasesTakeBack(p: Prediction, cols: int, rows: int, frame: u64, n: nat)
    requires n <= |p.cells| == |p.frames|
    ensures var q, kept := Feed(p, cols, rows, frame, Erase(n)), |p.cells| - n;
            && q.cells == p.cells[..kept] && q.frames == p.frames[..kept] && q.enabled == p.enabled
            && q.cursor == (if n == 0 then p.cursor else Some((p.cells[kept].col, p.cells[kept].row)))
    decreases n
  {
    if n > 0 {
      var bytes := Erase(n);
      assert bytes[0] == 0x7F && bytes[1..] == Erase(n - 1);
      ErasesTakeBack(FeedByte(p, cols, rows, frame, 0x7F), cols, rows, frame, n - 1);
    }
  }

  /** Without cells a backspace changes nothing. */
  lemma {:induction false} NothingToErase(p: Prediction, cols: int, rows: int, frame: u64)
    requires p.cells == []
    ensures Feed(p, cols, rows, frame, [0x7F]) == p
  {
    assert [0x7F as byte][1..] == [];
  }

  /** Typing printable bytes and then as many backspaces restores cells, frames and cursor. */
  lemma {:induction false} TypeAndErase(
    p: Prediction, cols: int, rows: int, frame: u64, bytes: seq<byte>, col: int, row: int)
    requires p.cursor == Some((col, row)) && AllPrintable(bytes) && col + |bytes| < cols && |p.cells| == |p.frames|
    ensures Feed(p, cols, rows, frame, bytes + Erase(|bytes|)) == p
  {
    var n := |bytes|;
    forall i | 0 <= i < n ensures Predictable(bytes[i]) { assert Printable(bytes[i]); }
    FeedConcat(p, cols, rows, frame, bytes, Erase(n));
    PrintableRun(p, cols, rows, frame, bytes, col, row);
    var q := Feed(p, cols, rows, frame, bytes);
    ErasesTakeBack(q, cols, rows, frame, n);
    assert q.cells[..|p.cells|] == p.cells && q.frames[..|p.cells|] == p.frames;
  }

  /** Pastes, and any input while prediction is off, are not predicted. */
  lemma {:induction false} NotPredicted(p: Prediction, cols: int, rows: int, at: (int, int), frame: u64, bytes: seq<byte>)
    requires |bytes| > 100 || !p.enabled
    ensures PredictInput(p, cols, rows, at, frame, bytes) == p
  {
  }

  /** A typed burst is predicted where the last guess ended, or at the display's cursor for the first. */
  lemma {:induction false} PredictedInPlace(p: Prediction, cols: int, rows: int, at: (int, int), frame: u64, bytes: seq<byte>)
    requires |bytes| <= 100 && p.enabled && AllPrintable(bytes)
    ensures var (col, row) := if p.cursor.Some? then p.cursor.value else at;
            var n := Fitting(col, cols, |bytes|);
            var q := PredictInput(p, cols, rows, at, frame, bytes);
            && n <= |bytes| && q.cells == p.cells + RowOf(row, col, bytes[..n])
            && q.frames == p.frames + FrameTags(frame, n) && q.cursor == Some((col + n, row))
  {
    var start := if p.cursor.Some? then p.cursor.value else at;
    PrintableRun(p.(cursor := Some(start)), cols, rows, frame, bytes, start.0, start.1);
  }

  // ----- retirement -----

  predicate Sorted(frames: seq<u64>) {
    forall i, j | 0 <= i < j < |frames| :: frames[i] <= frames[j]
  }

  predicate AtMost(frames: seq<u64>, frame: u64) {
    forall i | 0 <= i < |frames| :: frames[i] <= frame
  }

  /** The cells above the echo ack: a filter, with no assumption on order. */
  function Kept(cells: seq<Cell>, frames: seq<u64>, ack: u64): seq<Cell>
    requires |cells| == |frames|
  {
    if cells == [] then []
    else if frames[0] <= ack then Kept(cells[1..], frames[1..], ack)
    else [cells[0]] + Kept(cells[1..], frames[1..], ack)
  }

  /** On sorted frames, the cells that stay are exactly those whose frame is above the ack. */
  lemma {:induction false} KeptIsSuffix(cells: seq<Cell>, frames: seq<u64>, ack: u64, k: nat)
    requires |cells| == |frames| && k <= |frames|
    requires forall i | 0 <= i < k :: frames[i] <= ack
    requires forall i | k <= i < |frames| :: frames[i] > ack
    ensures Kept(cells, frames, ack) == cells[k..]
  {
    if cells != [] {
      KeptIsSuffix(cells[1..], frames[1..], ack, if k == 0 then 0 else k - 1);
    }
  }

  /** How many frames come before the first one above the ack. */
  function Confirmed(frames: seq<u64>, ack: u64): (n: nat)
    ensures n <= |frames|
  {
    if frames == [] || frames[0] > ack then 0 else 1 + Confirmed(frames[1..], ack)
  }

  lemma {:induction false} ConfirmedIs(frames: seq<u64>, ack: u64, k: nat)
    requires k <= |frames| && (forall i | 0 <= i < k :: frames[i] <= ack) && (k < |frames| ==> frames[k] > ack)
    ensures Confirmed(frames, ack) == k
  {
    if k > 0 { ConfirmedIs(frames[1..], ack, k - 1); }
  }

  function Retired(p: Prediction, ack: u64): Prediction
    requires |p.cells| == |p.frames|
  {
    var k := Confirmed(p.frames, ack);
    p.(cells := p.cells[k..], frames := p.frames[k..])
  }

  class PredictionState {
    var enabled: bool
    var cells: seq<Cell>
    var frames: seq<u64>
    var cursor: Option<(int, int)>

    function State(): Prediction
      reads this
    {
      Prediction(enabled, cells, frames, cursor)
    }

    /** Cells and frames run in parallel, in time order. */
    predicate Valid()
      reads this
    {
      |cells| == |frames| && Sorted(frames)
    }

    constructor (on: bool)
      ensures State() == Prediction(on, [], [], None) && Valid()
    {
      enabled, cells, frames, cursor := on, [], [], None;
    }

    method FeedBurst(cols: int, rows: int, frame: u64, bytes: seq<byte>)
      requires Valid() && AtMost(frames, frame)
      modifies this
      ensures State() == Feed(old(State()), cols, rows, frame, bytes)
      ensures Valid() && AtMost(frames, frame)
    {
      ghost var goal := Feed(State(), cols, rows, frame, bytes);
      for i := 0 to |bytes|
        invariant Feed(State(), cols, rows, frame, bytes[i..]) == goal
        invariant Valid() && AtMost(frames, frame)
      {
        var b := bytes[i];
        assert bytes[i..][1..] == bytes[i + 1..];
        var (col, row) := Shadow(State());
        if b == 0x0D {
          cursor := Some((0, if row + 1 < rows - 1 then row + 1 else rows - 1));
        } else if b == 0x7F {
          if |cells| > 0 {
            var last := cells[|cells| - 1];
            cursor := Some((last.col, last.row));
            cells, frames := cells[..|cells| - 1], frames[..|frames| - 1];
          }
        } else if 0x20 <= b < 0x7F {
          if col < cols - 1 {
            cells, frames := cells + [Cell(row, col, b)], frames + [frame];
            cursor := Some((col + 1, row));
          }
        } else {
          return;
        }
      }
    }

    method Predict(cols: int, rows: int, at: (int, int), frame: u64, bytes: seq<byte>)
      requires Valid() && AtMost(frames, frame)
      modifies this
      ensures State() == PredictInput(old(State()), cols, rows, at, frame, bytes)
      ensures Valid() && AtMost(frames, frame)
    {
      if |bytes| > PASTE_THRESHOLD { return; }
      if !enabled { return; }
      if cursor.None? { cursor := Some(at); }
      FeedBurst(cols, rows, frame, bytes);
    }

    /** The binary search behind `partition_point`. */
    method ConfirmedPrefixLen(ack: u64) returns (k: nat)
      requires Valid()
      ensures k <= |frames|
      ensures forall i | 0 <= i < k :: frames[i] <= ack
      ensures forall i | k <= i < |frames| :: frames[i] > ack
    {
      var lo, hi := 0, |frames|;
      while lo < hi
        invariant 0 <= lo <= hi <= |frames|
        invariant forall i | 0 <= i < lo :: frames[i] <= ack
        invariant forall i | hi <= i < |frames| :: frames[i] > ack
      {
        var mid := lo + (hi - lo) / 2;
        if frames[mid] <= ack { lo := mid + 1; } else { hi := mid; }
      }
      k := lo;
    }

    /** Drains exactly the cells whose frame is at or below the echo ack. */
    method Retire(ack: u64) returns (changed: bool)
      requires Valid()
      modifies this`cells, this`frames
      ensures Valid() && State() == Retired(old(State()), ack)
      ensures cells == Kept(old(cells), old(frames), ack)
      ensures !changed ==> State() == old(State())
      ensures changed <==> exists i | 0 <= i < |old(frames)| :: old(frames)[i] <= ack
    {
      var take := ConfirmedPrefixLen(ack);
      KeptIsSuffix(cells, frames, ack, take);
      ConfirmedIs(frames, ack, take);
      cells, frames := cells[take..], frames[take..];
      changed := take > 0;
      assert changed ==> old(frames)[0] <= ack;
    }

    method SetEnabled(on: bool)
      modifies this
      ensures State() == if on then old(State()).(enabled := true) else Prediction(false, [], [], None)
      ensures old(Valid()) ==> Valid()
    {
      enabled := on;
      if !on { cells, frames, cursor := [], [], None; }
    }
  }
}
