/**
 Predictions beside the sender whose frames they are tagged with: what an echo ack retires is
 exactly what the acked state contains.
 */
module PredictionLaws {
  import opened Basics
  import opened Streams
  import opened Fragments
  import opened SenderLaws
  import opened Outbound
  import opened Sending
  import opened Predictions

  /** `places` says where in everything typed each cell's keystroke sits. */
  datatype Overlay = Overlay(out: Out, pred: Prediction, places: seq<nat>)

  datatype Event =
    | Input(bytes: seq<byte>, cols: int, rows: int, at: (int, int))
    | Echo(ack: u64)
    | Toggle(on: bool)
    | Other(op: Op)

  function TrackByte(p: Prediction, places: seq<nat>, cols: int, rows: int, frame: u64, b: byte, at: nat): seq<nat> {
    var n := |FeedByte(p, cols, rows, frame, b).cells|;
    if n > |p.cells| then places + [at] else if n < |p.cells| then Popped(places) else places
  }

  function Track(p: Prediction, places: seq<nat>, cols: int, rows: int, frame: u64, bytes: seq<byte>, at: nat): seq<nat>
    decreases |bytes|
  {
    if bytes == [] || !Predictable(bytes[0]) then places
    else
      Track(FeedByte(p, cols, rows, frame, bytes[0]), TrackByte(p, places, cols, rows, frame, bytes[0], at),
            cols, rows, frame, bytes[1..], at + 1)
  }

  /** Input types the bytes and predicts them under the next frame, as one command does. */
  function TypeAndPredict(v: Overlay, bytes: seq<byte>, cols: int, rows: int, at: (int, int), z: Zlib): Overlay
    requires v.out.sender.Live()
  {
    var op := Type(Bytes(bytes));
    if !Enabled(v.out, op) then v
    else
      var frame, p := FrameOf(v.out), v.pred;
      var started := if p.cursor.None? then p.(cursor := Some(at)) else p;
      Overlay(Apply(v.out, op, z), PredictInput(p, cols, rows, at, frame, bytes),
              if |bytes| > PASTE_THRESHOLD || !p.enabled then v.places
              else Track(started, v.places, cols, rows, frame, bytes, |v.out.history.typed|))
  }

  function React(v: Overlay, e: Event, z: Zlib): Overlay
    requires v.out.sender.Live() && |v.pred.cells| == |v.pred.frames| == |v.places|
  {
    match e
    case Input(bytes, cols, rows, at) => TypeAndPredict(v, bytes, cols, rows, at, z)
    case Echo(ack) => v.(pred := Retired(v.pred, ack), places := v.places[Confirmed(v.pred.frames, ack)..])
    case Toggle(on) =>
      if on then v.(pred := v.pred.(enabled := true)) else v.(pred := Prediction(false, [], [], None), places := [])
    case Other(op) => v.(out := Apply(v.out, op, z))
  }

  /** The keystroke is where the overlay says, and the frame parts the states without it from those with it. */
  predicate Tagged(h: History, frame: u64, place: nat, ch: byte) {
    && place < |h.typed| && h.typed[place] == Byte(ch)
    && forall n <- h.states :: n < frame <==> |h.states[n]| <= place
  }

  predicate Placed(h: History, p: Prediction, places: seq<nat>) {
    && |p.cells| == |p.frames| == |places|
    && Sorted(p.frames)
    && forall i | 0 <= i < |places| :: Tagged(h, p.frames[i], places[i], p.cells[i].ch)
  }

  ghost predicate OverlayInv(v: Overlay, z: Zlib) {
    && OutInv(v.out, z)
    && Placed(v.out.history, v.pred, v.places)
    && forall i | 0 <= i < |v.pred.frames| :: v.pred.frames[i] <= v.out.sender.Back().num + 1
  }

  // ----- what the sender does on its own -----

  lemma {:induction false} TagsStay(o: Out, o': Out, frame: u64, place: nat, ch: byte)
    requires |o.sender.sent| > 0 && |o'.sender.sent| > 0 && Grows(o, o')
    requires Tagged(o.history, frame, place, ch) && frame <= o.sender.Back().num + 1
    ensures Tagged(o'.history, frame, place, ch)
  {
  }

  lemma {:induction false} OtherKeeps(v: Overlay, op: Op, z: Zlib)
    requires OverlayInv(v, z)
    ensures v.out.sender.Live()
    ensures OverlayInv(v.(out := Apply(v.out, op, z)), z)
  {
    ApplyKeeps(v.out, op, z);
    hide Apply, Tagged, Grows, Inv, EmissionsOk, IdsOk, Timed;
    InvLive(v.out.sender, v.out.history);
    var o := Apply(v.out, op, z);
    InvLive(o.sender, o.history);
    GrowsBack(v.out, o);
    forall i | 0 <= i < |v.places| ensures Tagged(o.history, v.pred.frames[i], v.places[i], v.pred.cells[i].ch) {
      TagsStay(v.out, o, v.pred.frames[i], v.places[i], v.pred.cells[i].ch);
    }
  }

  lemma {:induction false} GrowsBack(o: Out, o': Out)
    requires |o.sender.sent| > 0 && |o'.sender.sent| > 0 && Grows(o, o')
    ensures o.sender.Back().num <= o'.sender.Back().num
  {
  }

  // ----- a burst -----

  /** From position `at` on, no state holds what is typed, and `frame` is above them all. */
  predicate Ahead(h: History, frame: u64, at: nat) {
    forall n <- h.states :: n < frame && |h.states[n]| <= at
  }

  lemma {:induction false} ByteKeeps(
    h: History, p: Prediction, places: seq<nat>, cols: int, rows: int, frame: u64, b: byte, at: nat)
    requires Placed(h, p, places) && AtMost(p.frames, frame) && Ahead(h, frame, at)
    requires at < |h.typed| && h.typed[at] == Byte(b)
    ensures Placed(h, FeedByte(p, cols, rows, frame, b), TrackByte(p, places, cols, rows, frame, b, at))
    ensures AtMost(FeedByte(p, cols, rows, frame, b).frames, frame)
  {
    assert Tagged(h, frame, at, b);
    hide Tagged, Ahead;
  }

  lemma {:induction false} BurstKeeps(
    h: History, p: Prediction, places: seq<nat>, cols: int, rows: int, frame: u64, bytes: seq<byte>, at: nat)
    requires Placed(h, p, places) && AtMost(p.frames, frame) && Ahead(h, frame, at)
    requires at + |bytes| == |h.typed| && forall i | 0 <= i < |bytes| :: h.typed[at + i] == Byte(bytes[i])
    ensures Placed(h, Feed(p, cols, rows, frame, bytes), Track(p, places, cols, rows, frame, bytes, at))
    ensures AtMost(Feed(p, cols, rows, frame, bytes).frames, frame)
    decreases |bytes|
  {
    hide Placed, AtMost, FeedByte, TrackByte;
    if bytes != [] && Predictable(bytes[0]) {
      assert h.typed[at + 0] == Byte(bytes[0]);
      ByteKeeps(h, p, places, cols, rows, frame, bytes[0], at);
      forall i | 0 <= i < |bytes[1..]| ensures h.typed[at + 1 + i] == Byte(bytes[1..][i]) {
        assert h.typed[at + (i + 1)] == Byte(bytes[i + 1]);
      }
      BurstKeeps(h, FeedByte(p, cols, rows, frame, bytes[0]), TrackByte(p, places, cols, rows, frame, bytes[0], at),
                 cols, rows, frame, bytes[1..], at + 1);
    }
  }

  /** Before the burst is sent, every recorded state stops short of it and is numbered below its frame. */
  lemma {:induction false} BurstIsAhead(o: Out, bytes: seq<byte>, z: Zlib)
    requires OutInv(o, z) && Enabled(o, Type(Bytes(bytes)))
    ensures var o', at := Apply(o, Type(Bytes(bytes)), z), |o.history.typed|;
            && |o'.sender.sent| > 0 && FrameOf(o) == o.sender.Back().num + 1 == o'.sender.Back().num + 1
            && Ahead(o'.history, FrameOf(o), at)
            && at + |bytes| == |o'.history.typed|
            && forall i | 0 <= i < |bytes| :: o'.history.typed[at + i] == Byte(bytes[i])
  {
    hide Faithful, Rising, Timed, EmissionsOk, IdsOk;
  }

  lemma {:induction false} InputKeeps(v: Overlay, bytes: seq<byte>, cols: int, rows: int, at: (int, int), z: Zlib)
    requires OverlayInv(v, z)
    ensures v.out.sender.Live()
    ensures OverlayInv(TypeAndPredict(v, bytes, cols, rows, at, z), z)
  {
    hide OutInv, Apply, Feed, Track, Enabled, Tagged, Ahead, FrameOf;
    var op := Type(Bytes(bytes));
    OutLive(v.out, z);
    OtherKeeps(v, op, z);
    if Enabled(v.out, op) {
      BurstIsAhead(v.out, bytes, z);
      var o, p := Apply(v.out, op, z), v.pred;
      var started := if p.cursor.None? then p.(cursor := Some(at)) else p;
      BurstKeeps(o.history, started, v.places, cols, rows, FrameOf(v.out), bytes, |v.out.history.typed|);
    }
  }

  // ----- retirement -----

  lemma {:induction false} ConfirmedParts(frames: seq<u64>, ack: u64)
    requires Sorted(frames)
    ensures forall i | 0 <= i < |frames| :: i < Confirmed(frames, ack) <==> frames[i] <= ack
  {
    if frames != [] && frames[0] <= ack { ConfirmedParts(frames[1..], ack); }
  }

  lemma {:induction false} EchoKeeps(v: Overlay, ack: u64, z: Zlib)
    requires OverlayInv(v, z)
    ensures OverlayInv(v.(pred := Retired(v.pred, ack), places := v.places[Confirmed(v.pred.frames, ack)..]), z)
  {
    hide OutInv, Tagged, Confirmed;
    OutLive(v.out, z);
  }

  lemma {:induction false} ReactKeeps(v: Overlay, e: Event, z: Zlib)
    requires OverlayInv(v, z)
    ensures v.out.sender.Live()
    ensures OverlayInv(React(v, e, z), z)
  {
    InvLive(v.out.sender, v.out.history);
    match e
    case Input(bytes, cols, rows, at) => InputKeeps(v, bytes, cols, rows, at, z); hide TypeAndPredict;
    case Echo(ack) => EchoKeeps(v, ack, z);
    case Toggle(on) =>
    case Other(op) => OtherKeeps(v, op, z);
    hide OutInv, Tagged, Apply;
  }

  ghost function Watch(v: Overlay, events: seq<Event>, z: Zlib): (r: Overlay)
    requires OverlayInv(v, z)
    ensures OverlayInv(r, z)
    decreases |events|
  {
    if events == [] then v
    else
      ReactKeeps(v, events[0], z);
      Watch(React(v, events[0], z), events[1..], z)
  }

  ghost function WatchFromStart(now: nat, mindelay: nat, on: bool, events: seq<Event>, z: Zlib): (r: Overlay)
    ensures OverlayInv(r, z)
  {
    InitOutInv(now, mindelay, z);
    Watch(Overlay(InitOut(now, mindelay), Prediction(on, [], [], None), []), events, z)
  }

  /**
   Over every run of typing, retractions, sends and echo acks: frames are sorted and parallel to
   the cells; an echo ack of a recorded state retires a cell if and only if that state contains
   the cell's own keystroke; and the retired cells are a prefix.
   */
  lemma {:induction false} RetirementIsExact(
    now: nat, mindelay: nat, on: bool, events: seq<Event>, z: Zlib, ack: u64, i: nat)
    requires i < |WatchFromStart(now, mindelay, on, events, z).pred.cells|
    ensures var v := WatchFromStart(now, mindelay, on, events, z);
            var h := v.out.history;
            && |v.pred.cells| == |v.pred.frames| == |v.places| && Sorted(v.pred.frames)
            && v.places[i] < |h.typed| && h.typed[v.places[i]] == Byte(v.pred.cells[i].ch)
            && (i < Confirmed(v.pred.frames, ack) <==> v.pred.frames[i] <= ack)
            && (ack in h.states ==> (i < Confirmed(v.pred.frames, ack) <==> v.places[i] < |h.states[ack]|))
  {
    var v := WatchFromStart(now, mindelay, on, events, z);
    hide WatchFromStart, OutInv;
    ConfirmedParts(v.pred.frames, ack);
    assert Tagged(v.out.history, v.pred.frames[i], v.places[i], v.pred.cells[i].ch);
  }
}
