/**
 * Mapping the scene frame to a frame of an image-sequence volume
 * (`volume_sequence_frame`). Each mode folds the raw sequence frame
 * `scene - start + 1` into `[1, duration]` or rejects it; the frame offset is
 * added after folding, so an offset shifts an already bounded cycle.
 */
module SequenceFrame {
  import opened CInt

  /** `VOLUME_FRAME_NONE`: there is no frame to show at this scene time. */
  const FRAME_NONE: int := INT_MAX

  /** What happens to scene frames outside the sequence's range. */
  datatype SequenceMode = Clip | Extend | Repeat | PingPong

  /** The sequence settings of a volume datablock. */
  datatype Sequence = Sequence(
    isSequence: bool,
    mode: SequenceMode,
    frameStart: int,
    frameOffset: int,
    frameDuration: int)

  /**
   * Ping-pong folds over a period of `2 * duration - 2`, which is zero for a
   * one-frame sequence: the C code would then take a remainder by zero.
   */
  predicate PeriodDefined(s: Sequence)
  {
    !(s.isSequence && s.mode == PingPong && s.frameDuration == 1)
  }

  /** The 1-based position of the scene frame in the sequence, before folding. */
  function RawFrame(s: Sequence, sceneFrame: int): int
  {
    sceneFrame - s.frameStart + 1
  }

  /** Reference for Repeat: the one frame of `[1, d]` congruent to `raw` modulo `d`. */
  function RepeatReference(raw: int, d: int): int
    requires d > 0
  {
    (raw - 1) % d + 1
  }

  /**
   * Reference for PingPong: a triangle wave that climbs `1, 2, ..., d` and
   * falls back `d - 1, ..., 2` over a period of `2 * d - 2` frames.
   */
  function PingPongReference(raw: int, d: int): int
    requires d >= 2
  {
    var t := (raw - 1) % (2 * d - 2);
    if t < d then t + 1 else 2 * d - 1 - t
  }

  /**
   * The wrap shared by Repeat and PingPong: C remainder, a negative remainder
   * moved up by one period, and zero mapped to the period itself. The result
   * is the representative of `frame` modulo `period` in `[1, period]`.
   */
  function WrapOnePeriod(frame: int, period: int): (r: int)
    requires period != 0
    ensures period > 0 ==> 1 <= r <= period && r == RepeatReference(frame, period)
  {
    WrapIsResidue(frame, period);
    var m := CRem(frame, period);
    var m1 := if m < 0 then m + period else m;
    if m1 == 0 then period else m1
  }

  /** The remainder corrections pick the representative in `[1, period]`. */
  lemma {:induction false} WrapIsResidue(frame: int, period: int)
    requires period != 0
    ensures period > 0 ==>
              var m := CRem(frame, period);
              var m1 := if m < 0 then m + period else m;
              (if m1 == 0 then period else m1) == RepeatReference(frame, period)
  {
    if period > 0 {
      var m := CRem(frame, period);
      var q := CDiv(frame, period);
      if m >= 1 {
        EuclideanUnique(frame - 1, period, q, m - 1);
      } else if m < 0 {
        EuclideanUnique(frame - 1, period, q - 1, m + period - 1);
      } else {
        EuclideanUnique(frame - 1, period, q - 1, period - 1);
      }
    }
  }

  /** Ping-pong folding of a raw frame for a duration `d`. */
  function FoldPingPong(frame: int, d: int): (r: int)
    requires d != 1
    ensures d >= 2 ==> 1 <= r <= d && r == PingPongReference(frame, d)
  {
    var period := d * 2 - 2;
    var m := WrapOnePeriod(frame, period);
    if m > d then d * 2 - m else m
  }

  /** `volume_sequence_frame`: the file frame to load at `sceneFrame`, or `FRAME_NONE`. */
  function SequenceFrame(s: Sequence, sceneFrame: int): (r: int)
    requires PeriodDefined(s)
    ensures !s.isSequence ==> r == 0
    ensures s.isSequence && s.frameDuration == 0 ==> r == FRAME_NONE
    ensures s.isSequence && s.mode == Clip && s.frameDuration != 0 ==>
              var raw := RawFrame(s, sceneFrame);
              && (1 <= raw <= s.frameDuration ==> r == raw + s.frameOffset)
              && (raw < 1 || raw > s.frameDuration ==> r == FRAME_NONE)
    ensures s.isSequence && s.mode == Extend && s.frameDuration > 0 ==>
              var raw := RawFrame(s, sceneFrame);
              && 1 <= r - s.frameOffset <= s.frameDuration
              && (1 <= raw <= s.frameDuration ==> r - s.frameOffset == raw)
              && (raw < 1 ==> r - s.frameOffset == 1)
              && (raw > s.frameDuration ==> r - s.frameOffset == s.frameDuration)
    ensures s.isSequence && s.mode == Repeat && s.frameDuration > 0 ==>
              && 1 <= r - s.frameOffset <= s.frameDuration
              && r - s.frameOffset == RepeatReference(RawFrame(s, sceneFrame), s.frameDuration)
    ensures s.isSequence && s.mode == PingPong && s.frameDuration >= 2 ==>
              && 1 <= r - s.frameOffset <= s.frameDuration
              && r - s.frameOffset == PingPongReference(RawFrame(s, sceneFrame), s.frameDuration)
  {
    if !s.isSequence then 0
    else if s.frameDuration == 0 then FRAME_NONE
    else
      var d := s.frameDuration;
      var frame := RawFrame(s, sceneFrame);
      match s.mode
      case Clip => if frame < 1 || frame > d then FRAME_NONE else frame + s.frameOffset
      case Extend => ClampI(frame, 1, d) + s.frameOffset
      case Repeat => WrapOnePeriod(frame, d) + s.frameOffset
      case PingPong => FoldPingPong(frame, d) + s.frameOffset
  }

  /** Moving the scene on by `d` frames shows the same file frame in Repeat mode. */
  lemma {:induction false} RepeatIsPeriodic(s: Sequence, sceneFrame: int)
    requires s.isSequence && s.mode == Repeat && s.frameDuration > 0
    ensures SequenceFrame(s, sceneFrame + s.frameDuration) == SequenceFrame(s, sceneFrame)
  {
    var d := s.frameDuration;
    var raw := RawFrame(s, sceneFrame);
    EuclideanUnique(raw + d - 1, d, (raw - 1) / d + 1, (raw - 1) % d);
  }

  /** Moving the scene on by `2 * d - 2` frames shows the same file frame in PingPong mode. */
  lemma {:induction false} PingPongIsPeriodic(s: Sequence, sceneFrame: int)
    requires s.isSequence && s.mode == PingPong && s.frameDuration >= 2
    ensures SequenceFrame(s, sceneFrame + 2 * s.frameDuration - 2) == SequenceFrame(s, sceneFrame)
  {
    var p := 2 * s.frameDuration - 2;
    var raw := RawFrame(s, sceneFrame);
    EuclideanUnique(raw + p - 1, p, (raw - 1) / p + 1, (raw - 1) % p);
  }

  /**
   * Over one ping-pong cycle the sequence plays forward to its last frame and
   * then backward: raw frame `k` shows `k` on the way up and `2 * d - k` on
   * the way down.
   */
  lemma {:induction false} PingPongOneCycle(s: Sequence, sceneFrame: int)
    requires s.isSequence && s.mode == PingPong && s.frameDuration >= 2
    requires 1 <= RawFrame(s, sceneFrame) <= 2 * s.frameDuration - 2
    ensures var raw := RawFrame(s, sceneFrame);
            && (raw <= s.frameDuration ==> SequenceFrame(s, sceneFrame) == raw + s.frameOffset)
            && (raw >= s.frameDuration ==>
                  SequenceFrame(s, sceneFrame) == 2 * s.frameDuration - raw + s.frameOffset)
  {
    var p := 2 * s.frameDuration - 2;
    var raw := RawFrame(s, sceneFrame);
    EuclideanUnique(raw - 1, p, 0, raw - 1);
  }

  /** Worked examples for a ten-frame sequence starting at frame 1 without offset. */
  lemma WorkedExamples()
    ensures SequenceFrame(Sequence(true, Clip, 1, 0, 10), 15) == FRAME_NONE
    ensures SequenceFrame(Sequence(true, Extend, 1, 0, 10), 15) == 10
    ensures SequenceFrame(Sequence(true, Repeat, 1, 0, 10), 21) == 1
    ensures SequenceFrame(Sequence(true, PingPong, 1, 0, 10), 19) == 1
    ensures SequenceFrame(Sequence(true, PingPong, 1, 0, 10), 28) == 10
    ensures SequenceFrame(Sequence(true, PingPong, 1, 0, 10), 12) == 8
  {
    assert RepeatReference(21, 10) == 1;
    assert (19 - 1) % 18 == 0;
    assert PingPongReference(19, 10) == 1;
    assert (28 - 1) % 18 == 9;
    assert PingPongReference(28, 10) == 10;
    assert (12 - 1) % 18 == 11;
    assert PingPongReference(12, 10) == 8;
  }

}
