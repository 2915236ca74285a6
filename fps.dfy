/** update_fps: the frame counter and the time of the last second boundary, with the clock
    reading as an input. The fps value itself is a double division; it is kept here as the
    pair it divides. */
module Fps {

  /** The fps value: still the initial 0, or frames / seconds as the last division computed it. */
  datatype Rate = Initial | Ratio(frames: int, seconds: int)

  datatype FpsState = FpsState(fps: Rate, frameCount: int, lastTime: int)

  /** g_fps = {0, 0, 0} */
  const Start: FpsState := FpsState(Initial, 0, 0)

  /** One call of update_fps with time(NULL) == now: the frame is counted, and when the
      clock has moved on the count starts again from now, after the rate of the interval
      that ended is computed (except for the first interval, when the last time is still 0). */
  function Step(s: FpsState, now: int): (r: FpsState)
    ensures r.lastTime == now
    ensures r.frameCount == if now == s.lastTime then s.frameCount + 1 else 0
  {
    var count := s.frameCount + 1;
    if now != s.lastTime then
      FpsState(if s.lastTime != 0 then Ratio(count, now - s.lastTime) else s.fps, 0, now)
    else
      s.(frameCount := count)
  }

  /** A run of update_fps calls at the given clock readings. */
  function Steps(s: FpsState, times: seq<int>): FpsState
    decreases |times|
  {
    if times == [] then s else Steps(Step(s, times[0]), times[1..])
  }

  /** Every rate ever computed divides by a nonzero interval: the division never divides by
      zero, and the count never goes negative. */
  predicate Valid(s: FpsState) {
    s.frameCount >= 0 && (s.fps.Ratio? ==> s.fps.seconds != 0 && s.fps.frames > 0)
  }

  lemma StepKeepsValid(s: FpsState, now: int)
    requires Valid(s)
    ensures Valid(Step(s, now))
  {}

  lemma {:induction false} StepsKeepValid(s: FpsState, times: seq<int>)
    requires Valid(s)
    ensures Valid(Steps(s, times))
    decreases |times|
  {
    if times != [] {
      StepKeepsValid(s, times[0]);
      StepsKeepValid(Step(s, times[0]), times[1..]);
    }
  }

  /** Frames within one second of the clock are only counted. */
  lemma {:induction false} SameSecondCounts(s: FpsState, times: seq<int>)
    requires forall j :: 0 <= j < |times| ==> times[j] == s.lastTime
    ensures Steps(s, times) == s.(frameCount := s.frameCount + |times|)
    decreases |times|
  {
    if times != [] {
      SameSecondCounts(Step(s, times[0]), times[1..]);
    }
  }

  /** After a boundary at time t, n frames more in the same second and a frame at a later
      time t' give the rate (n + 1) / (t' - t): every frame from the one after the boundary up
      to the one that sees the clock move. */
  lemma RateOfInterval(s: FpsState, times: seq<int>, later: int)
    requires s.lastTime != 0 && s.frameCount == 0 && later != s.lastTime
    requires forall j :: 0 <= j < |times| ==> times[j] == s.lastTime
    ensures Step(Steps(s, times), later) == FpsState(Ratio(|times| + 1, later - s.lastTime), 0, later)
  {
    SameSecondCounts(s, times);
  }

  /** The first time the clock moves away from the initial 0, no rate is computed. */
  lemma FirstBoundaryComputesNoRate(now: int)
    requires now != 0
    ensures Step(Start, now) == FpsState(Initial, 0, now)
  {}

  /** The global g_fps and update_fps. */
  class FpsCounter {
    var fps: Rate
    var frameCount: int
    var lastTime: int

    function State(): FpsState
      reads this
    {
      FpsState(fps, frameCount, lastTime)
    }

    constructor ()
      ensures State() == Start
    {
      fps, frameCount, lastTime := Initial, 0, 0;
    }

    /** update_fps, with now the reading of time(NULL). */
    method UpdateFps(now: int)
      modifies this
      ensures State() == Step(old(State()), now)
    {
      frameCount := frameCount + 1;
      var currentTime := now;
      if currentTime != lastTime {
        if lastTime != 0 {
          fps := Ratio(frameCount, currentTime - lastTime);
        }
        frameCount := 0;
        lastTime := currentTime;
      }
    }
  }
}
