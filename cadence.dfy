/**
 * The drivers' frame cadence: every frame is two steps followed by one
 * paint, and the framebuffer handed to the sink is the render of the grid
 * after those two steps.
 */
module Cadence {
  import opened Cells
  import opened Renderer

  /** A call the drivers make on the automaton. */
  datatype Call = UpdateGridCall | PaintCall

  /** The calls of one frame. */
  function FrameCalls(): seq<Call> {
    [UpdateGridCall, UpdateGridCall, PaintCall]
  }

  /** The calls of `frames` frames, in order. */
  function RecordCalls(frames: nat): seq<Call> {
    if frames == 0 then [] else RecordCalls(frames - 1) + FrameCalls()
  }

  /** Recording `frames` frames makes `2 * frames` steps and `frames` paints. */
  lemma {:induction false} RecordCallsCount(frames: nat)
    ensures |RecordCalls(frames)| == 3 * frames
    ensures multiset(RecordCalls(frames))[UpdateGridCall] == 2 * frames
    ensures multiset(RecordCalls(frames))[PaintCall] == frames
  {
    if frames > 0 {
      RecordCallsCount(frames - 1);
      assert multiset(RecordCalls(frames)) == multiset(RecordCalls(frames - 1)) + multiset(FrameCalls());
    }
  }

  /** Call `p` of a recording is call `p % 3` of a frame: two steps, then a paint, repeated. */
  lemma {:induction false} RecordCallsPeriodic(frames: nat, p: nat)
    requires p < 3 * frames
    ensures |RecordCalls(frames)| == 3 * frames
    ensures RecordCalls(frames)[p] == FrameCalls()[p % 3]
  {
    RecordCallsCount(frames);
    if p < 3 * (frames - 1) {
      RecordCallsPeriodic(frames - 1, p);
    } else {
      assert RecordCalls(frames)[p] == FrameCalls()[p - 3 * (frames - 1)];
    }
  }

  /**
   * The number of frames a live session shows when the `k`-th poll for an
   * exit event answers `exitPolls[k]`: the index of the first positive poll,
   * or all of them when none is positive.
   */
  function FirstExit(exitPolls: seq<bool>): (n: nat)
    ensures n <= |exitPolls|
    ensures forall k :: 0 <= k < n ==> !exitPolls[k]
    ensures n < |exitPolls| ==> exitPolls[n]
  {
    if exitPolls == [] || exitPolls[0] then 0 else 1 + FirstExit(exitPolls[1..])
  }

  /**
   * `k` is the number of frames a live session shows iff the first `k` polls
   * report no exit and poll `k`, if there is one, reports an exit.
   */
  lemma FirstExitIff(exitPolls: seq<bool>, k: nat)
    ensures k == FirstExit(exitPolls) <==>
      k <= |exitPolls| && (forall i :: 0 <= i < k ==> !exitPolls[i]) && (k < |exitPolls| ==> exitPolls[k])
  {
  }

  /** The framebuffers of `n` frames, starting from grid `g0`. */
  function Frames(g0: Grid, k: Grid, act: real -> real, vpW: nat, vpH: nat, scale: nat, n: nat): (v: seq<Image>)
    requires IsKernel(k) && Renderable(g0, vpW, vpH, scale)
    ensures |v| == n
  {
    if n == 0 then []
    else Frames(g0, k, act, vpW, vpH, scale, n - 1) + [Render(Steps(g0, k, act, 2 * n), vpW, vpH, scale)]
  }

  /**
   * Proof helper for the driver loops: the frames after `f + 1` frames, and
   * the grid they show, unfolded one frame.
   */
  lemma FrameStep(g0: Grid, k: Grid, act: real -> real, vpW: nat, vpH: nat, scale: nat, f: nat)
    requires IsKernel(k) && Renderable(g0, vpW, vpH, scale)
    ensures Steps(g0, k, act, 2 * (f + 1)) == Step(Step(Steps(g0, k, act, 2 * f), k, act), k, act)
    ensures Frames(g0, k, act, vpW, vpH, scale, f + 1) ==
      Frames(g0, k, act, vpW, vpH, scale, f) + [Render(Steps(g0, k, act, 2 * (f + 1)), vpW, vpH, scale)]
    ensures RecordCalls(f + 1) == RecordCalls(f) + FrameCalls()
  {
    assert Steps(g0, k, act, 2 * f + 1) == Step(Steps(g0, k, act, 2 * f), k, act);
  }

  /** Frame `f` (from 0) shows the grid after `2 * (f + 1)` steps. */
  lemma {:induction false} FrameAfterTwoStepsEach(g0: Grid, k: Grid, act: real -> real, vpW: nat, vpH: nat, scale: nat, n: nat, f: nat)
    requires IsKernel(k) && Renderable(g0, vpW, vpH, scale) && f < n
    ensures Frames(g0, k, act, vpW, vpH, scale, n)[f] == Render(Steps(g0, k, act, 2 * (f + 1)), vpW, vpH, scale)
  {
    if f < n - 1 {
      FrameAfterTwoStepsEach(g0, k, act, vpW, vpH, scale, n - 1, f);
    }
  }
}
