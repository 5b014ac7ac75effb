/**
 * The stand-alone fist detector (main.py): every frame is classified, a
 * `ROCK detected` line is printed when the fist state rises, and an FPS line
 * every 120 frames, after which the frame counter starts again at zero.
 */
module FistCli {
  import opened Wrappers
  import opened Gestures

  /** Frames between two FPS reports. */
  const ReportEvery: nat := 120

  datatype Cli = Cli(fistState: bool, frames: nat)

  const Initial: Cli := Cli(false, 0)

  /** What one pass of the loop shows: the on-frame label and which console lines it prints. */
  datatype Output = Output(labelText: string, rockReported: bool, fpsReported: bool)

  /** One pass of the capture loop. */
  function Step(s: Cli, f: Frame): (r: (Cli, Output))
    requires ValidFrame(f)
    ensures r.0.fistState <==> ShowsFist(f)
    ensures r.1.rockReported <==> !s.fistState && r.0.fistState
    ensures r.1.labelText == (if r.0.fistState then "ROCK (FIST)" else "")
    ensures r.1.fpsReported <==> (s.frames + 1) % ReportEvery == 0
    ensures s.frames < ReportEvery ==> r.0.frames == (s.frames + 1) % ReportEvery
  {
    var fist := ShowsFist(f);
    var frames := s.frames + 1;
    var report := frames % ReportEvery == 0;
    (Cli(fist, if report then 0 else frames),
     Output(if fist then "ROCK (FIST)" else "", fist && !s.fistState, report))
  }

  predicate ValidFrames(frames: seq<Frame>)
  {
    forall i :: 0 <= i < |frames| ==> ValidFrame(frames[i])
  }

  function Run(s: Cli, frames: seq<Frame>): (r: (Cli, seq<Output>))
    requires ValidFrames(frames)
    ensures |r.1| == |frames|
    decreases |frames|
  {
    if |frames| == 0 then (s, [])
    else
      var (s1, out) := Step(s, frames[0]);
      assert ValidFrames(frames[1..]) by {
        forall i | 0 <= i < |frames| - 1
          ensures frames[1..][i] == frames[i + 1]
        {
        }
      }
      var rest := Run(s1, frames[1..]);
      (rest.0, [out] + rest.1)
  }

  function FpsReports(outs: seq<Output>): nat
  {
    if |outs| == 0 then 0 else (if outs[0].fpsReported then 1 else 0) + FpsReports(outs[1..])
  }

  /**
   * Starting from a counter below 120, the counter stays the frame count
   * modulo 120 and one FPS line is printed per 120 frames.
   */
  lemma {:induction false} FramesCounterWraps(s: Cli, frames: seq<Frame>)
    requires ValidFrames(frames) && s.frames < ReportEvery
    ensures var (r, outs) := Run(s, frames);
      && r.frames == (s.frames + |frames|) % ReportEvery
      && FpsReports(outs) == (s.frames + |frames|) / ReportEvery
    decreases |frames|
  {
    if |frames| > 0 {
      var (s1, out) := Step(s, frames[0]);
      assert ValidFrames(frames[1..]) by {
        forall i | 0 <= i < |frames| - 1
          ensures frames[1..][i] == frames[i + 1]
        {
        }
      }
      FramesCounterWraps(s1, frames[1..]);
      var outs := Run(s, frames).1;
      assert outs[1..] == Run(s1, frames[1..]).1;
      if out.fpsReported {
        assert s.frames + |frames| == (|frames| - 1) + ReportEvery;
        ShiftByPeriod(|frames| - 1);
      }
    }
  }

  lemma ShiftByPeriod(m: nat)
    ensures (m + ReportEvery) % ReportEvery == m % ReportEvery
    ensures (m + ReportEvery) / ReportEvery == m / ReportEvery + 1
  {
  }

  /** From start-up, after `n` frames the counter reads `n % 120` and `n / 120` FPS lines have been printed. */
  lemma FramesCounterFromStart(frames: seq<Frame>)
    requires ValidFrames(frames)
    ensures Run(Initial, frames).0.frames == |frames| % ReportEvery
    ensures FpsReports(Run(Initial, frames).1) == |frames| / ReportEvery
  {
    FramesCounterWraps(Initial, frames);
  }

  /**
   * The preview window is used only without `--no-gui` and with a non-empty
   * `DISPLAY` variable; an unset and an empty `DISPLAY` both count as absent.
   */
  function GuiAllowed(noGui: bool, display: Option<string>): (b: bool)
    ensures noGui ==> !b
    ensures display.None? || display == Some("") ==> !b
    ensures !noGui && display.Some? && |display.value| > 0 ==> b
  {
    !noGui && display.Some? && display.value != ""
  }
}
