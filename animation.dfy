/** The frame loop of showStatus (index.js:125-154) and showPixel
    (index.js:183-194) as a pure transition on the frame counter and the
    palette: each call either renders one frame and shifts the palette, or,
    when the counter has reached MAX_COUNT, ends the cycle. */
module Animation {
  import opened Graphics

  /** Frames per cycle. */
  const MAX_COUNT: nat := 60

  /** showPixel's choice of icon: ok after a success, rainbow otherwise. */
  function IconFor(isSuccess: bool): (icon: Icon)
    ensures icon == Ok <==> isSuccess
    ensures icon == Rainbow <==> !isSuccess
  {
    if isSuccess then Ok else Rainbow
  }

  /** One setPixels call, recorded as the icon and the slot values it was
      drawn from; `Pixels()` is the 64-cell array the display receives. */
  datatype Frame = Frame(icon: Icon, palette: Palette) {
    function Pixels(): (cells: seq<Color>)
      ensures |cells| == 64
    {
      GetIcon(icon, palette)
    }
  }

  /** The part of the state one showStatus call reads and writes. */
  datatype Anim = Anim(count: nat, palette: Palette)

  /** `count++ == MAX_COUNT`: the call that finds the counter at MAX_COUNT ends the cycle. */
  predicate IsTerminal(s: Anim)
  {
    s.count == MAX_COUNT
  }

  /** The state after one showStatus call drawing `icon`. A non-terminal call
      increments the counter and shifts the palette with the new counter. */
  function Step(s: Anim, icon: Icon): (t: Anim)
    ensures t.count == 0 <==> IsTerminal(s)
    ensures !IsTerminal(s) ==> t.count == s.count + 1
    ensures s.count <= MAX_COUNT ==> t.count <= MAX_COUNT
    ensures IsTerminal(s) ==> t.palette == s.palette
  {
    if IsTerminal(s) then Anim(0, s.palette)
    else Anim(s.count + 1, Shift(icon, s.palette, s.count + 1))
  }

  /** The frames one showStatus call pushes to the display: none at the end
      of a cycle, otherwise one, drawn from the palette before the shift. */
  function Rendered(s: Anim, icon: Icon): (frames: seq<Frame>)
    ensures |frames| == if IsTerminal(s) then 0 else 1
    ensures forall k :: 0 <= k < |frames| ==> frames[k] == Frame(icon, s.palette)
  {
    if IsTerminal(s) then [] else [Frame(icon, s.palette)]
  }

  /** `n` showStatus calls in a row with the same icon. */
  function Run(s: Anim, icon: Icon, n: nat): (t: Anim)
    ensures s.count <= MAX_COUNT ==> t.count <= MAX_COUNT
    ensures t.count <= s.count + n
  {
    if n == 0 then s else Step(Run(s, icon, n - 1), icon)
  }

  /** The frames pushed by those `n` calls, in order. */
  function RunFrames(s: Anim, icon: Icon, n: nat): (frames: seq<Frame>)
    ensures |frames| <= n
  {
    if n == 0 then [] else RunFrames(s, icon, n - 1) + Rendered(Run(s, icon, n - 1), icon)
  }

  /** From an idle counter, the first MAX_COUNT calls each render one frame
      and leave the counter at the number of calls so far, within
      1..MAX_COUNT once the cycle has begun. */
  lemma {:induction false} CycleCounts(p: Palette, icon: Icon, n: nat)
    requires n <= MAX_COUNT
    ensures Run(Anim(0, p), icon, n).count == n
    ensures |RunFrames(Anim(0, p), icon, n)| == n
  {
    if n > 0 {
      CycleCounts(p, icon, n - 1);
    }
  }

  /** The call after those is terminal: a cycle renders exactly MAX_COUNT
      frames, the terminal call renders nothing and the counter is back to 0. */
  lemma CycleCompletes(p: Palette, icon: Icon)
    ensures Run(Anim(0, p), icon, MAX_COUNT).count == MAX_COUNT
    ensures Run(Anim(0, p), icon, MAX_COUNT + 1).count == 0
    ensures RunFrames(Anim(0, p), icon, MAX_COUNT + 1) == RunFrames(Anim(0, p), icon, MAX_COUNT)
    ensures |RunFrames(Anim(0, p), icon, MAX_COUNT + 1)| == MAX_COUNT
  {
    CycleCounts(p, icon, MAX_COUNT);
  }

  /** Frame i of a cycle is drawn from the palette left by the first i calls. */
  lemma {:induction false} CycleFrameAt(p: Palette, icon: Icon, n: nat, i: nat)
    requires i < n <= MAX_COUNT
    ensures |RunFrames(Anim(0, p), icon, n)| == n
    ensures RunFrames(Anim(0, p), icon, n)[i] == Frame(icon, Run(Anim(0, p), icon, i).palette)
  {
    CycleCounts(p, icon, n);
    var prev := Run(Anim(0, p), icon, n - 1);
    var before := RunFrames(Anim(0, p), icon, n - 1);
    var frames := RunFrames(Anim(0, p), icon, n);
    CycleCounts(p, icon, n - 1);
    assert !IsTerminal(prev);
    assert frames == before + [Frame(icon, prev.palette)];
    if i < n - 1 {
      CycleFrameAt(p, icon, n - 1, i);
      assert frames[i] == before[i];
    }
  }

  /** During a rainbow cycle the palette is the original turned once per
      frame. */
  lemma {:induction false} RainbowCyclePalette(p: Palette, n: nat)
    requires n <= MAX_COUNT
    ensures Run(Anim(0, p), Rainbow, n).palette == RotateN(p, n)
  {
    if n > 0 {
      RainbowCyclePalette(p, n - 1);
      CycleCounts(p, Rainbow, n - 1);
    }
  }

  /** Frame i of a rainbow cycle shows the ring turned i times. */
  lemma RainbowCycle(p: Palette, n: nat)
    requires n <= MAX_COUNT
    ensures |RunFrames(Anim(0, p), Rainbow, n)| == n
    ensures forall i :: 0 <= i < n ==> RunFrames(Anim(0, p), Rainbow, n)[i] == Frame(Rainbow, RotateN(p, i))
  {
    CycleCounts(p, Rainbow, n);
    forall i | 0 <= i < n
      ensures RunFrames(Anim(0, p), Rainbow, n)[i] == Frame(Rainbow, RotateN(p, i))
    {
      CycleFrameAt(p, Rainbow, n, i);
      RainbowCyclePalette(p, i);
    }
  }

  /** The palette is not reset between cycles, and MAX_COUNT is not a multiple
      of 8: a full rainbow cycle leaves the ring turned by four positions. */
  lemma RainbowCycleLeavesHalfTurn(p: Palette)
    ensures Run(Anim(0, p), Rainbow, MAX_COUNT + 1).palette == RotateN(p, 4)
  {
    RainbowCyclePalette(p, MAX_COUNT);
    CycleCounts(p, Rainbow, MAX_COUNT);
    var last := Run(Anim(0, p), Rainbow, MAX_COUNT);
    assert Run(Anim(0, p), Rainbow, MAX_COUNT + 1) == Step(last, Rainbow);
    assert IsTerminal(last);
    RotateNMod(p, MAX_COUNT);
  }

  /** During an ok cycle, R and B blink with the parity of the counter after
      its increment. */
  lemma {:induction false} OkCyclePalette(p: Palette, n: nat)
    requires 1 <= n <= MAX_COUNT
    ensures Run(Anim(0, p), Ok, n).palette == Shift(Ok, p, n)
  {
    CycleCounts(p, Ok, n - 1);
    if n > 1 {
      OkCyclePalette(p, n - 1);
      OkShiftForgets(p, n - 1, n);
    }
  }

  /** The first frame of an ok cycle uses the palette as found, frame i > 0
      the blink for counter value i. */
  lemma OkCycle(p: Palette, n: nat)
    requires 1 <= n <= MAX_COUNT
    ensures |RunFrames(Anim(0, p), Ok, n)| == n
    ensures RunFrames(Anim(0, p), Ok, n)[0] == Frame(Ok, p)
    ensures forall i :: 1 <= i < n ==> RunFrames(Anim(0, p), Ok, n)[i] == Frame(Ok, Shift(Ok, p, i))
  {
    CycleFrameAt(p, Ok, n, 0);
    forall i | 1 <= i < n
      ensures RunFrames(Anim(0, p), Ok, n)[i] == Frame(Ok, Shift(Ok, p, i))
    {
      CycleFrameAt(p, Ok, n, i);
      OkCyclePalette(p, i);
    }
  }

  /** The last shift of an ok cycle sees the even counter MAX_COUNT, so the
      cycle ends with R and B black, and `B` is also the rainbow's second
      ring slot: a later rainbow cycle starts with a black B. */
  lemma OkCycleEndsDark(p: Palette)
    ensures Run(Anim(0, p), Ok, MAX_COUNT + 1).palette == p.(R := Black, B := Black)
    ensures Ring(Run(Anim(0, p), Ok, MAX_COUNT + 1).palette)[1] == Black
  {
    OkCyclePalette(p, MAX_COUNT);
    CycleCounts(p, Ok, MAX_COUNT);
    var last := Run(Anim(0, p), Ok, MAX_COUNT);
    assert Run(Anim(0, p), Ok, MAX_COUNT + 1) == Step(last, Ok);
  }
}
