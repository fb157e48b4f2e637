/** The ring's read pointer follows the source cursor. */
module Lockstep {
  import opened Words
  import opened Layout
  import opened SectorMachine

  /** Four bytes a sample, less what the rounding of unaligned sync offsets has dropped. */
  ghost predicate InStep(m: Machine)
  {
    && m.log.base <= m.src
    && 4 * m.log.consumed <= m.src - m.log.base <= 4 * m.log.consumed + 3 * m.log.found
    && (m.log.aligned ==> 4 * m.log.consumed == m.src - m.log.base)
  }

  lemma SkipInStep(m: Machine, bytes: nat)
    requires InStep(m) && bytes % 4 == 0
    ensures InStep(Skip(m, bytes))
  {
  }

  lemma FoundInStep(m: Machine, k: nat)
    requires InStep(m)
    ensures InStep(Found(m, k))
  {
    assert k == 4 * (k / 4) + k % 4;
  }

  lemma MismatchedInStep(m: Machine, frame: u32, request: u32, available: Samples)
    requires InStep(m) && frame != request
    ensures InStep(Mismatched(m, frame, request, available))
  {
    hide Skip;
    SkipInStep(m, SECTOR_SIZE);
    if request > frame {
      assert ((request - frame) * RAW_SIZE - MOVE_SIZE) % 4 == 0;
      SkipInStep(m, (request - frame) * RAW_SIZE - MOVE_SIZE);
    }
  }

  lemma MatchedInStep(c: Request, m: Machine, raw: Sector, mode: byte, x: Look)
    requires InStep(m) && m.src + RAW_SIZE <= |m.buf| && m.dst + SECTOR_SIZE <= |m.buf|
    ensures InStep(Matched(c, m, raw, mode, x))
  {
  }

  lemma SearchInStep(c: Request, m: Machine, x: Look)
    requires WellShaped(m) && InStep(m)
    ensures InStep(SearchStep(c, m, x))
  {
    if m.src + RAW_SIZE <= |m.buf| {
      var m', k := Scanned(m), SyncOffset(m, x.granted);
      if k >= 0 {
        FoundInStep(m', k);
        if m.src + k + RAW_SIZE <= |m.buf| && !x.forceStop {
          InspectInStep(c, Found(m', k), x);
        }
      }
    }
  }

  lemma InspectInStep(c: Request, m: Machine, x: Look)
    requires m.src + RAW_SIZE <= |m.buf| && m.dst <= m.src && InStep(m)
    ensures InStep(Inspect(c, m, x))
  {
    hide Matched, Mismatched, FrameOf, U32;
    var plain := c.descramble(RawAt(m));
    var m', request := Descrambled(m, plain), U32(c.start + m.used);
    if FrameOf(plain) == request {
      MatchedInStep(c, m', RawAt(m), ModeOf(plain), x);
    } else {
      MismatchedInStep(m', FrameOf(plain), request, x.available);
    }
  }

  lemma StepInStep(c: Request, m: Machine, x: Input)
    requires WellShaped(m) && InStep(m)
    ensures InStep(Step(c, m, x))
  {
    hide SearchStep, Overlay, U32;
    if m.pc.SearchLbn? { SearchInStep(c, m, x.look); }
  }

  /** Over every run, through every branch: exact when the sync offsets are multiples of four, otherwise at most three
      bytes behind for each sync found. */
  lemma {:induction false} RunInStep(c: Request, m: Machine, xs: seq<Input>)
    requires WellShaped(m) && InStep(m)
    ensures InStep(Run(c, m, xs))
    decreases |xs|
  {
    hide Step, InStep;
    if xs != [] {
      StepInStep(c, m, xs[0]);
      StepKeepsShape(c, m, xs[0]);
      RunInStep(c, Step(c, m, xs[0]), xs[1..]);
    }
  }

  /** The cursor has not passed the end of what its pass has read. */
  predicate Inside(m: Machine)
  {
    m.src <= m.log.base + m.log.got
  }

  /** So in every state of a run. */
  ghost predicate StaysInside(c: Request, m: Machine, xs: seq<Input>)
    requires WellShaped(m)
  {
    forall i {:trigger xs[..i]} :: 0 <= i <= |xs| ==> Inside(Run(c, m, xs[..i]))
  }

  lemma InsideSoFar(c: Request, m: Machine, xs: seq<Input>, x: Input)
    requires WellShaped(m) && StaysInside(c, m, xs + [x])
    ensures StaysInside(c, m, xs) && Inside(Run(c, m, xs + [x]))
  {
    hide Run, Inside;
    var ys := xs + [x];
    assert ys[..|ys|] == ys;
    forall i | 0 <= i <= |xs|
      ensures Inside(Run(c, m, xs[..i]))
    {
      assert ys[..i] == xs[..i];
    }
  }

  /** While the cursor is inside what its pass has read, the machine has taken no more samples than that read found. */
  lemma ConsumesOnlyWhatWasRead(c: Request, m: Machine, xs: seq<Input>)
    requires WellShaped(m) && InStep(m) && Inside(Run(c, m, xs))
    ensures 4 * Run(c, m, xs).log.consumed <= Run(c, m, xs).log.got
  {
    RunInStep(c, m, xs);
  }
}
