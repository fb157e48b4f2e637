/** CD_ShockProcess. */
module Shock {
  import opened SingleBuffer
  import opened Capture

  const SHOCK_SAMPLES := 10 * 588   // ten sectors

  function AfterShock(b: Ring): Ring
  {
    if Available(b) <= SHOCK_SAMPLES then b
    else if b.writePtr >= SHOCK_SAMPLES then b.(writePtr := b.writePtr - SHOCK_SAMPLES)
    else b.(writePtr := b.length - (SHOCK_SAMPLES - b.writePtr))
  }

  /** A shock drops exactly the newest ten sectors, if more than that is buffered, and nothing otherwise. */
  lemma ShockDropsNewest(b: Ring)
    requires Sound(b)
    ensures Sound(AfterShock(b)) && AfterShock(b).mem == b.mem && AfterShock(b).readPtr == b.readPtr
    ensures Available(b) > SHOCK_SAMPLES ==> Queue(AfterShock(b)) == Queue(b)[..2 * (Available(b) - SHOCK_SAMPLES)]
    ensures Available(b) <= SHOCK_SAMPLES ==> Queue(AfterShock(b)) == Queue(b)
  {
  }

  /** A shock that drops anything leaves the block grid: some number of further blocks would then cross the memory's end
      instead of meeting it. */
  lemma ShockLeavesTheGrid(s: State)
    requires Placed(s) && Available(s.ring) > SHOCK_SAMPLES
    ensures !Placed(s.(ring := AfterShock(s.ring)))
    ensures exists blocks: nat :: var w := AfterShock(s.ring).writePtr + blocks * BLOCK_SAMPLES;
              w < RING_SAMPLES < w + BLOCK_SAMPLES
  {
    var w := AfterShock(s.ring).writePtr;
    assert w % BLOCK_SAMPLES == 264;
    var blocks := (RING_SAMPLES - w) / BLOCK_SAMPLES;
    assert w + blocks * BLOCK_SAMPLES < RING_SAMPLES < w + blocks * BLOCK_SAMPLES + BLOCK_SAMPLES;
  }

  method ShockProcess(buf: SingleBufferState)
    modifies buf`lWritePtr
    ensures buf.View() == AfterShock(old(buf.View()))
  {
    var remainSize := buf.DataAvailable();
    if remainSize > SHOCK_SAMPLES {
      if buf.lWritePtr >= SHOCK_SAMPLES {
        buf.lWritePtr := buf.lWritePtr - SHOCK_SAMPLES;
      } else {
        var res := SHOCK_SAMPLES - buf.lWritePtr;
        buf.lWritePtr := buf.lLength - res;
      }
    }
  }
}
