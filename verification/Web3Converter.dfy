/** Conversions between slots, epochs and oracle frames. */
module Web3Converter {
  import opened Arithmetic

  datatype Config = Config(initialEpoch: nat, epochsPerFrame: nat, slotsPerEpoch: nat) {
    predicate Valid() {
      epochsPerFrame > 0 && slotsPerEpoch > 0
    }

    function GetEpochBySlot(slot: int): int
      requires Valid()
    {
      slot / slotsPerEpoch
    }

    function GetFrameByEpoch(epoch: int): int
      requires Valid()
    {
      (epoch - initialEpoch) / epochsPerFrame
    }

    function GetFrameBySlot(slot: int): int
      requires Valid()
    {
      GetFrameByEpoch(GetEpochBySlot(slot))
    }

    function GetFrameFirstSlot(frame: int): int {
      (initialEpoch + frame * epochsPerFrame) * slotsPerEpoch
    }

    function GetFrameLastSlot(frame: int): int {
      GetFrameFirstSlot(frame + 1) - 1
    }

    /** The first epoch of the epoch's frame. */
    function RoundEpochByFrame(epoch: int): int
      requires Valid()
    {
      GetFrameByEpoch(epoch) * epochsPerFrame + initialEpoch
    }
  }

  /** A slot is in its frame: not before the frame's first slot and not after its last one. */
  lemma {:induction false} SlotIsInFrame(c: Config, slot: int)
    requires c.Valid()
    ensures c.GetFrameFirstSlot(c.GetFrameBySlot(slot)) <= slot <= c.GetFrameLastSlot(c.GetFrameBySlot(slot))
  {
    var epoch, frame := c.GetEpochBySlot(slot), c.GetFrameBySlot(slot);
    QuotientBounds(slot, c.slotsPerEpoch);
    QuotientBounds(epoch - c.initialEpoch, c.epochsPerFrame);
    var first, next := c.initialEpoch + frame * c.epochsPerFrame, c.initialEpoch + (frame + 1) * c.epochsPerFrame;
    assert (frame + 1) * c.epochsPerFrame == frame * c.epochsPerFrame + c.epochsPerFrame;
    Grows(first, epoch, c.slotsPerEpoch);
    Grows(epoch + 1, next, c.slotsPerEpoch);
    assert (epoch + 1) * c.slotsPerEpoch == epoch * c.slotsPerEpoch + c.slotsPerEpoch;
  }

  /** A slot belongs to an epoch, and to a frame, if and only if it lies between its first slot and the next one's. */
  lemma {:induction false} EpochAndFrameOfSlot(c: Config, slot: int, n: int)
    requires c.Valid()
    ensures c.GetEpochBySlot(slot) == n <==> n * c.slotsPerEpoch <= slot < (n + 1) * c.slotsPerEpoch
    ensures c.GetFrameBySlot(slot) == n <==>
      ((c.initialEpoch + n * c.epochsPerFrame) * c.slotsPerEpoch <= slot
       < (c.initialEpoch + (n + 1) * c.epochsPerFrame) * c.slotsPerEpoch)
  {
    Distribute(c.slotsPerEpoch, n, 1);
    QuotientBounds(slot, c.slotsPerEpoch);
    if n * c.slotsPerEpoch <= slot < (n + 1) * c.slotsPerEpoch { QuotientIs(slot, c.slotsPerEpoch, n); }
    SlotIsInFrame(c, slot);
    var frame := c.GetFrameBySlot(slot);
    if n < frame { FramesInOrder(c, n + 1, frame); }
    if n > frame { FramesInOrder(c, frame + 1, n); }
  }

  lemma {:induction false} FramesInOrder(c: Config, f: int, g: int)
    requires f <= g
    ensures c.GetFrameFirstSlot(f) <= c.GetFrameFirstSlot(g)
  {
    Grows(f, g, c.epochsPerFrame);
    Grows(c.initialEpoch + f * c.epochsPerFrame, c.initialEpoch + g * c.epochsPerFrame, c.slotsPerEpoch);
  }

  /** A frame starts with the first epoch of its own. */
  lemma {:induction false} FrameStartsAnEpoch(c: Config, frame: int)
    requires c.Valid()
    ensures c.GetEpochBySlot(c.GetFrameFirstSlot(frame)) == c.initialEpoch + frame * c.epochsPerFrame
    ensures c.GetFrameByEpoch(c.initialEpoch + frame * c.epochsPerFrame) == frame
    ensures c.GetFrameBySlot(c.GetFrameFirstSlot(frame)) == frame
  {
    QuotientIs(c.GetFrameFirstSlot(frame), c.slotsPerEpoch, c.initialEpoch + frame * c.epochsPerFrame);
    QuotientIs(frame * c.epochsPerFrame, c.epochsPerFrame, frame);
  }

  /** Rounding goes down to an epoch of the same frame that rounds to itself. */
  lemma {:induction false} RoundingIsDown(c: Config, epoch: int)
    requires c.Valid()
    ensures c.RoundEpochByFrame(epoch) <= epoch < c.RoundEpochByFrame(epoch) + c.epochsPerFrame
    ensures c.GetFrameByEpoch(c.RoundEpochByFrame(epoch)) == c.GetFrameByEpoch(epoch)
    ensures c.RoundEpochByFrame(c.RoundEpochByFrame(epoch)) == c.RoundEpochByFrame(epoch)
  {
    QuotientBounds(epoch - c.initialEpoch, c.epochsPerFrame);
    QuotientIs(c.RoundEpochByFrame(epoch) - c.initialEpoch, c.epochsPerFrame, c.GetFrameByEpoch(epoch));
  }
}
