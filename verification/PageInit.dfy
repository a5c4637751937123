/** The walk by which os_memory_page_init hands the region to the free lists. */
module PageInit {
  import opened Powers
  import opened PageBlocks
  import opened PageLayout

  /** The order of the block the walk releases at an address. */
  function StepBits(cur: nat): nat
    requires cur > 0
  {
    var high, low := FloorLog2(cur), TrailingZeros(cur);
    var bits := if low < high then low else high;
    if bits > ORDER_MAX then ORDER_MAX else bits
  }

  lemma StepBitsIsAlignment(cur: nat)
    requires 0 < cur < ADDRESS_LIMIT
    ensures StepBits(cur) == TrailingZeros(cur) && StepBits(cur) < ORDER_MAX
    ensures cur % PAGE_SIZE == 0 ==> TrailingZeros(cur) >= PAGE_BITS
  {
    hide FloorLog2, TrailingZeros, Aligned, Pow2;
    var high, low := FloorLog2(cur), TrailingZeros(cur);
    TrailingZerosIsLargest(cur, low);
    Pow2Monotone(64, if low < 64 then 64 else low);
    Pow2Monotone(high + 1, if low <= high then high + 1 else low);
    Doubled(high);
    if cur % PAGE_SIZE == 0 {
      PageIsAligned(cur);
      TrailingZerosIsLargest(cur, PAGE_BITS);
    }
  }

  lemma Doubled(k: nat)
    ensures Pow2(k + 1) == 2 * Pow2(k)
  {
  }

  lemma PageIsAligned(cur: nat)
    requires cur % PAGE_SIZE == 0
    ensures Aligned(cur, PAGE_BITS)
  {
    PageSizeIsPower();
    AlignedScaled(cur / PAGE_SIZE, PAGE_BITS, 0);
    hide Aligned, Pow2;
    assert cur == cur / PAGE_SIZE * PAGE_SIZE;
    EverythingAligned(cur / PAGE_SIZE);
  }

  lemma EverythingAligned(x: int)
    ensures Aligned(x, 0)
  {
  }

  /** The address the walk visits next. */
  function Step(cur: nat): (next: nat)
    requires cur > 0
  {
    cur + Pow2(StepBits(cur))
  }

  /** What page_allocated holds when the walk stops, the subtraction wrapping at 64 bits. */
  function FinalAllocated(cur: nat, end: nat, count: nat): nat
    requires 0 < cur < ADDRESS_LIMIT && cur % PAGE_SIZE == 0 && end < ADDRESS_LIMIT
    decreases end - cur
  {
    StepAligned(cur);
    if cur >= end then count
    else
      var left := (count - Span(StepBits(cur))) % ADDRESS_LIMIT;
      if Step(cur) >= end then left else FinalAllocated(Step(cur), end, left)
  }

  lemma StepSpan(cur: nat)
    requires 0 < cur < ADDRESS_LIMIT && cur % PAGE_SIZE == 0
    ensures StepBits(cur) >= PAGE_BITS && Step(cur) == cur + Span(StepBits(cur)) * PAGE_SIZE
  {
    StepBitsIsAlignment(cur);
    BlockBytes(StepBits(cur));
  }

  lemma StepAligned(cur: nat)
    requires 0 < cur < ADDRESS_LIMIT && cur % PAGE_SIZE == 0
    ensures StepBits(cur) >= PAGE_BITS
    ensures Step(cur) == cur + Span(StepBits(cur)) * PAGE_SIZE && Step(cur) % PAGE_SIZE == 0
  {
    hide Step, StepBits, Span;
    StepSpan(cur);
    FrameAligned(cur, Span(StepBits(cur)));
  }

  lemma FrameAligned(cur: nat, span: nat)
    requires cur % PAGE_SIZE == 0
    ensures (cur + span * PAGE_SIZE) % PAGE_SIZE == 0
  {
  }

  lemma FramesApart(cur: nat, span: nat, end: nat)
    requires cur % PAGE_SIZE == 0 && end % PAGE_SIZE == 0
    ensures (end - cur) / PAGE_SIZE - span == (end - (cur + span * PAGE_SIZE)) / PAGE_SIZE
  {
  }

  lemma Wrap(x: int, m: nat)
    requires 0 - m < x < m
    ensures x >= 0 ==> x % m == x
    ensures x < 0 ==> x % m == x + m
  {
    if x >= 0 {
      DivisionUnique(x, m, 0, x);
    } else {
      DivisionUnique(x, m, -1, x + m);
    }
  }

  /** A step raises the alignment and never jumps over a better aligned address. */
  lemma StepRaisesAlignment(cur: nat)
    requires 0 < cur < ADDRESS_LIMIT
    ensures TrailingZeros(Step(cur)) > TrailingZeros(cur)
  {
    StepBitsIsAlignment(cur);
    var k := TrailingZeros(cur);
    TrailingZerosIsLargest(cur, k);
    TrailingZerosIsLargest(cur, k + 1);
    AlignedNext(cur, k);
    TrailingZerosIsLargest(Step(cur), k + 1);
  }

  /** The region ends before the next address aligned like its end. */
  predicate EndsInReach(cur: nat, end: nat)
    requires end > 0
  {
    cur == end || (cur < end && end - cur < Pow2(TrailingZeros(end)))
  }

  lemma StepStaysInReach(cur: nat, end: nat)
    requires 0 < cur < end < ADDRESS_LIMIT && EndsInReach(cur, end)
    ensures Step(cur) <= end && EndsInReach(Step(cur), end)
    ensures TrailingZeros(cur) < TrailingZeros(end)
  {
    StepBitsIsAlignment(cur);
    var k, c := TrailingZeros(cur), TrailingZeros(end);
    TrailingZerosIsLargest(cur, k);
    TrailingZerosIsLargest(end, c);
    if c <= k {
      TrailingZerosIsLargest(cur, c);
      AlignedApart(cur, end, c);
    } else {
      TrailingZerosIsLargest(end, k);
      AlignedApart(cur, end, k);
    }
  }

  lemma StepStaysOutOfReach(cur: nat, end: nat)
    requires 0 < cur < end < ADDRESS_LIMIT && !EndsInReach(cur, end)
    ensures Step(cur) != end && (Step(cur) < end ==> !EndsInReach(Step(cur), end))
  {
    StepBitsIsAlignment(cur);
    StepRaisesAlignment(cur);
    var k, c, next := TrailingZeros(cur), TrailingZeros(end), Step(cur);
    TrailingZerosIsLargest(cur, k);
    TrailingZerosIsLargest(end, c);
    if next == end {
      Pow2Monotone(k, c);
    } else if next < end && EndsInReach(next, end) {
      TrailingZerosIsLargest(next, k);
      TrailingZerosIsLargest(cur, c);
      NoJump(cur, end, k, c);
    }
  }

  lemma NoJump(cur: nat, end: nat, k: nat, c: nat)
    requires Aligned(cur, k) && Aligned(end, c) && (k < c ==> !Aligned(cur, c))
    requires cur + Pow2(k) < end && end - cur - Pow2(k) < Pow2(c)
    ensures end - cur < Pow2(c)
  {
    hide Aligned;
    AlignedNext(cur, k);
    AlignedNext(end, c);
    if c <= k {
      AlignedSmaller(cur + Pow2(k), c, k);
      AlignedApart(cur + Pow2(k), end, c);
    } else {
      AlignedSmaller(end - Pow2(c), k, c);
      if cur < end - Pow2(c) {
        AlignedApart(cur, end - Pow2(c), k);
      }
    }
  }

  /** The assertion that closes initialisation holds exactly when the region ends in reach of its start. */
  lemma {:induction false} InitialisationSucceedsIff(cur: nat, end: nat)
    requires 0 < cur <= end < ADDRESS_LIMIT && cur % PAGE_SIZE == 0 && end % PAGE_SIZE == 0
    ensures FinalAllocated(cur, end, (end - cur) / PAGE_SIZE) == 0 <==> EndsInReach(cur, end)
    decreases end - cur
  {
    if cur < end {
      PagesLeft(cur, end);
      if EndsInReach(cur, end) {
        StepStaysInReach(cur, end);
      } else {
        StepStaysOutOfReach(cur, end);
      }
      if Step(cur) <= end {
        InitialisationSucceedsIff(Step(cur), end);
      }
    }
  }

  /**
   * A heap of the 128 MiB machine on which the assertion fails: the kernel's image ends just below 0x20_0010_3000
   * and the last page is left unused, so that the walk's last step overshoots.
   */
  lemma InitialisationFailsAt()
    ensures var l := Divide(0x20_0010_3000, 0x20_0800_0000, 5);
            && l.memStart == 0x20_001F_F000 && l.MemEnd() == 0x20_07FF_F000
            && !EndsInReach(l.memStart, l.MemEnd())
            && l.pageNum == 32256 && l.MemEnd() < ADDRESS_LIMIT && FinalAllocated(l.memStart, l.MemEnd(), 32256) != 0
  {
    FailingHeap();
    var l := Divide(0x20_0010_3000, 0x20_0800_0000, 5);
    InitialisationSucceedsIff(l.memStart, l.MemEnd());
    assert (l.MemEnd() - l.memStart) / PAGE_SIZE == 32256;
    hide FinalAllocated;
  }

  lemma FailingHeap()
    ensures var l := Divide(0x20_0010_3000, 0x20_0800_0000, 5);
            && l.pageNum == 32256 && l.memStart == 0x20_001F_F000 && l.MemEnd() == 0x20_07FF_F000 < ADDRESS_LIMIT
            && !EndsInReach(l.memStart, l.MemEnd())
  {
    SmallPowers();
    OddPage(0x2007_FFF);
    Pow2Monotone(TrailingZeros(0x20_07FF_F000), 12);
    Pow2Monotone(40, 64);
    hide TrailingZeros;
  }

  lemma SmallPowers()
    ensures Pow2(5) == 32 && Pow2(12) == 4096 && Pow2(40) == 0x100_0000_0000
  {
    assert Pow2(8) == 256 && Pow2(12) == 4096;
    Pow2Add(12, 12);
    Pow2Add(24, 8);
    Pow2Add(32, 8);
  }

  /** The address of an odd page is aligned to a page and no more. */
  lemma OddPage(x: nat)
    requires x % 2 == 1
    ensures x * 4096 > 0 && TrailingZeros(x * 4096) <= 12
  {
    SmallPowers();
    AlignedScaled(x, 12, 1);
    TrailingZerosIsLargest(x * 4096, 13);
    assert !Aligned(x, 1);
  }

  lemma PagesLeft(cur: nat, end: nat)
    requires 0 < cur < end < ADDRESS_LIMIT && cur % PAGE_SIZE == 0 && end % PAGE_SIZE == 0
    ensures Step(cur) % PAGE_SIZE == 0 && StepBits(cur) >= PAGE_BITS
    ensures var left := ((end - cur) / PAGE_SIZE - Span(StepBits(cur))) % ADDRESS_LIMIT;
            if Step(cur) <= end then left == (end - Step(cur)) / PAGE_SIZE else left != 0
  {
    StepAligned(cur);
    SmallSpan(cur);
    FramesApart(cur, Span(StepBits(cur)), end);
    var x := (end - cur) / PAGE_SIZE - Span(StepBits(cur));
    assert x < ADDRESS_LIMIT;
    Wrap(x, ADDRESS_LIMIT);
  }

  lemma SmallSpan(cur: nat)
    requires 0 < cur < ADDRESS_LIMIT && cur % PAGE_SIZE == 0
    ensures StepBits(cur) >= PAGE_BITS && Span(StepBits(cur)) <= Pow2(52) && Pow2(52) < ADDRESS_LIMIT
  {
    StepBitsIsAlignment(cur);
    Pow2Monotone(StepBits(cur) - PAGE_BITS, 52);
    Pow2Monotone(52, 64);
  }
}
