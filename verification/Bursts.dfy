/**
  Theorems about the burst arithmetic of `BurstCursor`, and its loops
  (`lane_mask`, `validate_4k_boundary`, the fabric's `enabled_extent`) proved
  against the interval view of a beat.
 */
module Bursts {
  import opened Arith
  import opened Axi

  // ---- incrementing bursts ---------------------------------------------

  lemma IncrementEnd(p: AddressPayload, k: nat)
    requires p.burst.Increment?
    ensures BeatEnd(p, k) == AlignDown(p.address, BeatBytes(p)) + (k + 1) * BeatBytes(p)
    ensures p.address <= BeatAddress(p, k)
  {
    var bytes := BeatBytes(p);
    var base := AlignDown(p.address, bytes);
    if k > 0 {
      DivMod(p.address, bytes);
      ModAddMultiple(0, p.address / bytes + k, bytes);
      assert base + k * bytes == 0 + (p.address / bytes + k) * bytes;
      MulLe(1, k, bytes);
    }
    assert (k + 1) * bytes == k * bytes + bytes;
  }

  /** The window of a beat ends at the next multiple of the transfer size. */
  lemma EndIsNextMultiple(p: AddressPayload, k: nat)
    ensures BeatAddress(p, k) < BeatEnd(p, k) <= BeatAddress(p, k) + BeatBytes(p)
    ensures BeatEnd(p, k) % BeatBytes(p) == 0
  {
    hide BeatAddress, BeatBytes;
    NextMultiple(BeatAddress(p, k), BeatBytes(p));
  }

  /** INCR starts at the address and leaves no gap; FIXED stays at the address. */
  lemma PlainBeats(p: AddressPayload, k: nat)
    ensures BeatAddress(p, 0) == p.address || p.burst.Wrap?
    ensures p.burst.Increment? ==> BeatAddress(p, k + 1) == BeatEnd(p, k)
    ensures p.burst.Fixed? ==> BeatAddress(p, k) == p.address
  {
    if p.burst.Increment? { IncrementEnd(p, k); }
  }

  lemma SamePageBetween(a: nat, b: nat, x: nat)
    requires a <= x <= b && a / PAGE == b / PAGE
    ensures x / PAGE == a / PAGE
  {}

  /** Every enabled byte of an INCR burst lies between its start byte and the
      last byte of its last beat. */
  lemma IncrementSpan(p: AddressPayload, k: nat)
    requires p.burst.Increment? && k < Beats(p)
    ensures p.address <= Lo(p, k) && Hi(p, k) <= BeatEnd(p, k) <= BeatEnd(p, Beats(p) - 1)
  {
    IncrementEnd(p, k);
    IncrementEnd(p, Beats(p) - 1);
    MulLe(k + 1, Beats(p), BeatBytes(p));
  }

  lemma PageTop(a: nat)
    requires TWO64 - PAGE <= a < TWO64
    ensures a / PAGE == (TWO64 - 1) / PAGE
  {}

  /** The per-beat, per-lane page check of an INCR burst is a comparison of two
      page numbers, at every address including the top of the 64-bit space. */
  lemma IncrementWithin4K(width: nat, p: AddressPayload)
    requires BusWidth(width) && ShapeOk(width, p) && p.burst.Increment?
    ensures Within4K(p) <==> (BeatEnd(p, Beats(p) - 1) - 1) / PAGE == p.address / PAGE
  {
    if (BeatEnd(p, Beats(p) - 1) - 1) / PAGE == p.address / PAGE { OnePageAccepted(width, p); }
    if Within4K(p) { AcceptedOnePage(width, p); }
  }

  lemma OnePageAccepted(width: nat, p: AddressPayload)
    requires BusWidth(width) && ShapeOk(width, p) && p.burst.Increment?
    requires (BeatEnd(p, Beats(p) - 1) - 1) / PAGE == p.address / PAGE
    ensures Within4K(p)
  {
    var end := BeatEnd(p, Beats(p) - 1);
    assert end - 1 < TWO64;
    forall k: nat | k < Beats(p)
      ensures BeatAddress(p, k) < TWO64
      ensures forall a | Lo(p, k) <= a < Hi(p, k) :: a / PAGE == p.address / PAGE
    {
      IncrementSpan(p, k);
      forall a | Lo(p, k) <= a < Hi(p, k) ensures a / PAGE == p.address / PAGE {
        SamePageBetween(p.address, end - 1, a);
      }
    }
  }

  lemma AcceptedOnePage(width: nat, p: AddressPayload)
    requires BusWidth(width) && ShapeOk(width, p) && p.burst.Increment? && Within4K(p)
    ensures (BeatEnd(p, Beats(p) - 1) - 1) / PAGE == p.address / PAGE
  {
    var last := Beats(p) - 1;
    var end := BeatEnd(p, last);
    assert BeatAddress(p, last) < TWO64;
    BeatBytesCases(width, p);
    if end != TWO64 {
      assert Lo(p, last) <= end - 1 < Hi(p, last);
    } else if last == 0 {
      BeatWindow(width, p, 0);
      PageTop(p.address);
    } else {
      IncrementEnd(p, last);
      IncrementEnd(p, last - 1);
      Distribute(last, 1, BeatBytes(p));
      var x := BeatEnd(p, last - 1) - 1;
      assert Lo(p, last - 1) <= x < Hi(p, last - 1);
      PageTop(x);
    }
  }

  // ---- wrapping bursts -------------------------------------------------

  function WrapBase(p: AddressPayload): nat { AlignDown(p.address, Total(p)) }

  /** The slot of the container at which a WRAP burst starts. */
  function WrapStart(p: AddressPayload): nat {
    DivNonNeg(p.address % Total(p), BeatBytes(p));
    (p.address % Total(p)) / BeatBytes(p)
  }

  lemma WrapStartAligned(width: nat, p: AddressPayload)
    requires BusWidth(width) && ShapeOk(width, p) && p.burst.Wrap?
    ensures p.address == WrapBase(p) + WrapStart(p) * BeatBytes(p)
    ensures WrapStart(p) < Beats(p)
  {
    Commute(Beats(p), BeatBytes(p));
    SlotOf(p.address, BeatBytes(p), Beats(p));
    DivMod(p.address / BeatBytes(p), Beats(p));
  }

  /** Beat k of a WRAP burst sits in slot (start + k) mod beats. */
  lemma WrapIsRotation(width: nat, p: AddressPayload, k: nat)
    requires BusWidth(width) && ShapeOk(width, p) && p.burst.Wrap?
    ensures BeatAddress(p, k) == WrapBase(p) + ((WrapStart(p) + k) % Beats(p)) * BeatBytes(p)
  {
    WrapStartAligned(width, p);
    Commute(Beats(p), BeatBytes(p));
    RotateSlot(WrapStart(p), k, BeatBytes(p), Beats(p));
  }

  /** Every beat of a WRAP burst is a whole slot of the container. */
  lemma WrapInContainer(width: nat, p: AddressPayload, k: nat)
    requires BusWidth(width) && ShapeOk(width, p) && p.burst.Wrap?
    ensures WrapBase(p) <= BeatAddress(p, k)
    ensures BeatEnd(p, k) == BeatAddress(p, k) + BeatBytes(p) <= WrapBase(p) + Total(p)
  {
    var b, n := BeatBytes(p), Beats(p);
    WrapIsRotation(width, p, k);
    WrapStartAligned(width, p);
    var slot := (WrapStart(p) + k) % n;
    DivMod(WrapStart(p) + k, n);
    MulNonNeg(slot, b);
    MulLe(slot + 1, n, b);
    Distribute(slot, 1, b);
    // the beat address differs from the aligned start address by whole slots
    Distribute(slot, 0 - WrapStart(p), b);
    ModAddMultiple(p.address, slot - WrapStart(p), b);
    assert BeatAddress(p, k) == p.address + (slot - WrapStart(p)) * b;
  }

  /** The beats of a WRAP burst visit every slot of one size-aligned container
      exactly once, starting at the requested address and wrapping at the top. */
  lemma WrapIsPermutation(width: nat, p: AddressPayload, slot: nat, j: nat)
    requires BusWidth(width) && ShapeOk(width, p) && p.burst.Wrap?
    requires slot < Beats(p) && j < Beats(p)
    ensures BeatAddress(p, 0) == p.address
    ensures WrapStart(p) < Beats(p)
    ensures BeatAddress(p, j) == WrapBase(p) + slot * BeatBytes(p) <==>
            j == StepsTo(WrapStart(p), slot, Beats(p))
  {
    var n := Beats(p);
    WrapStartAligned(width, p);
    WrapIsRotation(width, p, 0);
    ModSmall(WrapStart(p), n);
    WrapIsRotation(width, p, j);
    StepsToReaches(WrapStart(p), slot, n, j);
    DivMod(WrapStart(p) + j, n);
    var t := (WrapStart(p) + j) % n;
    if t * BeatBytes(p) == slot * BeatBytes(p) { SlotInjective(t, slot, BeatBytes(p)); }
  }

  lemma SlotInjective(s: nat, t: nat, b: nat)
    requires b > 0 && s * b == t * b
    ensures s == t
  {
    if s < t { MulLe(s + 1, t, b); Distribute(s, 1, b); }
    if t < s { MulLe(t + 1, s, b); Distribute(t, 1, b); }
  }

  /** FIXED and WRAP bursts of legal shape never leave their page. */
  lemma FixedWrapWithin4K(width: nat, p: AddressPayload)
    requires BusWidth(width) && ShapeOk(width, p) && !p.burst.Increment?
    ensures Within4K(p)
  {
    BeatBytesCases(width, p);
    forall k: nat | k < Beats(p)
      ensures BeatAddress(p, k) < TWO64
      ensures forall a | Lo(p, k) <= a < Hi(p, k) :: a / PAGE == p.address / PAGE
    {
      BeatWindow(width, p, k);
      if p.burst.Wrap? {
        WrapInContainer(width, p, k);
        ContainerSizes(Beats(p), BeatBytes(p));
        ContainerInPage(p.address, Total(p), Lo(p, k));
        forall a | Lo(p, k) <= a < Hi(p, k) ensures a / PAGE == p.address / PAGE {
          ContainerInPage(p.address, Total(p), a);
        }
      } else {
        WindowInPage(p.address, BeatBytes(p));
        forall a | Lo(p, k) <= a < Hi(p, k) ensures a / PAGE == p.address / PAGE {
          SamePageBetween(p.address, BeatEnd(p, k) - 1, a);
        }
      }
    }
  }

  predicate PowerTo256(n: nat) { PowerTo16(n) || n == 32 || n == 64 || n == 128 || n == 256 }

  lemma ContainerSizes(beats: nat, bytes: nat)
    requires PowerTo16(bytes) && PowerTo16(beats)
    ensures PowerTo256(beats * bytes)
  {
    if beats == 1 {} else if beats == 2 {} else if beats == 4 {} else if beats == 8 {} else {}
  }

  function PagesOf(n: nat): nat
    requires PowerTo256(n)
  {
    PAGE / n
  }

  lemma ContainerDivides(n: nat)
    requires PowerTo256(n)
    ensures PagesOf(n) > 0 && n * PagesOf(n) == PAGE
  {
    if n == 1 {} else if n == 2 {} else if n == 4 {} else if n == 8 {} else if n == 16 {}
    else if n == 32 {} else if n == 64 {} else if n == 128 {} else {}
  }

  /** A naturally aligned container of at most 256 bytes lies in one page. */
  lemma ContainerInPage(a: nat, n: nat, x: nat)
    requires PowerTo256(n) && a < TWO64
    requires a - a % n <= x < a - a % n + n
    ensures x / PAGE == a / PAGE
    ensures x < TWO64
  {
    ContainerDivides(n);
    ModAtMost(a, n);
    NestedBlock(a, n, PagesOf(n), x);
    NestedBlock(a, n, PagesOf(n), a);
  }

  lemma WindowInPage(a: nat, n: nat)
    requires PowerTo16(n)
    ensures (a - a % n + n - 1) / PAGE == a / PAGE
  {
    ContainerDivides(n);
    DivMod(a, n);
    NestedBlock(a, n, PagesOf(n), a - a % n + n - 1);
    NestedBlock(a, n, PagesOf(n), a);
  }

  /** Together: the page check accepts a shape-valid burst exactly when it is
      not an INCR burst whose first and last byte differ in page. */
  predicate PageRule(p: AddressPayload) {
    p.burst.Increment? ==> (BeatEnd(p, Beats(p) - 1) - 1) / PAGE == p.address / PAGE
  }

  lemma Within4KIsPageRule(width: nat, p: AddressPayload)
    requires BusWidth(width) && ShapeOk(width, p)
    ensures Within4K(p) <==> PageRule(p)
  {
    if p.burst.Increment? {
      IncrementWithin4K(width, p);
    } else {
      FixedWrapWithin4K(width, p);
    }
  }

  // ---- the loops of the source -----------------------------------------

  method LaneMask(width: nat, p: AddressPayload, k: nat) returns (mask: seq<bool>)
    requires BusWidth(width) && ShapeOk(width, p)
    requires k < Beats(p) && BeatAddress(p, k) < TWO64
    ensures |mask| == width
    ensures forall lane | 0 <= lane < width ::
              mask[lane] <==> Lo(p, k) <= AlignDown(BeatAddress(p, k), width) + lane < Hi(p, k)
  {
    mask := [];
    var lane := 0;
    while lane < width
      invariant 0 <= lane == |mask| <= width
      invariant forall l | 0 <= l < lane ::
                  mask[l] <==> Lo(p, k) <= AlignDown(BeatAddress(p, k), width) + l < Hi(p, k)
    {
      LaneMaskIsInterval(width, p, k, lane);
      mask := mask + [LaneEnabled(width, p, k, lane)];
      lane := lane + 1;
    }
  }

  /** First enabled lane and length of the enabled extent; (0, 0) if none. */
  method EnabledExtent(mask: seq<bool>) returns (first: nat, count: nat)
    ensures count == 0 <==> forall i | 0 <= i < |mask| :: !mask[i]
    ensures count == 0 ==> first == 0
    ensures count > 0 ==> first + count <= |mask| && mask[first] && mask[first + count - 1]
    ensures forall i | 0 <= i < |mask| && mask[i] :: first <= i < first + count
  {
    first := |mask|;
    var last := 0;
    var index := 0;
    while index < |mask|
      invariant 0 <= index <= |mask| && last <= index
      invariant first == |mask| <==> forall i | 0 <= i < index :: !mask[i]
      invariant first < |mask| ==> first < last && mask[first] && mask[last - 1]
      invariant forall i | 0 <= i < index && mask[i] :: first <= i < last
    {
      if mask[index] {
        first := if index < first then index else first;
        last := index + 1;
      }
      index := index + 1;
    }
    if first == |mask| {
      first, count := 0, 0;
    } else {
      count := last - first;
    }
  }

  /** On a lane mask the extent is the beat's byte interval, with no holes. */
  lemma ExtentOfBeat(width: nat, p: AddressPayload, k: nat, mask: seq<bool>, first: nat, count: nat)
    requires BusWidth(width) && ShapeOk(width, p)
    requires |mask| == width
    requires forall lane | 0 <= lane < width ::
               mask[lane] <==> Lo(p, k) <= AlignDown(BeatAddress(p, k), width) + lane < Hi(p, k)
    requires count == 0 <==> forall i | 0 <= i < |mask| :: !mask[i]
    requires count > 0 ==> first + count <= |mask| && mask[first] && mask[first + count - 1]
    requires forall i | 0 <= i < |mask| && mask[i] :: first <= i < first + count
    ensures count == Hi(p, k) - Lo(p, k)
    ensures count > 0 ==> AlignDown(BeatAddress(p, k), width) + first == Lo(p, k)
    ensures count > 0 ==> forall lane | first <= lane < first + count :: mask[lane]
  {
    BeatWindow(width, p, k);
    var bus := AlignDown(BeatAddress(p, k), width);
    if Lo(p, k) < Hi(p, k) {
      assert mask[Lo(p, k) - bus];
      assert mask[Hi(p, k) - 1 - bus];
    }
  }

  /** The nested loop of `validate_4k_boundary`. */
  method Validate4K(width: nat, p: AddressPayload) returns (ok: bool)
    requires BusWidth(width) && ShapeOk(width, p)
    ensures ok <==> Within4K(p)
  {
    var beat := 0;
    while beat < Beats(p)
      invariant 0 <= beat <= Beats(p)
      invariant forall k: nat | k < beat ::
                  && BeatAddress(p, k) < TWO64
                  && forall a | Lo(p, k) <= a < Hi(p, k) :: a / PAGE == p.address / PAGE
    {
      if BeatAddress(p, beat) >= TWO64 {
        return false;
      }
      BeatWindow(width, p, beat);
      var bus := AlignDown(BeatAddress(p, beat), width);
      var mask := LaneMask(width, p, beat);
      var lane := 0;
      while lane < width
        invariant 0 <= lane <= width
        invariant forall a | Lo(p, beat) <= a < Hi(p, beat) && a < bus + lane :: a / PAGE == p.address / PAGE
      {
        if mask[lane] && (bus + lane) / PAGE != p.address / PAGE {
          return false;
        }
        lane := lane + 1;
      }
      beat := beat + 1;
    }
    ok := true;
  }
}
