/**
  AXI4 vocabulary of `src/axi.hpp`: channel payloads, response merging and the
  burst address arithmetic.  Addresses are mathematical integers; the places
  where the 64-bit arithmetic of the source wraps are written out.
 */
module Axi {
  import opened Arith

  const TWO64 := 0x1_0000_0000_0000_0000
  const PAGE := 4096

  type u64 = x: int | 0 <= x < TWO64
  type byte = x: int | 0 <= x < 256

  datatype Option<+T> = None | Some(value: T)

  datatype Response = Okay | ExclusiveOkay | SlaveError | DecodeError

  datatype Burst = Fixed | Increment | Wrap | Reserved

  datatype AddressPayload = AddressPayload(
    id: u64, address: u64, length: byte, size: byte, burst: Burst,
    lock: bool, cache: byte, protection: byte)

  datatype WriteBeat = WriteBeat(data: seq<byte>, strobe: seq<byte>, last: bool)

  datatype ReadBeat = ReadBeat(id: u64, data: seq<byte>, response: Response, last: bool)

  datatype WriteResponse = WriteResponse(id: u64, response: Response, exit: Option<nat>)

  // ---- responses -------------------------------------------------------

  predicate Success(r: Response) { r.Okay? || r.ExclusiveOkay? }

  function Combine(l: Response, r: Response): Response {
    if l.DecodeError? || r.DecodeError? then DecodeError
    else if l.SlaveError? || r.SlaveError? then SlaveError
    else if l.ExclusiveOkay? || r.ExclusiveOkay? then ExclusiveOkay
    else Okay
  }

  // ---- burst shape -----------------------------------------------------

  function Pow2(n: nat): (r: nat)
    ensures r >= 1
  {
    if n == 0 then 1 else 2 * Pow2(n - 1)
  }

  function Beats(p: AddressPayload): (n: nat)
    ensures 1 <= n <= 256
  {
    p.length + 1
  }

  function BeatBytes(p: AddressPayload): (n: nat)
    ensures n >= 1
  {
    Pow2(p.size)
  }

  function AlignDown(a: nat, n: nat): (r: nat)
    requires n > 0
    ensures r <= a < r + n
  {
    ModAtMost(a, n);
    a - a % n
  }

  /** The bus widths `AxiFabric` can be instantiated with, in bytes. */
  predicate BusWidth(width: nat) { width == 4 || width == 8 || width == 16 }

  /** What the `BurstCursor` constructor demands of a payload. */
  predicate ShapeOk(width: nat, p: AddressPayload) {
    && p.size < 64
    && BeatBytes(p) <= width
    && p.burst != Reserved
    && (p.burst.Fixed? ==> Beats(p) <= 16)
    && (p.burst.Wrap? ==>
          && (Beats(p) == 2 || Beats(p) == 4 || Beats(p) == 8 || Beats(p) == 16)
          && p.address % BeatBytes(p) == 0)
  }

  /** Byte size of the container of a WRAP burst, and of an exclusive transfer. */
  function Total(p: AddressPayload): (n: nat)
    ensures n >= 1
  {
    MulLe(1, Beats(p), BeatBytes(p));
    Beats(p) * BeatBytes(p)
  }

  /** Unbounded beat address: the source computes it in 128 bits. */
  function BeatAddress(p: AddressPayload, k: nat): nat {
    MulNonNeg(k, BeatBytes(p));
    match p.burst
    case Increment =>
      if k == 0 then p.address else AlignDown(p.address, BeatBytes(p)) + k * BeatBytes(p)
    case Wrap =>
      var base := AlignDown(p.address, Total(p));
      base + (p.address - base + k * BeatBytes(p)) % Total(p)
    case _ => p.address
  }

  /** End of the size-aligned window that holds beat k. */
  function BeatEnd(p: AddressPayload, k: nat): (e: nat)
    ensures e > BeatAddress(p, k)
  {
    AlignDown(BeatAddress(p, k), BeatBytes(p)) + BeatBytes(p)
  }

  /** Enabled byte addresses of beat k are Lo <= a < Hi.  In 64 bits the end of a
      window that finishes at 2^64 is zero, which disables every lane. */
  function Lo(p: AddressPayload, k: nat): nat {
    BeatAddress(p, k)
  }

  function Hi(p: AddressPayload, k: nat): (a: nat)
    ensures a >= Lo(p, k)
  {
    if BeatEnd(p, k) == TWO64 then BeatAddress(p, k) else BeatEnd(p, k)
  }

  /** Lane test exactly as `lane_mask` computes it, in 64-bit arithmetic. */
  predicate LaneEnabled(width: nat, p: AddressPayload, k: nat, lane: nat)
    requires width > 0
  {
    var address := BeatAddress(p, k);
    var last := (AlignDown(address, BeatBytes(p)) + BeatBytes(p)) % TWO64;
    var here := (AlignDown(address, width) + lane) % TWO64;
    here >= address && here < last
  }

  /** What `validate_4k_boundary` accepts: every beat address fits 64 bits and
      every enabled byte lies in the page of the start address. */
  ghost predicate Within4K(p: AddressPayload) {
    forall k: nat | k < Beats(p) ::
      && BeatAddress(p, k) < TWO64
      && forall a | Lo(p, k) <= a < Hi(p, k) :: a / PAGE == p.address / PAGE
  }

  // ---- arithmetic of one beat ------------------------------------------

  lemma BeatBytesCases(width: nat, p: AddressPayload)
    requires BusWidth(width) && ShapeOk(width, p)
    ensures p.size <= 4
    ensures PowerTo16(BeatBytes(p))
  {
    if p.size >= 5 { Pow2AtLeast(p.size, 5); }
    assert Pow2(0) == 1 && Pow2(1) == 2 && Pow2(2) == 4 && Pow2(3) == 8 && Pow2(4) == 16;
  }

  lemma Pow2AtLeast(n: nat, m: nat)
    requires n >= m
    ensures Pow2(n) >= Pow2(m)
    ensures m == 5 ==> Pow2(m) == 32
  {
    assert Pow2(5) == 32 by { assert Pow2(4) == 16 by { assert Pow2(2) == 4; } }
    if n > m { Pow2AtLeast(n - 1, m); }
  }

  predicate PowerTo16(n: nat) { n == 1 || n == 2 || n == 4 || n == 8 || n == 16 }

  function Ratio(width: nat, bytes: nat): (m: nat)
    requires BusWidth(width) && bytes <= width && PowerTo16(bytes)
    ensures m > 0 && bytes * m == width
  {
    if bytes == 1 then width else if bytes == 2 then width / 2 else if bytes == 4 then width / 4
    else if bytes == 8 then width / 8 else 1
  }

  lemma WordBelowTop(width: nat, a: nat)
    requires BusWidth(width) && a < TWO64
    ensures a - a % width + width <= TWO64
  {
    if width == 4 {} else if width == 8 {} else {}
  }

  /** Size-aligned windows nest inside bus words, and neither straddles 2^64. */
  lemma WindowInWord(width: nat, bytes: nat, a: nat)
    requires BusWidth(width) && bytes <= width && PowerTo16(bytes)
    ensures AlignDown(a, width) <= AlignDown(a, bytes)
    ensures AlignDown(a, bytes) + bytes <= AlignDown(a, width) + width
    ensures a < TWO64 ==> AlignDown(a, width) + width <= TWO64
  {
    NestedWindow(a, bytes, Ratio(width, bytes));
    if a < TWO64 { WordBelowTop(width, a); }
  }

  lemma BeatWindow(width: nat, p: AddressPayload, k: nat)
    requires BusWidth(width) && ShapeOk(width, p)
    ensures AlignDown(BeatAddress(p, k), width) <= Lo(p, k)
    ensures BeatEnd(p, k) <= AlignDown(BeatAddress(p, k), width) + width
    ensures Hi(p, k) <= BeatEnd(p, k) <= Lo(p, k) + BeatBytes(p)
    ensures BeatAddress(p, k) < TWO64 ==> BeatEnd(p, k) <= TWO64
  {
    BeatBytesCases(width, p);
    WindowInWord(width, BeatBytes(p), BeatAddress(p, k));
  }

  /** The lane mask is the interval Lo..Hi: one contiguous run of lanes. */
  lemma LaneMaskIsInterval(width: nat, p: AddressPayload, k: nat, lane: nat)
    requires BusWidth(width) && ShapeOk(width, p) && lane < width
    requires BeatAddress(p, k) < TWO64
    ensures LaneEnabled(width, p, k, lane) <==>
            Lo(p, k) <= AlignDown(BeatAddress(p, k), width) + lane < Hi(p, k)
  {
    hide BeatAddress, BeatBytes, AlignDown;
    BeatWindow(width, p, k);
    assert AlignDown(BeatAddress(p, k), width) + width <= TWO64 by {
      BeatBytesCases(width, p);
      WindowInWord(width, BeatBytes(p), BeatAddress(p, k));
    }
    ModSmall(AlignDown(BeatAddress(p, k), width) + lane, TWO64);
    if BeatEnd(p, k) < TWO64 {
      ModSmall(BeatEnd(p, k), TWO64);
    }
  }
}
