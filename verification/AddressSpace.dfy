/**
  The address map of `src/devices.cpp`: a vector of mappings kept sorted by
  base address, searched by bisection.
 */
module AddressMap {
  import opened Axi

  /** One window of a device; `device` is the device's index. */
  datatype Mapping = Mapping(base: u64, size: u64, device: nat) {
    function End(): int { base + size }

    predicate Contains(address: int, length: int) {
      base <= address && address + length <= End()
    }
  }

  /** Sorted, non-empty, disjoint, and below 2^64. */
  ghost predicate SpaceOk(ms: seq<Mapping>) {
    && (forall i | 0 <= i < |ms| :: ms[i].size > 0 && ms[i].End() < TWO64)
    && (forall i, j | 0 <= i < j < |ms| :: ms[i].End() <= ms[j].base)
  }

  predicate Disjoint(base: u64, size: u64, m: Mapping) {
    base + size <= m.base || m.End() <= base
  }

  /** Reference meaning of `resolve`: scan for a window holding the range. */
  function Scan(ms: seq<Mapping>, address: int, length: nat): (r: Option<nat>)
    ensures r.Some? ==> r.value < |ms| && length > 0 && ms[r.value].Contains(address, length)
    ensures r.None? ==> length == 0 || forall i | 0 <= i < |ms| :: !ms[i].Contains(address, length)
  {
    if length == 0 || |ms| == 0 then None
    else if ms[|ms| - 1].Contains(address, length) then Some(|ms| - 1)
    else Scan(ms[..|ms| - 1], address, length)
  }

  lemma ScanUnique(ms: seq<Mapping>, address: int, length: nat, i: nat)
    requires SpaceOk(ms) && i < |ms| && length > 0 && ms[i].Contains(address, length)
    ensures Scan(ms, address, length) == Some(i)
  {}

  datatype MapOutcome = Added | Frozen | Empty | Overflow | Overlap

  /** When `map` accepts a window, stated against every existing window. */
  ghost predicate Mappable(frozen: bool, ms: seq<Mapping>, base: u64, size: u64) {
    !frozen && size > 0 && base + size < TWO64 &&
    forall i | 0 <= i < |ms| :: Disjoint(base, size, ms[i])
  }

  class AddressSpace {
    var mappings: seq<Mapping>
    var frozen: bool

    ghost predicate Valid()
      reads this
    {
      SpaceOk(mappings)
    }

    constructor ()
      ensures Valid() && mappings == [] && !frozen
    {
      mappings, frozen := [], false;
    }

    method Freeze()
      requires Valid()
      modifies this
      ensures Valid() && frozen && mappings == old(mappings)
    {
      frozen := true;
    }

    /** First position whose base is not below `base`. */
    method LowerBound(base: int) returns (position: nat)
      requires Valid()
      ensures position <= |mappings|
      ensures forall i | 0 <= i < position :: mappings[i].base < base
      ensures forall i | position <= i < |mappings| :: mappings[i].base >= base
    {
      var low, high := 0, |mappings|;
      while low < high
        invariant 0 <= low <= high <= |mappings|
        invariant forall i | 0 <= i < low :: mappings[i].base < base
        invariant forall i | high <= i < |mappings| :: mappings[i].base >= base
      {
        var mid := (low + high) / 2;
        if mappings[mid].base < base { low := mid + 1; } else { high := mid; }
      }
      position := low;
    }

    /** Inserts a window at its sorted place, or refuses and changes nothing. */
    method Map(base: u64, size: u64, device: nat) returns (outcome: MapOutcome)
      requires Valid()
      modifies this
      ensures Valid() && frozen == old(frozen)
      ensures outcome.Added? <==> Mappable(old(frozen), old(mappings), base, size)
      ensures outcome.Added? ==> exists at: nat | at <= |old(mappings)| ::
                mappings == old(mappings)[..at] + [Mapping(base, size, device)] + old(mappings)[at..]
      ensures !outcome.Added? ==> mappings == old(mappings)
      ensures outcome.Frozen? <==> old(frozen)
      ensures outcome.Empty? <==> !old(frozen) && size == 0
      ensures outcome.Overflow? <==> !old(frozen) && size > 0 && base + size >= TWO64
    {
      if frozen { return Frozen; }
      if size == 0 { return Empty; }
      if size > TWO64 - 1 - base { return Overflow; }
      var position := LowerBound(base);
      if position != 0 && mappings[position - 1].End() > base {
        assert !Disjoint(base, size, mappings[position - 1]);
        return Overlap;
      }
      if position != |mappings| && base + size > mappings[position].base {
        assert !Disjoint(base, size, mappings[position]);
        return Overlap;
      }
      InsertKeepsSpace(mappings, position, Mapping(base, size, device));
      mappings := mappings[..position] + [Mapping(base, size, device)] + mappings[position..];
      outcome := Added;
    }

    /** `resolve`: the predecessor by bisection is the window a scan would find. */
    method Resolve(address: u64, length: u64) returns (r: Option<nat>)
      requires Valid()
      ensures r == Scan(mappings, address, length)
      ensures r.Some? <==> length > 0 && exists i | 0 <= i < |mappings| :: mappings[i].Contains(address, length)
    {
      if length == 0 || |mappings| == 0 {
        return None;
      }
      var position := LowerBound(address + 1);
      if position == 0 {
        return None;
      }
      position := position - 1;
      var m := mappings[position];
      if address < m.base || address >= m.End() || length > m.End() - address {
        return None;
      }
      ScanUnique(mappings, address, length, position);
      r := Some(position);
    }

    /** `resolution_error`: SLVERR exactly when some window holds the first byte. */
    method ResolutionError(address: u64) returns (r: Response)
      requires Valid()
      ensures r == if Scan(mappings, address, 1).Some? then SlaveError else DecodeError
    {
      var position := LowerBound(address + 1);
      if position != 0 && mappings[position - 1].base <= address && address < mappings[position - 1].End() {
        ScanUnique(mappings, address, 1, position - 1);
        return SlaveError;
      }
      r := DecodeError;
    }
  }

  lemma InsertKeepsSpace(ms: seq<Mapping>, at: nat, m: Mapping)
    requires SpaceOk(ms) && at <= |ms| && m.size > 0 && m.End() < TWO64
    requires forall i | 0 <= i < at :: ms[i].base < m.base
    requires forall i | at <= i < |ms| :: ms[i].base >= m.base
    requires at > 0 ==> ms[at - 1].End() <= m.base
    requires at < |ms| ==> m.End() <= ms[at].base
    ensures SpaceOk(ms[..at] + [m] + ms[at..])
    ensures forall i | 0 <= i < |ms| :: Disjoint(m.base, m.size, ms[i])
  {
    forall i | 0 <= i < at ensures ms[i].End() <= m.base {
      if i < at - 1 { assert ms[i].End() <= ms[at - 1].base; }
    }
    forall i | at <= i < |ms| ensures m.End() <= ms[i].base {
      if at < i { assert ms[at].End() <= ms[i].base; }
    }
    InsertSorted(ms, at, m);
  }

  lemma InsertSorted(ms: seq<Mapping>, at: nat, m: Mapping)
    requires SpaceOk(ms) && at <= |ms| && m.size > 0 && m.End() < TWO64
    requires forall i | 0 <= i < at :: ms[i].End() <= m.base
    requires forall i | at <= i < |ms| :: m.End() <= ms[i].base
    ensures SpaceOk(ms[..at] + [m] + ms[at..])
  {
    var r := ms[..at] + [m] + ms[at..];
    forall i, j | 0 <= i < j < |r| ensures r[i].End() <= r[j].base {
      if j < at {
        assert r[i] == ms[i] && r[j] == ms[j];
      } else if j == at {
        assert r[i] == ms[i];
      } else if i < at {
        assert r[i] == ms[i] && r[j] == ms[j - 1];
      } else if i == at {
        assert r[j] == ms[j - 1];
      } else {
        assert r[i] == ms[i - 1] && r[j] == ms[j - 1];
      }
    }
  }
}
