/**
 * The Python distributor (python/jen20_pulumi_aws_vpc/subnet_distributor.py).
 * Every sub-block comes from `__cidr_subnet`, which parses strictly (host
 * bits must be clear) and indexes the list of children, in which a /32 is
 * its own only child. The private and the public subnets are both derived
 * from the zone blocks: the private one is the zone's lower half, the public
 * one the lower half of its upper half. `ConstructMatchesPlan` proves that
 * the constructor yields the reference plan.
 */
module PythonDistributor {
  import opened Wrappers
  import opened PowerOfTwo
  import opened Ipv4
  import opened Cidr
  import opened Partition
  import opened Sequences
  import opened Distribution

  /** `__make_private_subnet`: the first of the two halves of a block. */
  function MakePrivateSubnet(block: string): Result<string, CidrError>
  {
    PyCidrSubnet(block, 1, 0)
  }

  /** `__make_public_subnet`: the second half of a block, then the first half of that. */
  function MakePublicSubnet(block: string): Result<string, CidrError>
  {
    match PyCidrSubnet(block, 1, 1)
    case Err(e) => Err(e)
    case Ok(splitBase) => PyCidrSubnet(splitBase, 1, 0)
  }

  /** The zone comprehension's element: `__cidr_subnet(base_cidr, new_bits_per_az, i)`. */
  function ZoneCall(baseCidr: string, zoneBits: nat): nat -> Result<string, CidrError>
  {
    (i: nat) => PyCidrSubnet(baseCidr, zoneBits, i)
  }

  /**
   * `__init__` once `new_bits_per_az` is known: the zone blocks, then the
   * private subnets, then the public subnets (both from the zone blocks),
   * the first exception aborting.
   */
  function Distribute(baseCidr: string, zoneBits: nat, azCount: nat): Result<Allocation, CidrError>
  {
    match MapResult(ZoneCall(baseCidr, zoneBits), Range(azCount))
    case Err(e) => Err(e)
    case Ok(azBases) =>
      match MapResult(MakePrivateSubnet, azBases)
      case Err(e) => Err(e)
      case Ok(privates) =>
        match MapResult(MakePublicSubnet, azBases)
        case Err(e) => Err(e)
        case Ok(publics) => Ok(Allocation(privates, publics))
  }

  /** `SubnetDistributor(base_cidr, az_count)`, with the bit count read exactly off `__next_power_of_2`. */
  function Construct(baseCidr: string, azCount: nat): Result<Allocation, CidrError>
  {
    Distribute(baseCidr, Log2(PyNextPowerOf2(azCount)), azCount)
  }

  // ---------------------------------------------------------------------------
  // One call at a time
  // ---------------------------------------------------------------------------

  /** The base reads as a /32, which `subnets(k)` lists alone whatever k is. */
  predicate FullBase(baseCidr: string)
  {
    Parse(baseCidr).Some? && Parse(baseCidr).value.prefix == 32
  }

  /** A /32 has no host bits. */
  lemma FullAligned(b: AddressBlock)
    requires b.prefix == 32
    ensures Aligned(b)
  {
  }

  /**
   * `__cidr_subnet` on text that reads as an aligned block: a /32 gives
   * itself at index 0 and IndexError past it; otherwise too many bits is a
   * ValueError, an index past the 2^k children an IndexError, and any other
   * index renders that child.
   */
  lemma {:induction false} CallOfParsed(text: string, b: AddressBlock, k: nat, j: nat)
    requires Parse(text) == Some(b) && Aligned(b)
    ensures b.prefix < 32 && b.prefix + k <= 32 && j < Pow2(k) ==> ChildFits(b, k, j) && Aligned(Child(b, k, j))
    ensures PyCidrSubnet(text, k, j) ==
      if b.prefix == 32 then (if j == 0 then Ok(Format(b)) else Err(IndexOutOfRange))
      else if b.prefix + k > 32 then Err(NotEnoughBits(k, 32 - b.prefix))
      else if j >= Pow2(k) then Err(IndexOutOfRange)
      else Ok(Format(Child(b, k, j)))
  {
    if b.prefix < 32 && b.prefix + k <= 32 && j < Pow2(k) {
      ChildNested(b, k, j);
    }
  }

  /**
   * One zone call: on a /32 base, the base itself for zone 0 and IndexError
   * for any other; otherwise the error shared by all zone calls, or zone
   * number i rendered.
   */
  lemma {:induction false} ZoneCallOf(baseCidr: string, zoneBits: nat, i: nat)
    requires i < Pow2(zoneBits)
    ensures ZoneCall(baseCidr, zoneBits)(i) ==
      if FullBase(baseCidr) then (if i == 0 then Ok(Format(Parse(baseCidr).value)) else Err(IndexOutOfRange))
      else match ZoneError(Python, baseCidr, zoneBits)
        case Some(e) => Err(e)
        case None => Ok(Format(Zone(Parse(baseCidr).value, zoneBits, i)))
  {
    match Parse(baseCidr)
    case None =>
    case Some(b) =>
      if b.prefix == 32 {
        FullAligned(b);
        CallOfParsed(baseCidr, b, zoneBits, i);
      } else if Aligned(b) {
        CallOfParsed(baseCidr, b, zoneBits, i);
      }
  }

  /** The zone comprehension over a /32 base: the base alone for one zone, IndexError at zone 1 otherwise. */
  lemma {:induction false} FullBaseZones(baseCidr: string, zoneBits: nat, n: nat)
    requires FullBase(baseCidr) && 0 < n <= Pow2(zoneBits)
    ensures MapResult(ZoneCall(baseCidr, zoneBits), Range(n)) ==
      if n == 1 then Ok([Format(Parse(baseCidr).value)]) else Err(IndexOutOfRange)
  {
    var f := ZoneCall(baseCidr, zoneBits);
    ZoneCallOf(baseCidr, zoneBits, 0);
    assert Range(0) == [];
    MapResultRangeSnoc(f, 0);
    assert [] + [Format(Parse(baseCidr).value)] == [Format(Parse(baseCidr).value)];
    if n > 1 {
      ZoneCallOf(baseCidr, zoneBits, 1);
      MapResultRangeSnoc(f, 1);
      MapResultRangeStop(f, 2, n);
    }
  }

  /**
   * The zone comprehension: on a /32 base as FullBaseZones says; otherwise
   * it fails as every zone call does, or renders the zones in order.
   */
  lemma {:induction false} ZonesStage(baseCidr: string, zoneBits: nat, n: nat)
    requires 0 < n <= Pow2(zoneBits)
    ensures MapResult(ZoneCall(baseCidr, zoneBits), Range(n)) ==
      if FullBase(baseCidr) then
        (if n == 1 then Ok([Format(Parse(baseCidr).value)]) else Err(IndexOutOfRange))
      else match ZoneError(Python, baseCidr, zoneBits)
        case Some(e) => Err(e)
        case None => Ok(FormatAll(Zones(Parse(baseCidr).value, n, zoneBits)))
  {
    if FullBase(baseCidr) {
      FullBaseZones(baseCidr, zoneBits, n);
    } else {
      var xs := Range(n);
      forall i | 0 <= i < n
        ensures ZoneCall(baseCidr, zoneBits)(xs[i]) ==
          match ZoneError(Python, baseCidr, zoneBits)
          case Some(e) => Err(e)
          case None => Ok(Format(Zone(Parse(baseCidr).value, zoneBits, xs[i])))
      {
        ZoneCallOf(baseCidr, zoneBits, xs[i]);
      }
      match ZoneError(Python, baseCidr, zoneBits)
      case Some(e) =>
        MapResultUniformError(ZoneCall(baseCidr, zoneBits), xs, e);
      case None =>
        MapResultValues(ZoneCall(baseCidr, zoneBits), xs, FormatAll(Zones(Parse(baseCidr).value, n, zoneBits)));
    }
  }

  /** Blocks of one prefix that all have their host bits clear. */
  ghost predicate AlignedUniform(blocks: seq<AddressBlock>, prefix: nat)
  {
    Uniform(blocks, prefix) && forall i :: 0 <= i < |blocks| ==> Aligned(blocks[i])
  }

  /** `__make_private_subnet` on a rendered aligned zone never fails: a /32 zone comes back itself, any other gives its lower half. */
  lemma {:induction false} PrivateCall(zone: AddressBlock, prefix: nat)
    requires Aligned(zone) && NoWrap(zone) && zone.prefix == prefix && prefix <= 32
    ensures MakePrivateSubnet(Format(zone)) ==
      if prefix == 32 then Ok(Format(zone)) else Ok(Format(PrivateBlock(zone)))
  {
    ParseFormat(zone);
    assert Pow2(1) == 2;
    CallOfParsed(Format(zone), zone, 1, 0);
  }

  /** The private comprehension over rendered aligned zones of one prefix: the zones themselves if /32, otherwise their lower halves. */
  lemma {:induction false} PrivatesStage(zones: seq<AddressBlock>, prefix: nat)
    requires AlignedUniform(zones, prefix) && prefix <= 32
    ensures MapResult(MakePrivateSubnet, FormatAll(zones)) ==
      if prefix == 32 then Ok(FormatAll(zones)) else Ok(FormatAll(PrivatesOf(zones, prefix)))
  {
    var texts := FormatAll(zones);
    forall i | 0 <= i < |zones|
      ensures MakePrivateSubnet(texts[i]) ==
        if prefix == 32 then Ok(texts[i]) else Ok(Format(PrivateBlock(zones[i])))
    {
      PrivateCall(zones[i], prefix);
    }
    if prefix == 32 {
      MapResultValues(MakePrivateSubnet, texts, texts);
    } else {
      MapResultValues(MakePrivateSubnet, texts, FormatAll(PrivatesOf(zones, prefix)));
    }
  }

  /** The first call of `__make_public_subnet` on a rendered aligned zone gives its upper half. */
  lemma {:induction false} UpperHalfCall(zone: AddressBlock, text: string)
    returns (upper: AddressBlock, mid: string)
    requires Aligned(zone) && zone.prefix < 32 && Parse(text) == Some(zone)
    ensures ChildFits(zone, 1, 1) && upper == Child(zone, 1, 1)
    ensures Aligned(upper) && upper.prefix == zone.prefix + 1
    ensures upper.address == zone.address + Size(zone.prefix + 1)
    ensures Parse(mid) == Some(upper) && PyCidrSubnet(text, 1, 1) == Ok(mid)
  {
    Pow2Constants();
    CallOfParsed(text, zone, 1, 1);
    upper := Child(zone, 1, 1);
    mid := Format(upper);
    ParseFormat(upper);
  }

  /** A /32 zone has no upper half: `__make_public_subnet` raises IndexError on it. */
  lemma {:induction false} NoUpperHalf(zone: AddressBlock, text: string)
    requires zone.prefix == 32 && Parse(text) == Some(zone)
    ensures MakePublicSubnet(text) == Err(IndexOutOfRange)
  {
    FullAligned(zone);
    CallOfParsed(text, zone, 1, 1);
  }

  /**
   * The second call on the upper half gives the zone's public quarter, or,
   * when the upper half is a /32 (a /31 zone), that half itself.
   */
  lemma {:induction false} PublicShareCall(zone: AddressBlock, prefix: nat, upper: AddressBlock, mid: string)
    requires Aligned(zone) && NoWrap(zone) && zone.prefix == prefix && prefix < 32
    requires ChildFits(zone, 1, 1) && upper == Child(zone, 1, 1)
    requires Aligned(upper) && Parse(mid) == Some(upper)
    ensures prefix + 1 + PublicShareBits(Python, prefix) <= 32
    ensures PyCidrSubnet(mid, 1, 0) == Ok(Format(PublicBlock(zone, PublicShareBits(Python, prefix))))
  {
    Pow2Constants();
    CallOfParsed(mid, upper, 1, 0);
    if prefix + 1 == 32 {
      assert PublicBlock(zone, 0) == upper;
    }
  }

  /** `__make_public_subnet` is its second call on what its first call returns. */
  lemma {:induction false} PublicThen(text: string, mid: string)
    requires PyCidrSubnet(text, 1, 1) == Ok(mid)
    ensures MakePublicSubnet(text) == PyCidrSubnet(mid, 1, 0)
  {
  }

  /**
   * The public comprehension over rendered aligned zones of one prefix:
   * IndexError for /32 zones, otherwise the public blocks (the whole upper
   * halves of /31 zones).
   */
  lemma {:induction false} PublicsStage(zones: seq<AddressBlock>, prefix: nat)
    requires AlignedUniform(zones, prefix) && prefix <= 32 && zones != []
    ensures prefix < 32 ==> prefix + 1 + PublicShareBits(Python, prefix) <= 32
    ensures MapResult(MakePublicSubnet, FormatAll(zones)) ==
      if prefix == 32 then Err(IndexOutOfRange)
      else Ok(FormatAll(PublicsOf(zones, prefix, PublicShareBits(Python, prefix))))
  {
    var texts := FormatAll(zones);
    if prefix == 32 {
      forall i | 0 <= i < |zones|
        ensures MakePublicSubnet(texts[i]) == Err(IndexOutOfRange)
      {
        ParseFormat(zones[i]);
        NoUpperHalf(zones[i], texts[i]);
      }
      MapResultUniformError(MakePublicSubnet, texts, IndexOutOfRange);
    } else {
      var bits := PublicShareBits(Python, prefix);
      forall i | 0 <= i < |zones|
        ensures MakePublicSubnet(texts[i]) == Ok(Format(PublicBlock(zones[i], bits)))
      {
        ParseFormat(zones[i]);
        var upper, mid := UpperHalfCall(zones[i], texts[i]);
        PublicShareCall(zones[i], prefix, upper, mid);
        PublicThen(texts[i], mid);
      }
      MapResultValues(MakePublicSubnet, texts, FormatAll(PublicsOf(zones, prefix, bits)));
    }
  }

  // ---------------------------------------------------------------------------
  // The whole constructor
  // ---------------------------------------------------------------------------

  /**
   * On a /32 base construction raises IndexError: at zone 1, or, with one
   * zone, where the public comprehension asks for the zone's upper half.
   */
  lemma {:induction false} DistributeOnFullBase(baseCidr: string, zoneBits: nat, azCount: nat)
    requires 0 < azCount <= Pow2(zoneBits) && FullBase(baseCidr)
    ensures Distribute(baseCidr, zoneBits, azCount) == Err(IndexOutOfRange)
  {
    var b := Parse(baseCidr).value;
    ZonesStage(baseCidr, zoneBits, azCount);
    if azCount == 1 {
      FullAligned(b);
      AlignedNoWrap(b);
      assert FormatAll([b]) == [Format(b)];
      PrivatesStage([b], 32);
      PublicsStage([b], 32);
    }
  }

  /** When the zone calls all fail alike (the base is not a /32), construction fails with their error. */
  lemma {:induction false} DistributeZonesFail(baseCidr: string, zoneBits: nat, azCount: nat)
    requires 0 < azCount <= Pow2(zoneBits) && !FullBase(baseCidr)
    requires ZoneError(Python, baseCidr, zoneBits).Some?
    ensures Distribute(baseCidr, zoneBits, azCount) == Err(ZoneError(Python, baseCidr, zoneBits).value)
  {
    ZonesStage(baseCidr, zoneBits, azCount);
  }

  /**
   * The zone stage succeeds with aligned zones of the zone prefix. Its
   * output is returned as a name, whose contents the caller sees only
   * through these facts.
   */
  lemma {:induction false} ZonesRendered(baseCidr: string, zoneBits: nat, azCount: nat)
    returns (zones: seq<AddressBlock>)
    requires 0 < azCount <= Pow2(zoneBits)
    requires ZoneError(Python, baseCidr, zoneBits).None?
    ensures zones == Zones(Parse(baseCidr).value, azCount, zoneBits)
    ensures MapResult(ZoneCall(baseCidr, zoneBits), Range(azCount)) == Ok(FormatAll(zones))
    ensures AlignedUniform(zones, Parse(baseCidr).value.prefix + zoneBits) && zones != []
  {
    var base := Parse(baseCidr).value;
    ZonesStage(baseCidr, zoneBits, azCount);
    zones := Zones(base, azCount, zoneBits);
    ZonesUniform(base, azCount, zoneBits);
    ZonesAligned(base, azCount, zoneBits);
    if FullBase(baseCidr) {
      assert zones[0] == base;
      assert FormatAll(zones) == [Format(base)];
    }
  }

  /**
   * With /32 zones, the zone comprehension succeeds, the private one returns
   * the zones themselves, and the public one raises IndexError.
   */
  lemma {:induction false} StagesWithFullZones(baseCidr: string, zoneBits: nat, azCount: nat)
    returns (azBases: seq<string>)
    requires 0 < azCount <= Pow2(zoneBits)
    requires ZoneError(Python, baseCidr, zoneBits).None?
    requires Parse(baseCidr).value.prefix + zoneBits == 32
    ensures MapResult(ZoneCall(baseCidr, zoneBits), Range(azCount)) == Ok(azBases)
    ensures MapResult(MakePrivateSubnet, azBases) == Ok(azBases)
    ensures MapResult(MakePublicSubnet, azBases) == Err(IndexOutOfRange)
  {
    var zones := ZonesRendered(baseCidr, zoneBits, azCount);
    PrivatesStage(zones, 32);
    PublicsStage(zones, 32);
    azBases := FormatAll(zones);
  }

  /** With /32 zones, construction raises IndexError at the public comprehension. */
  lemma {:induction false} DistributeFullZones(baseCidr: string, zoneBits: nat, azCount: nat)
    requires 0 < azCount <= Pow2(zoneBits)
    requires ZoneError(Python, baseCidr, zoneBits).None?
    requires Parse(baseCidr).value.prefix + zoneBits == 32
    ensures Distribute(baseCidr, zoneBits, azCount) == Err(IndexOutOfRange)
  {
    var azBases := StagesWithFullZones(baseCidr, zoneBits, azCount);
  }

  /**
   * With zones of at most /31, construction renders the block plan: the
   * public share is a quarter of the zone, or the whole upper half of a /31.
   */
  lemma {:induction false} DistributeSucceeds(baseCidr: string, zoneBits: nat, azCount: nat)
    requires 0 < azCount <= Pow2(zoneBits)
    requires ZoneError(Python, baseCidr, zoneBits).None?
    requires Parse(baseCidr).value.prefix + zoneBits < 32
    ensures var base := Parse(baseCidr).value;
      PlanFits(base, azCount, zoneBits, PublicShareBits(Python, base.prefix + zoneBits))
    ensures Distribute(baseCidr, zoneBits, azCount) ==
      var base := Parse(baseCidr).value;
      var bits := PublicShareBits(Python, base.prefix + zoneBits);
      Ok(Allocation(FormatAll(PrivateBlocks(base, azCount, zoneBits, bits)),
                    FormatAll(PublicBlocks(base, azCount, zoneBits, bits))))
  {
    var base := Parse(baseCidr).value;
    var bits := PublicShareBits(Python, base.prefix + zoneBits);
    var zones := ZonesRendered(baseCidr, zoneBits, azCount);
    PrivatesStage(zones, base.prefix + zoneBits);
    PublicsStage(zones, base.prefix + zoneBits);
    assert FormatAll(PrivatesOf(zones, base.prefix + zoneBits)) ==
      FormatAll(PrivateBlocks(base, azCount, zoneBits, bits));
    assert FormatAll(PublicsOf(zones, base.prefix + zoneBits, bits)) ==
      FormatAll(PublicBlocks(base, azCount, zoneBits, bits));
  }

  /** A /32 base: construction and the plan both raise IndexError. */
  lemma {:induction false} MatchesOnFullBase(baseCidr: string, azCount: nat)
    requires azCount > 0 && FullBase(baseCidr)
    ensures Construct(baseCidr, azCount) == Plan(Python, baseCidr, azCount)
  {
    ZoneBitsLeast(azCount, 0);
    assert Log2(PyNextPowerOf2(azCount)) == CeilLog2(azCount);
    FullAligned(Parse(baseCidr).value);
    PlanCases(Python, baseCidr, azCount);
    DistributeOnFullBase(baseCidr, CeilLog2(azCount), azCount);
  }

  /** The zone calls all fail alike: construction and the plan fail with the same error. */
  lemma {:induction false} MatchesWhenZonesFail(baseCidr: string, azCount: nat)
    requires azCount > 0 && !FullBase(baseCidr) && ZoneError(Python, baseCidr, CeilLog2(azCount)).Some?
    ensures Construct(baseCidr, azCount) == Plan(Python, baseCidr, azCount)
  {
    ZoneBitsLeast(azCount, 0);
    assert Log2(PyNextPowerOf2(azCount)) == CeilLog2(azCount);
    DistributeZonesFail(baseCidr, CeilLog2(azCount), azCount);
    PlanZonesFail(Python, baseCidr, azCount);
  }

  /** /32 zones: construction and the plan both raise IndexError. */
  lemma {:induction false} MatchesWhenZonesFull(baseCidr: string, azCount: nat)
    requires azCount > 0 && ZoneError(Python, baseCidr, CeilLog2(azCount)).None?
    requires Parse(baseCidr).value.prefix + CeilLog2(azCount) == 32
    ensures Construct(baseCidr, azCount) == Plan(Python, baseCidr, azCount)
  {
    ZoneBitsLeast(azCount, 0);
    assert Log2(PyNextPowerOf2(azCount)) == CeilLog2(azCount);
    PlanCases(Python, baseCidr, azCount);
    DistributeFullZones(baseCidr, CeilLog2(azCount), azCount);
  }

  /** Zones of at most /31: construction and the plan give the same lists. */
  lemma {:induction false} MatchesWhenZonesSplit(baseCidr: string, azCount: nat)
    requires azCount > 0 && ZoneError(Python, baseCidr, CeilLog2(azCount)).None?
    requires Parse(baseCidr).value.prefix + CeilLog2(azCount) < 32
    ensures Construct(baseCidr, azCount) == Plan(Python, baseCidr, azCount)
  {
    ZoneBitsLeast(azCount, 0);
    assert Log2(PyNextPowerOf2(azCount)) == CeilLog2(azCount);
    PlanCases(Python, baseCidr, azCount);
    DistributeSucceeds(baseCidr, CeilLog2(azCount), azCount);
  }

  /**
   * `SubnetDistributor(base_cidr, az_count)` raises exactly the reference
   * plan's error or holds exactly its lists, for every base text and count.
   * With az_count = 0 the bit count is 1 rather than 0, which no call ever sees.
   */
  lemma {:induction false} ConstructMatchesPlan(baseCidr: string, azCount: nat)
    ensures Construct(baseCidr, azCount) == Plan(Python, baseCidr, azCount)
  {
    if azCount == 0 {
      assert Construct(baseCidr, azCount) == Ok(Allocation([], []));
    } else if FullBase(baseCidr) {
      MatchesOnFullBase(baseCidr, azCount);
    } else if ZoneError(Python, baseCidr, CeilLog2(azCount)).Some? {
      MatchesWhenZonesFail(baseCidr, azCount);
    } else if Parse(baseCidr).value.prefix + CeilLog2(azCount) == 32 {
      MatchesWhenZonesFull(baseCidr, azCount);
    } else {
      MatchesWhenZonesSplit(baseCidr, azCount);
    }
  }
}
