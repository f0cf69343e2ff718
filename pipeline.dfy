/**
 * The text pipeline the JavaScript constructors run: zone blocks by
 * `subnetV4` (src, dist) or `cidrSubnetV4` (nodejs/dist), then the private
 * subnet of every zone, then the public subnet of every private one. A
 * failing call throws, so the first error in evaluation order is the result.
 * `DistributeMatchesPlan` proves that the pipeline produces the reference plan.
 */
module Pipeline {
  import opened Wrappers
  import opened PowerOfTwo
  import opened Ipv4
  import opened Cidr
  import opened Partition
  import opened Sequences
  import opened Distribution

  /** One call of the variant's sub-block function: `subnetV4` or `cidrSubnetV4`. */
  function Sub(v: Variant, text: string, newBits: nat, netNum: nat): Result<string, CidrError>
    requires TextFits(text, newBits, netNum)
  {
    if v.maskRequired then SubnetV4(text, newBits, netNum) else CidrSubnetV4(text, newBits, netNum)
  }

  /** Every zone number below 2^zoneBits stays in the address space. */
  lemma {:induction false} ZoneTextFits(baseCidr: string, zoneBits: nat, i: nat)
    requires BaseFits(baseCidr) && i < Pow2(zoneBits)
    ensures TextFits(baseCidr, zoneBits, i)
  {
    match Parse(baseCidr)
    case None =>
    case Some(b) =>
      if b.prefix + zoneBits <= 32 {
        ChildInside(b, zoneBits, i);
      }
  }

  /** The zone arrow `(_, index) => subnetV4(baseCidr, newBitsPerAZ, index)`. */
  function ZoneStep(v: Variant, baseCidr: string, zoneBits: nat): nat --> Result<string, CidrError>
  {
    (i: nat) requires TextFits(baseCidr, zoneBits, i) => Sub(v, baseCidr, zoneBits, i)
  }

  /** The private-subnet arrow `block => subnetV4(block, 1, 0)`. */
  function PrivateStep(v: Variant): string --> Result<string, CidrError>
  {
    block requires TextFits(block, 1, 0) => Sub(v, block, 1, 0)
  }

  /** The public-subnet arrow: the block after `block`, then its first 1/2^publicBits. */
  function PublicStep(v: Variant): string --> Result<string, CidrError>
  {
    block requires TextFits(block, 0, 1) =>
      match Sub(v, block, 0, 1)
      case Err(e) => Err(e)
      case Ok(splitBase) => Sub(v, splitBase, v.publicBits, 0)
  }

  /** The zone calls stay in the address space for every zone number the constructor uses. */
  lemma {:induction false} ZonesTextFit(v: Variant, baseCidr: string, zoneBits: nat, n: nat)
    requires (n == 0 || BaseFits(baseCidr)) && n <= Pow2(zoneBits)
    ensures forall i :: 0 <= i < |Range(n)| ==> ZoneStep(v, baseCidr, zoneBits).requires(Range(n)[i])
  {
    forall i | 0 <= i < n
      ensures TextFits(baseCidr, zoneBits, i)
    {
      ZoneTextFits(baseCidr, zoneBits, i);
    }
  }

  /** One zone call: the shared error, or zone number i rendered. */
  lemma {:induction false} ZoneStepOf(v: Variant, baseCidr: string, zoneBits: nat, i: nat)
    requires !v.hostBitsChecked && BaseFits(baseCidr) && i < Pow2(zoneBits)
    ensures ZoneStep(v, baseCidr, zoneBits).requires(i)
    ensures ZoneStep(v, baseCidr, zoneBits)(i) ==
      match ZoneError(v, baseCidr, zoneBits)
      case Some(e) => Err(e)
      case None => Ok(Format(Zone(Parse(baseCidr).value, zoneBits, i)))
  {
    ZoneTextFits(baseCidr, zoneBits, i);
  }

  /** The zone stage fails as every zone call does, or renders the zones. */
  lemma {:induction false} ZoneBasesStage(v: Variant, baseCidr: string, zoneBits: nat, n: nat)
    requires !v.hostBitsChecked && BaseFits(baseCidr) && 0 < n <= Pow2(zoneBits)
    ensures forall i :: 0 <= i < |Range(n)| ==> ZoneStep(v, baseCidr, zoneBits).requires(Range(n)[i])
    ensures MapResult(ZoneStep(v, baseCidr, zoneBits), Range(n)) ==
      match ZoneError(v, baseCidr, zoneBits)
      case Some(e) => Err(e)
      case None => Ok(FormatAll(Zones(Parse(baseCidr).value, n, zoneBits)))
  {
    var xs := Range(n);
    forall i | 0 <= i < n
      ensures ZoneStep(v, baseCidr, zoneBits).requires(xs[i])
      ensures ZoneStep(v, baseCidr, zoneBits)(xs[i]) ==
        match ZoneError(v, baseCidr, zoneBits)
        case Some(e) => Err(e)
        case None => Ok(Format(Zone(Parse(baseCidr).value, zoneBits, xs[i])))
    {
      ZoneStepOf(v, baseCidr, zoneBits, xs[i]);
    }
    match ZoneError(v, baseCidr, zoneBits)
    case Some(e) =>
      MapResultUniformError(ZoneStep(v, baseCidr, zoneBits), xs, e);
    case None =>
      MapResultValues(ZoneStep(v, baseCidr, zoneBits), xs, FormatAll(Zones(Parse(baseCidr).value, n, zoneBits)));
  }

  /** Sub on text that parses: only the bit budget can fail. */
  lemma {:induction false} SubOfParsed(v: Variant, text: string, c: AddressBlock, newBits: nat, netNum: nat)
    requires '/' in text && Parse(text) == Some(c) && ChildFits(c, newBits, netNum)
    ensures TextFits(text, newBits, netNum)
    ensures Sub(v, text, newBits, netNum) ==
      if c.prefix + newBits > 32 then Err(NotEnoughBits(newBits, 32 - c.prefix))
      else Ok(Format(Child(c, newBits, netNum)))
  {
  }

  /** One private step on text that reads as a zone of the given prefix. */
  lemma {:induction false} PrivateStepOf(v: Variant, zone: AddressBlock, prefix: nat, text: string)
    requires NoWrap(zone) && zone.prefix == prefix && '/' in text && Parse(text) == Some(zone)
    ensures PrivateStep(v).requires(text)
    ensures PrivateStep(v)(text) ==
      if prefix + 1 > 32 then Err(NotEnoughBits(1, 32 - prefix)) else Ok(Format(PrivateBlock(zone)))
  {
    SubOfParsed(v, text, zone, 1, 0);
  }

  /** A public step is its second call on the text its first call returns. */
  lemma {:induction false} PublicStepThen(v: Variant, text: string, mid: string)
    requires TextFits(text, 0, 1) && Sub(v, text, 0, 1) == Ok(mid) && TextFits(mid, v.publicBits, 0)
    ensures PublicStep(v).requires(text)
    ensures PublicStep(v)(text) == Sub(v, mid, v.publicBits, 0)
  {
  }

  /**
   * The first call of a public step, on text that reads as the private
   * subnet of a zone, returns the zone's upper half.
   */
  lemma {:induction false} UpperHalfCall(v: Variant, zone: AddressBlock, text: string)
    returns (upper: AddressBlock, mid: string)
    requires NoWrap(zone) && zone.prefix < 32
    requires '/' in text && Parse(text) == Some(PrivateBlock(zone))
    ensures upper == Child(PrivateBlock(zone), 0, 1) && upper.prefix == zone.prefix + 1
    ensures upper.address == zone.address + Size(zone.prefix + 1)
    ensures ChildFits(upper, v.publicBits, 0)
    ensures '/' in mid && Parse(mid) == Some(upper)
    ensures TextFits(text, 0, 1) && Sub(v, text, 0, 1) == Ok(mid)
  {
    PublicFromPrivate(zone, 0);
    SubOfParsed(v, text, PrivateBlock(zone), 0, 1);
    upper := Child(PrivateBlock(zone), 0, 1);
    mid := Format(upper);
    ParseFormat(upper);
  }

  /**
   * The second call of a public step, on the zone's upper half: the public
   * share's bit budget fails, or it returns the zone's public subnet.
   */
  lemma {:induction false} PublicShareCall(v: Variant, zone: AddressBlock, prefix: nat, upper: AddressBlock, mid: string)
    requires NoWrap(zone) && zone.prefix == prefix && prefix < 32
    requires upper == Child(PrivateBlock(zone), 0, 1) && upper.prefix == prefix + 1
    requires ChildFits(upper, v.publicBits, 0) && '/' in mid && Parse(mid) == Some(upper)
    ensures TextFits(mid, v.publicBits, 0)
    ensures Sub(v, mid, v.publicBits, 0) ==
      if prefix + 1 + v.publicBits > 32 then Err(NotEnoughBits(v.publicBits, 32 - (prefix + 1)))
      else Ok(Format(PublicBlock(zone, v.publicBits)))
  {
    SubOfParsed(v, mid, upper, v.publicBits, 0);
    if prefix + 1 + v.publicBits <= 32 {
      PublicFromPrivate(zone, v.publicBits);
      assert Child(upper, v.publicBits, 0) == PublicBlock(zone, v.publicBits);
    }
  }

  /** The private stage over rendered zones of one prefix. */
  lemma {:induction false} PrivatesStage(v: Variant, zones: seq<AddressBlock>, prefix: nat)
    requires Uniform(zones, prefix) && prefix <= 32 && zones != []
    ensures forall i :: 0 <= i < |FormatAll(zones)| ==> PrivateStep(v).requires(FormatAll(zones)[i])
    ensures MapResult(PrivateStep(v), FormatAll(zones)) ==
      if prefix + 1 > 32 then Err(NotEnoughBits(1, 32 - prefix))
      else Ok(FormatAll(PrivatesOf(zones, prefix)))
  {
    var texts := FormatAll(zones);
    forall i | 0 <= i < |zones|
      ensures PrivateStep(v).requires(texts[i])
      ensures PrivateStep(v)(texts[i]) ==
        if prefix + 1 > 32 then Err(NotEnoughBits(1, 32 - prefix)) else Ok(Format(PrivateBlock(zones[i])))
    {
      ParseFormat(zones[i]);
      PrivateStepOf(v, zones[i], prefix, texts[i]);
    }
    if prefix + 1 > 32 {
      MapResultUniformError(PrivateStep(v), texts, NotEnoughBits(1, 32 - prefix));
    } else {
      MapResultValues(PrivateStep(v), texts, FormatAll(PrivatesOf(zones, prefix)));
    }
  }

  /** The public stage over the rendered private subnets of zones of one prefix. */
  lemma {:induction false} PublicsStage(v: Variant, zones: seq<AddressBlock>, prefix: nat)
    requires Uniform(zones, prefix) && prefix < 32 && zones != []
    ensures forall i :: 0 <= i < |FormatAll(PrivatesOf(zones, prefix))| ==>
      PublicStep(v).requires(FormatAll(PrivatesOf(zones, prefix))[i])
    ensures MapResult(PublicStep(v), FormatAll(PrivatesOf(zones, prefix))) ==
      if prefix + 1 + v.publicBits > 32 then Err(NotEnoughBits(v.publicBits, 32 - (prefix + 1)))
      else Ok(FormatAll(PublicsOf(zones, prefix, v.publicBits)))
  {
    var texts := FormatAll(PrivatesOf(zones, prefix));
    forall i | 0 <= i < |zones|
      ensures PublicStep(v).requires(texts[i])
      ensures PublicStep(v)(texts[i]) ==
        if prefix + 1 + v.publicBits > 32 then Err(NotEnoughBits(v.publicBits, 32 - (prefix + 1)))
        else Ok(Format(PublicBlock(zones[i], v.publicBits)))
    {
      ParseFormat(PrivateBlock(zones[i]));
      var upper, mid := UpperHalfCall(v, zones[i], texts[i]);
      PublicShareCall(v, zones[i], prefix, upper, mid);
      PublicStepThen(v, texts[i], mid);
    }
    if prefix + 1 + v.publicBits > 32 {
      MapResultUniformError(PublicStep(v), texts, NotEnoughBits(v.publicBits, 32 - (prefix + 1)));
    } else {
      MapResultValues(PublicStep(v), texts, FormatAll(PublicsOf(zones, prefix, v.publicBits)));
    }
  }

  /** Once the zone and private stages succeed, every public step stays in the address space. */
  lemma {:induction false} PublicsFit(v: Variant, baseCidr: string, zoneBits: nat, azCount: nat,
                   azBases: seq<string>, privates: seq<string>)
    requires !v.hostBitsChecked && (azCount == 0 || BaseFits(baseCidr)) && azCount <= Pow2(zoneBits)
    requires forall i :: 0 <= i < |Range(azCount)| ==> ZoneStep(v, baseCidr, zoneBits).requires(Range(azCount)[i])
    requires MapResult(ZoneStep(v, baseCidr, zoneBits), Range(azCount)) == Ok(azBases)
    requires forall i :: 0 <= i < |azBases| ==> PrivateStep(v).requires(azBases[i])
    requires MapResult(PrivateStep(v), azBases) == Ok(privates)
    ensures forall i :: 0 <= i < |privates| ==> PublicStep(v).requires(privates[i])
  {
    if azCount > 0 {
      ZoneBasesStage(v, baseCidr, zoneBits, azCount);
      var base := Parse(baseCidr).value;
      var zones := Zones(base, azCount, zoneBits);
      ZonesUniform(base, azCount, zoneBits);
      PrivatesStage(v, zones, base.prefix + zoneBits);
      PublicsStage(v, zones, base.prefix + zoneBits);
    }
  }

  /**
   * The constructor body after the zone bases: the private subnets, then
   * the public subnets, the first error aborting.
   */
  function Shares(v: Variant, baseCidr: string, zoneBits: nat, azCount: nat, azBases: seq<string>): Result<Allocation, CidrError>
    requires !v.hostBitsChecked && (azCount == 0 || BaseFits(baseCidr)) && azCount <= Pow2(zoneBits)
    requires forall i :: 0 <= i < |Range(azCount)| ==> ZoneStep(v, baseCidr, zoneBits).requires(Range(azCount)[i])
    requires MapResult(ZoneStep(v, baseCidr, zoneBits), Range(azCount)) == Ok(azBases)
  {
    match MapResult(PrivateStep(v), azBases)
    case Err(e) => Err(e)
    case Ok(privates) =>
      PublicsFit(v, baseCidr, zoneBits, azCount, azBases, privates);
      match MapResult(PublicStep(v), privates)
      case Err(e) => Err(e)
      case Ok(publics) => Ok(Allocation(privates, publics))
  }

  /**
   * The constructor body once `newBitsPerAZ` is known: the zone bases, then
   * the two shares of every zone, the first error aborting.
   */
  function Distribute(v: Variant, baseCidr: string, zoneBits: nat, azCount: nat): Result<Allocation, CidrError>
    requires !v.hostBitsChecked && (azCount == 0 || BaseFits(baseCidr)) && azCount <= Pow2(zoneBits)
  {
    ZonesTextFit(v, baseCidr, zoneBits, azCount);
    match MapResult(ZoneStep(v, baseCidr, zoneBits), Range(azCount))
    case Err(e) => Err(e)
    case Ok(azBases) => Shares(v, baseCidr, zoneBits, azCount, azBases)
  }

  /** When the zone calls fail, Distribute fails with their error. */
  lemma {:induction false} DistributeZonesFail(v: Variant, baseCidr: string, zoneBits: nat, azCount: nat)
    requires !v.hostBitsChecked && BaseFits(baseCidr) && 0 < azCount <= Pow2(zoneBits)
    requires ZoneError(v, baseCidr, zoneBits).Some?
    ensures Distribute(v, baseCidr, zoneBits, azCount) == Err(ZoneError(v, baseCidr, zoneBits).value)
  {
    ZoneBasesStage(v, baseCidr, zoneBits, azCount);
  }

  /** The zones rendered, the stages that follow run on blocks of the zone prefix. */
  lemma {:induction false} ZonesRendered(v: Variant, baseCidr: string, zoneBits: nat, azCount: nat)
    requires !v.hostBitsChecked && BaseFits(baseCidr) && 0 < azCount <= Pow2(zoneBits)
    requires ZoneError(v, baseCidr, zoneBits).None?
    ensures forall i :: 0 <= i < |Range(azCount)| ==> ZoneStep(v, baseCidr, zoneBits).requires(Range(azCount)[i])
    ensures MapResult(ZoneStep(v, baseCidr, zoneBits), Range(azCount)) ==
      Ok(FormatAll(Zones(Parse(baseCidr).value, azCount, zoneBits)))
    ensures Uniform(Zones(Parse(baseCidr).value, azCount, zoneBits), Parse(baseCidr).value.prefix + zoneBits)
  {
    ZoneBasesStage(v, baseCidr, zoneBits, azCount);
    ZonesUniform(Parse(baseCidr).value, azCount, zoneBits);
  }

  /** With no room to halve a zone, Distribute fails at the private stage. */
  lemma {:induction false} DistributePrivatesFail(v: Variant, baseCidr: string, zoneBits: nat, azCount: nat)
    requires !v.hostBitsChecked && BaseFits(baseCidr) && 0 < azCount <= Pow2(zoneBits)
    requires ZoneError(v, baseCidr, zoneBits).None?
    requires Parse(baseCidr).value.prefix + zoneBits + 1 > 32
    ensures Distribute(v, baseCidr, zoneBits, azCount) ==
      Err(NotEnoughBits(1, 32 - (Parse(baseCidr).value.prefix + zoneBits)))
  {
    ZonesRendered(v, baseCidr, zoneBits, azCount);
    var base := Parse(baseCidr).value;
    var zones := Zones(base, azCount, zoneBits);
    PrivatesStage(v, zones, base.prefix + zoneBits);
    assert MapResult(PrivateStep(v), FormatAll(zones)) == Err(NotEnoughBits(1, 32 - (base.prefix + zoneBits)));
  }

  /**
   * With room for the zones and their halves but not the public share, the
   * zone and private stages succeed and the public stage fails. The lists
   * in between are returned without their contents, which the failure does
   * not depend on.
   */
  lemma {:induction false} StagesUntilPublicsFail(v: Variant, baseCidr: string, zoneBits: nat, azCount: nat)
    returns (azBases: seq<string>, privates: seq<string>)
    requires !v.hostBitsChecked && BaseFits(baseCidr) && 0 < azCount <= Pow2(zoneBits)
    requires ZoneError(v, baseCidr, zoneBits).None?
    requires Parse(baseCidr).value.prefix + zoneBits + 1 <= 32
    requires Parse(baseCidr).value.prefix + zoneBits + 1 + v.publicBits > 32
    ensures forall i :: 0 <= i < |Range(azCount)| ==> ZoneStep(v, baseCidr, zoneBits).requires(Range(azCount)[i])
    ensures MapResult(ZoneStep(v, baseCidr, zoneBits), Range(azCount)) == Ok(azBases)
    ensures forall i :: 0 <= i < |azBases| ==> PrivateStep(v).requires(azBases[i])
    ensures MapResult(PrivateStep(v), azBases) == Ok(privates)
    ensures forall i :: 0 <= i < |privates| ==> PublicStep(v).requires(privates[i])
    ensures MapResult(PublicStep(v), privates) ==
      Err(NotEnoughBits(v.publicBits, 32 - (Parse(baseCidr).value.prefix + zoneBits + 1)))
  {
    ZonesRendered(v, baseCidr, zoneBits, azCount);
    var base := Parse(baseCidr).value;
    var prefix := base.prefix + zoneBits;
    var zones := Zones(base, azCount, zoneBits);
    assert prefix < 32 && prefix + 1 + v.publicBits > 32;
    azBases := FormatAll(zones);
    privates := FormatAll(PrivatesOf(zones, prefix));
    PrivatesStage(v, zones, prefix);
    assert MapResult(PrivateStep(v), azBases) == Ok(privates);
    PublicsStage(v, zones, prefix);
    assert MapResult(PublicStep(v), privates) == Err(NotEnoughBits(v.publicBits, 32 - (prefix + 1)));
  }

  /** With no room for the public share, Distribute fails at the public stage. */
  lemma {:induction false} DistributePublicsFail(v: Variant, baseCidr: string, zoneBits: nat, azCount: nat)
    requires !v.hostBitsChecked && BaseFits(baseCidr) && 0 < azCount <= Pow2(zoneBits)
    requires ZoneError(v, baseCidr, zoneBits).None?
    requires Parse(baseCidr).value.prefix + zoneBits + 1 <= 32
    requires Parse(baseCidr).value.prefix + zoneBits + 1 + v.publicBits > 32
    ensures Distribute(v, baseCidr, zoneBits, azCount) ==
      Err(NotEnoughBits(v.publicBits, 32 - (Parse(baseCidr).value.prefix + zoneBits + 1)))
  {
    var azBases, privates := StagesUntilPublicsFail(v, baseCidr, zoneBits, azCount);
  }

  /** With room for both shares, Distribute renders the block plan. */
  lemma {:induction false} DistributeSucceeds(v: Variant, baseCidr: string, zoneBits: nat, azCount: nat)
    requires !v.hostBitsChecked && BaseFits(baseCidr) && 0 < azCount <= Pow2(zoneBits)
    requires ZoneError(v, baseCidr, zoneBits).None?
    requires Parse(baseCidr).value.prefix + zoneBits + 1 + v.publicBits <= 32
    ensures PlanFits(Parse(baseCidr).value, azCount, zoneBits, v.publicBits)
    ensures Distribute(v, baseCidr, zoneBits, azCount) ==
      var base := Parse(baseCidr).value;
      Ok(Allocation(FormatAll(PrivateBlocks(base, azCount, zoneBits, v.publicBits)),
                    FormatAll(PublicBlocks(base, azCount, zoneBits, v.publicBits))))
  {
    ZonesRendered(v, baseCidr, zoneBits, azCount);
    var base := Parse(baseCidr).value;
    var zones := Zones(base, azCount, zoneBits);
    PrivatesStage(v, zones, base.prefix + zoneBits);
    PublicsStage(v, zones, base.prefix + zoneBits);
    assert FormatAll(PrivatesOf(zones, base.prefix + zoneBits)) ==
      FormatAll(PrivateBlocks(base, azCount, zoneBits, v.publicBits));
    assert FormatAll(PublicsOf(zones, base.prefix + zoneBits, v.publicBits)) ==
      FormatAll(PublicBlocks(base, azCount, zoneBits, v.publicBits));
  }

  /** No room to halve the zones: Distribute and the plan fail alike. */
  lemma {:induction false} MatchesWhenPrivatesFail(v: Variant, baseCidr: string, azCount: nat)
    requires !v.hostBitsChecked && !v.keepsFullBlock && azCount > 0 && BaseFits(baseCidr)
    requires ZoneError(v, baseCidr, CeilLog2(azCount)).None?
    requires Parse(baseCidr).value.prefix + CeilLog2(azCount) + 1 > 32
    ensures azCount <= Pow2(CeilLog2(azCount))
    ensures Distribute(v, baseCidr, CeilLog2(azCount), azCount) == Plan(v, baseCidr, azCount)
  {
    var zoneBits := CeilLog2(azCount);
    CeilLog2IsLeast(azCount, 0);
    var zonePrefix := Parse(baseCidr).value.prefix + zoneBits;
    assert zonePrefix == 32;
    PlanCases(v, baseCidr, azCount);
    assert Plan(v, baseCidr, azCount) == Err(NotEnoughBits(1, 0));
    DistributePrivatesFail(v, baseCidr, zoneBits, azCount);
  }

  /** No room for the public share: Distribute and the plan fail alike. */
  lemma {:induction false} MatchesWhenPublicsFail(v: Variant, baseCidr: string, azCount: nat)
    requires !v.hostBitsChecked && !v.keepsFullBlock && azCount > 0 && BaseFits(baseCidr)
    requires ZoneError(v, baseCidr, CeilLog2(azCount)).None?
    requires Parse(baseCidr).value.prefix + CeilLog2(azCount) + 1 <= 32
    requires Parse(baseCidr).value.prefix + CeilLog2(azCount) + 1 + v.publicBits > 32
    ensures azCount <= Pow2(CeilLog2(azCount))
    ensures Distribute(v, baseCidr, CeilLog2(azCount), azCount) == Plan(v, baseCidr, azCount)
  {
    CeilLog2IsLeast(azCount, 0);
    PlanPublicsFail(v, baseCidr, azCount);
    DistributePublicsFail(v, baseCidr, CeilLog2(azCount), azCount);
  }

  /** Room for both shares: Distribute and the plan give the same lists. */
  lemma {:induction false} MatchesWhenBothFit(v: Variant, baseCidr: string, azCount: nat)
    requires !v.hostBitsChecked && !v.keepsFullBlock && azCount > 0 && BaseFits(baseCidr)
    requires ZoneError(v, baseCidr, CeilLog2(azCount)).None?
    requires Parse(baseCidr).value.prefix + CeilLog2(azCount) + 1 + v.publicBits <= 32
    ensures azCount <= Pow2(CeilLog2(azCount))
    ensures Distribute(v, baseCidr, CeilLog2(azCount), azCount) == Plan(v, baseCidr, azCount)
  {
    var zoneBits := CeilLog2(azCount);
    CeilLog2IsLeast(azCount, 0);
    PlanCases(v, baseCidr, azCount);
    DistributeSucceeds(v, baseCidr, zoneBits, azCount);
  }

  /**
   * The JavaScript constructors, run with newBitsPerAZ = log2(nextPow2(azCount)),
   * produce exactly the reference plan: the same error, or the same lists.
   */
  lemma {:induction false} DistributeMatchesPlan(v: Variant, baseCidr: string, azCount: nat)
    requires !v.hostBitsChecked && !v.keepsFullBlock && (azCount == 0 || BaseFits(baseCidr))
    ensures azCount <= Pow2(ZoneBits(azCount))
    ensures Distribute(v, baseCidr, ZoneBits(azCount), azCount) == Plan(v, baseCidr, azCount)
  {
    var zoneBits := ZoneBits(azCount);
    ZoneBitsLeast(azCount, 0);
    if azCount == 0 {
      assert Distribute(v, baseCidr, zoneBits, azCount) == Ok(Allocation([], []));
    } else if ZoneError(v, baseCidr, zoneBits).Some? {
      DistributeZonesFail(v, baseCidr, zoneBits, azCount);
      PlanZonesFail(v, baseCidr, azCount);
    } else if Parse(baseCidr).value.prefix + zoneBits + 1 > 32 {
      MatchesWhenPrivatesFail(v, baseCidr, azCount);
    } else if Parse(baseCidr).value.prefix + zoneBits + 1 + v.publicBits > 32 {
      MatchesWhenPublicsFail(v, baseCidr, azCount);
    } else {
      MatchesWhenBothFit(v, baseCidr, azCount);
    }
  }
}
