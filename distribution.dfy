/**
 * What a SubnetDistributor holds once constructed. `Plan` is the reference:
 * it says, from the parsed base block alone, which error the construction
 * raises or which blocks it hands out (the block plan of module Partition,
 * rendered).
 */
module Distribution {
  import opened Wrappers
  import opened PowerOfTwo
  import opened Ipv4
  import opened Cidr
  import opened Partition
  import opened Sequences

  /**
   * The observable differences between the three distributors: whether text
   * without a '/' is refused, whether a base with host bits set is refused,
   * how many bits the public share takes from the upper half of a zone, and
   * whether a /32 is its own only sub-block (Python's `subnets(k)` of a /32
   * lists that /32 alone, for every k).
   */
  datatype Variant = Variant(maskRequired: bool, hostBitsChecked: bool, publicBits: nat, keepsFullBlock: bool)

  /** src/subnetDistributor.ts and its compiled dist/subnetDistributor.js. */
  const TypeScript := Variant(true, false, 2, false)
  /** nodejs/dist/subnetDistributor.js. */
  const NodeJs := Variant(false, false, 1, false)
  /** python/jen20_pulumi_aws_vpc/subnet_distributor.py. */
  const Python := Variant(false, true, 1, true)

  /** The two index-aligned lists a distributor holds. */
  datatype Allocation = Allocation(privateSubnets: seq<string>, publicSubnets: seq<string>)

  /** The base does not run past 255.255.255.255 (or does not parse at all). */
  predicate BaseFits(baseCidr: string)
  {
    match Parse(baseCidr)
    case None => true
    case Some(b) => NoWrap(b)
  }

  /**
   * The bits the public share's second call takes from a zone's upper half.
   * Where a /32 is its own only sub-block, the /32 upper half of a /31 zone
   * comes back whole.
   */
  function PublicShareBits(v: Variant, zonePrefix: nat): (bits: nat)
    ensures bits <= v.publicBits
    ensures bits < v.publicBits <==> v.keepsFullBlock && zonePrefix + 1 == 32 && v.publicBits > 0
  {
    if v.keepsFullBlock && zonePrefix + 1 == 32 then 0 else v.publicBits
  }

  /** Renders blocks as `a.b.c.d/len`, in order. */
  function FormatAll(blocks: seq<AddressBlock>): (texts: seq<string>)
    ensures |texts| == |blocks|
    ensures forall i :: 0 <= i < |blocks| ==> texts[i] == Format(blocks[i])
  {
    seq(|blocks|, i requires 0 <= i < |blocks| => Format(blocks[i]))
  }

  /**
   * The reference outcome of constructing a distributor: no zones means two
   * empty lists and an unread base; otherwise the first failing check in the
   * order the implementations reach it, or the rendered block plan.
   */
  function Plan(v: Variant, baseCidr: string, azCount: nat): (r: Result<Allocation, CidrError>)
    requires azCount == 0 || v.hostBitsChecked || BaseFits(baseCidr)
    ensures r.Ok? ==> |r.value.privateSubnets| == azCount && |r.value.publicSubnets| == azCount
  {
    if azCount == 0 then Ok(Allocation([], []))
    else if v.maskRequired && '/' !in baseCidr then Err(MaskRequired)
    else
      match Parse(baseCidr)
      case None => Err(InvalidRange(baseCidr))
      case Some(base) =>
        var zoneBits := CeilLog2(azCount);
        var zonePrefix := base.prefix + zoneBits;
        if v.hostBitsChecked && !Aligned(base) then Err(HostBitsSet)
        // A /32 base that is its own only sub-block: a second zone is past the
        // end of the list, and a single /32 zone has no upper half.
        else if v.keepsFullBlock && base.prefix == 32 then Err(IndexOutOfRange)
        else if zonePrefix > 32 then Err(NotEnoughBits(zoneBits, 32 - base.prefix))
        // /32 zones: halving either fails, or returns the zone and leaves no upper half.
        else if zonePrefix == 32 then
          if v.keepsFullBlock then Err(IndexOutOfRange) else Err(NotEnoughBits(1, 0))
        else
          var publicBits := PublicShareBits(v, zonePrefix);
          if zonePrefix + 1 + publicBits > 32 then
            Err(NotEnoughBits(publicBits, 32 - (zonePrefix + 1)))
          else
            AlignedNoWrap(base);
            CeilLog2IsLeast(azCount, 0);
            Ok(Allocation(FormatAll(PrivateBlocks(base, azCount, zoneBits, publicBits)),
                          FormatAll(PublicBlocks(base, azCount, zoneBits, publicBits))))
  }

  /**
   * Where a successful plan puts zone i's subnets: the private one at the
   * zone's start with the zone's prefix plus one, the public one right after
   * it (at the zone's midpoint) with the zone's prefix plus 1 + publicBits,
   * or plus 1 alone when the upper half of a /31 zone comes back whole.
   */
  lemma {:induction false} PlanLayout(v: Variant, baseCidr: string, azCount: nat, i: nat)
    requires azCount == 0 || v.hostBitsChecked || BaseFits(baseCidr)
    requires Plan(v, baseCidr, azCount).Ok? && i < azCount
    ensures Parse(baseCidr).Some?
    ensures var a := Plan(v, baseCidr, azCount).value;
      Parse(a.privateSubnets[i]).Some? && Parse(a.publicSubnets[i]).Some?
    ensures var base := Parse(baseCidr).value;
      var zonePrefix := base.prefix + CeilLog2(azCount);
      var zoneStart := base.address + i * Size(zonePrefix);
      var a := Plan(v, baseCidr, azCount).value;
      var publicBits := PublicShareBits(v, zonePrefix);
      && zonePrefix + 1 + publicBits <= 32
      && Parse(a.privateSubnets[i]).value.address == zoneStart
      && Parse(a.privateSubnets[i]).value.prefix == zonePrefix + 1
      && Parse(a.publicSubnets[i]).value.address == zoneStart + Size(zonePrefix + 1)
      && Parse(a.publicSubnets[i]).value.prefix == zonePrefix + 1 + publicBits
  {
    var base := Parse(baseCidr).value;
    var zoneBits := CeilLog2(azCount);
    var publicBits := PublicShareBits(v, base.prefix + zoneBits);
    PlanCases(v, baseCidr, azCount);
    var zone := Zone(base, zoneBits, i);
    var privates := PrivateBlocks(base, azCount, zoneBits, publicBits);
    var publics := PublicBlocks(base, azCount, zoneBits, publicBits);
    assert privates[i] == PrivateBlock(zone);
    assert publics[i] == PublicBlock(zone, publicBits);
    ParseFormat(privates[i]);
    ParseFormat(publics[i]);
  }

  /**
   * A successful plan is a partition of part of the base: every subnet
   * parses, lies inside the base block, and no two subnets share an address.
   */
  lemma {:induction false} PlanSound(v: Variant, baseCidr: string, azCount: nat)
    requires azCount == 0 || v.hostBitsChecked || BaseFits(baseCidr)
    requires Plan(v, baseCidr, azCount).Ok? && azCount > 0
    ensures Parse(baseCidr).Some?
    ensures var a := Plan(v, baseCidr, azCount).value;
      forall i :: 0 <= i < azCount ==>
        && Parse(a.privateSubnets[i]).Some? && Parse(a.publicSubnets[i]).Some?
        && Contains(Parse(baseCidr).value, Parse(a.privateSubnets[i]).value)
        && Contains(Parse(baseCidr).value, Parse(a.publicSubnets[i]).value)
    ensures var a := Plan(v, baseCidr, azCount).value;
      forall i, j :: 0 <= i < azCount && 0 <= j < azCount ==>
        && Parse(a.privateSubnets[i]).Some? && Parse(a.publicSubnets[j]).Some?
        && Disjoint(Parse(a.privateSubnets[i]).value, Parse(a.publicSubnets[j]).value)
        && (i != j ==> Disjoint(Parse(a.privateSubnets[i]).value, Parse(a.privateSubnets[j]).value))
        && (i != j ==> Disjoint(Parse(a.publicSubnets[i]).value, Parse(a.publicSubnets[j]).value))
  {
    var base := Parse(baseCidr).value;
    var zoneBits := CeilLog2(azCount);
    var publicBits := PublicShareBits(v, base.prefix + zoneBits);
    AlignedNoWrap(base);
    CeilLog2IsLeast(azCount, 0);
    var privates := PrivateBlocks(base, azCount, zoneBits, publicBits);
    var publics := PublicBlocks(base, azCount, zoneBits, publicBits);
    var a := Plan(v, baseCidr, azCount).value;
    forall i | 0 <= i < azCount
      ensures Parse(a.privateSubnets[i]) == Some(privates[i])
      ensures Parse(a.publicSubnets[i]) == Some(publics[i])
    {
      ParseFormat(privates[i]);
      ParseFormat(publics[i]);
    }
    PlanNested(base, azCount, zoneBits, publicBits);
    PlanDisjoint(base, azCount, zoneBits, publicBits);
  }

  /** The error every zone call raises, if any: they differ only in the zone number. */
  function ZoneError(v: Variant, baseCidr: string, zoneBits: nat): (r: Option<CidrError>)
    ensures r.None? ==> !(v.maskRequired && '/' !in baseCidr)
    ensures r.None? ==> Parse(baseCidr).Some? && Parse(baseCidr).value.prefix + zoneBits <= 32
    ensures r.None? && v.hostBitsChecked ==> Aligned(Parse(baseCidr).value) && NoWrap(Parse(baseCidr).value)
  {
    if v.maskRequired && '/' !in baseCidr then Some(MaskRequired)
    else
      match Parse(baseCidr)
      case None => Some(InvalidRange(baseCidr))
      case Some(b) =>
        if v.hostBitsChecked && !Aligned(b) then Some(HostBitsSet)
        else if b.prefix + zoneBits > 32 then Some(NotEnoughBits(zoneBits, 32 - b.prefix))
        else
          AlignedNoWrap(b);
          None
  }

  /** Plan once the base has parsed (and, where checked, has no host bits set). */
  lemma {:induction false} PlanCases(v: Variant, baseCidr: string, azCount: nat)
    requires azCount > 0 && (v.hostBitsChecked || BaseFits(baseCidr))
    requires !(v.maskRequired && '/' !in baseCidr) && Parse(baseCidr).Some?
    requires v.hostBitsChecked ==> Aligned(Parse(baseCidr).value)
    ensures var base := Parse(baseCidr).value;
      var zoneBits := CeilLog2(azCount);
      var zonePrefix := base.prefix + zoneBits;
      var publicBits := PublicShareBits(v, zonePrefix);
      && (v.keepsFullBlock && base.prefix == 32 ==> Plan(v, baseCidr, azCount) == Err(IndexOutOfRange))
      && (!(v.keepsFullBlock && base.prefix == 32) && zonePrefix > 32 ==>
            Plan(v, baseCidr, azCount) == Err(NotEnoughBits(zoneBits, 32 - base.prefix)))
      && (zonePrefix == 32 ==>
            Plan(v, baseCidr, azCount) == if v.keepsFullBlock then Err(IndexOutOfRange) else Err(NotEnoughBits(1, 0)))
      && (zonePrefix < 32 && zonePrefix + 1 + publicBits > 32 ==>
            Plan(v, baseCidr, azCount) == Err(NotEnoughBits(publicBits, 32 - (zonePrefix + 1))))
      && (zonePrefix + 1 + publicBits <= 32 ==>
            && PlanFits(base, azCount, zoneBits, publicBits)
            && Plan(v, baseCidr, azCount) ==
                 Ok(Allocation(FormatAll(PrivateBlocks(base, azCount, zoneBits, publicBits)),
                               FormatAll(PublicBlocks(base, azCount, zoneBits, publicBits)))))
  {
    AlignedNoWrap(Parse(baseCidr).value);
    CeilLog2IsLeast(azCount, 0);
  }

  /**
   * When the zone calls all fail alike, the plan fails with the same error.
   * (A /32 base that is its own only sub-block is the case where they do not:
   * zone 0 is the base itself.)
   */
  lemma {:induction false} PlanZonesFail(v: Variant, baseCidr: string, azCount: nat)
    requires azCount > 0 && (v.hostBitsChecked || BaseFits(baseCidr))
    requires ZoneError(v, baseCidr, CeilLog2(azCount)).Some?
    requires !(v.keepsFullBlock && Parse(baseCidr).Some? && Parse(baseCidr).value.prefix == 32)
    ensures Plan(v, baseCidr, azCount) == Err(ZoneError(v, baseCidr, CeilLog2(azCount)).value)
  {
  }

  /** With room for the zones and their halves but not the public share, the plan fails. */
  lemma {:induction false} PlanPublicsFail(v: Variant, baseCidr: string, azCount: nat)
    requires azCount > 0 && (v.hostBitsChecked || BaseFits(baseCidr))
    requires ZoneError(v, baseCidr, CeilLog2(azCount)).None?
    requires Parse(baseCidr).value.prefix + CeilLog2(azCount) + 1 < 32 || !v.keepsFullBlock
    requires Parse(baseCidr).value.prefix + CeilLog2(azCount) + 1 <= 32
    requires Parse(baseCidr).value.prefix + CeilLog2(azCount) + 1 + v.publicBits > 32
    ensures Plan(v, baseCidr, azCount) ==
      Err(NotEnoughBits(v.publicBits, 32 - (Parse(baseCidr).value.prefix + CeilLog2(azCount) + 1)))
  {
    PlanCases(v, baseCidr, azCount);
  }
}
