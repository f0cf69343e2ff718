/**
 * The Node.js distributor (nodejs/dist/subnetDistributor.js): the zone
 * bases are pushed one by one in a loop, the private and public lists are
 * mapped from them, and the getters hand out the stored arrays themselves.
 */
module NodeDistributor {
  import opened Wrappers
  import opened PowerOfTwo
  import opened Cidr
  import opened Partition
  import opened Sequences
  import opened Distribution
  import opened Pipeline

  /** The zone arrow at zone number i is the loop body's call. */
  lemma {:induction false} ZoneStepCall(baseCidr: string, zoneBits: nat, i: nat)
    requires TextFits(baseCidr, zoneBits, i)
    ensures ZoneStep(NodeJs, baseCidr, zoneBits).requires(i)
    ensures ZoneStep(NodeJs, baseCidr, zoneBits)(i) == CidrSubnetV4(baseCidr, zoneBits, i)
  {
  }

  /**
   * The constructor's loop: `azBases.push(cidrSubnetV4(baseCidr, newBitsPerAZ, i))`
   * for i from 0 while i < azCount. It ends with the zone bases in index order,
   * or with the error of the first zone call that throws.
   */
  method ZoneBases(baseCidr: string, zoneBits: nat, azCount: nat) returns (r: Result<seq<string>, CidrError>)
    requires forall k :: 0 <= k < azCount ==> TextFits(baseCidr, zoneBits, k)
    ensures r == MapResult(ZoneStep(NodeJs, baseCidr, zoneBits), Range(azCount))
  {
    var azBases: seq<string> := [];
    var i := 0;
    while i < azCount
      invariant 0 <= i <= azCount
      invariant MapResult(ZoneStep(NodeJs, baseCidr, zoneBits), Range(i)) == Ok(azBases)
    {
      MapResultRangeSnoc(ZoneStep(NodeJs, baseCidr, zoneBits), i);
      ZoneStepCall(baseCidr, zoneBits, i);
      var zone := CidrSubnetV4(baseCidr, zoneBits, i);
      match zone
      case Err(e) =>
        MapResultRangeStop(ZoneStep(NodeJs, baseCidr, zoneBits), i + 1, azCount);
        return Err(e);
      case Ok(block) =>
        azBases := azBases + [block];
      i := i + 1;
    }
    r := Ok(azBases);
  }

  /** After the zone loop, the rest of the constructor reaches the reference plan's outcome. */
  lemma {:induction false} ZoneLoopOutcome(baseCidr: string, azCount: nat, zones: Result<seq<string>, CidrError>)
    requires azCount == 0 || BaseFits(baseCidr)
    requires forall k :: 0 <= k < azCount ==> TextFits(baseCidr, ZoneBits(azCount), k)
    requires zones == MapResult(ZoneStep(NodeJs, baseCidr, ZoneBits(azCount)), Range(azCount))
    ensures azCount <= Pow2(ZoneBits(azCount))
    ensures zones.Err? ==> Plan(NodeJs, baseCidr, azCount) == Err(zones.error)
    ensures zones.Ok? ==> Shares(NodeJs, baseCidr, ZoneBits(azCount), azCount, zones.value) == Plan(NodeJs, baseCidr, azCount)
  {
    DistributeMatchesPlan(NodeJs, baseCidr, azCount);
  }

  class SubnetDistributor {
    const privates: array<string>
    const publics: array<string>

    /** The two stored lists are separate arrays of the same length. */
    ghost predicate Valid()
      reads this, privates, publics
    {
      privates != publics && privates.Length == publics.Length
    }

    /** Stores the mapped lists. */
    constructor (allocation: Allocation)
      requires |allocation.privateSubnets| == |allocation.publicSubnets|
      ensures Valid() && fresh(privates) && fresh(publics)
      ensures privates[..] == allocation.privateSubnets && publics[..] == allocation.publicSubnets
    {
      var p := ToArray(allocation.privateSubnets);
      var q := ToArray(allocation.publicSubnets);
      privates := p;
      publics := q;
    }

    /**
     * `new SubnetDistributor(baseCidr, azCount)`: the zone bit count from
     * `nextPow2`, the zone loop, then the private and public maps. A thrown error is `Err`;
     * otherwise the new distributor holds the reference plan's lists.
     */
    static method Construct(baseCidr: string, azCount: nat) returns (r: Result<SubnetDistributor, CidrError>)
      requires azCount <= 0x8000_0000 && (azCount == 0 || BaseFits(baseCidr))
      ensures r.Ok? <==> Plan(NodeJs, baseCidr, azCount).Ok?
      ensures r.Err? ==> r.error == Plan(NodeJs, baseCidr, azCount).error
      ensures r.Ok? ==>
        && r.value.Valid() && fresh(r.value) && fresh(r.value.privates) && fresh(r.value.publics)
        && r.value.privates[..] == Plan(NodeJs, baseCidr, azCount).value.privateSubnets
        && r.value.publics[..] == Plan(NodeJs, baseCidr, azCount).value.publicSubnets
    {
      var n := NextPow2(azCount);
      var newBitsPerAz := Log2(n);
      ZoneBitsLeast(azCount, 0);
      forall k | 0 <= k < azCount
        ensures TextFits(baseCidr, newBitsPerAz, k)
      {
        ZoneTextFits(baseCidr, newBitsPerAz, k);
      }
      var zones := ZoneBases(baseCidr, newBitsPerAz, azCount);
      ZoneLoopOutcome(baseCidr, azCount, zones);
      match zones
      case Err(e) =>
        return Err(e);
      case Ok(azBases) =>
        match Shares(NodeJs, baseCidr, newBitsPerAz, azCount, azBases)
        case Err(e) =>
          return Err(e);
        case Ok(allocation) =>
          var d := new SubnetDistributor(allocation);
          return Ok(d);
    }

    /** `privateSubnets()`: the stored array itself, not a copy. */
    method PrivateSubnets() returns (subnets: array<string>)
      ensures subnets == privates
    {
      subnets := privates;
    }

    /** `publicSubnets()`: the stored array itself, not a copy. */
    method PublicSubnets() returns (subnets: array<string>)
      ensures subnets == publics
    {
      subnets := publics;
    }
  }

  /**
   * A caller that overwrites the first entry of the list it was handed
   * changes the distributor's own private list, and only that entry.
   */
  method OverwriteReturned(d: SubnetDistributor, text: string)
    requires d.Valid() && d.privates.Length > 0
    modifies d.privates
    ensures d.privates[0] == text && d.privates[1..] == old(d.privates[1..])
    ensures d.publics[..] == old(d.publics[..])
  {
    var subnets := d.PrivateSubnets();
    subnets[0] := text;
  }
}
