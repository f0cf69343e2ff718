/**
 * The TypeScript distributor (src/subnetDistributor.ts and its compiled
 * twin dist/subnetDistributor.js): the lists are computed once by the
 * private constructor, kept in read-only fields, and handed out as copies.
 */
module TypeScriptDistributor {
  import opened Wrappers
  import opened PowerOfTwo
  import opened Cidr
  import opened Partition
  import opened Sequences
  import opened Distribution
  import Pipeline

  class SubnetDistributor {
    const privates: array<string>
    const publics: array<string>

    /** The two stored lists are separate arrays of the same length. */
    ghost predicate Valid()
      reads this, privates, publics
    {
      privates != publics && privates.Length == publics.Length
    }

    /** Stores the lists the constructor computed. */
    constructor (allocation: Allocation)
      requires |allocation.privateSubnets| == |allocation.publicSubnets|
      ensures Valid() && fresh(privates) && fresh(publics)
      ensures privates[..] == allocation.privateSubnets && publics[..] == allocation.publicSubnets
    {
      var p := ToArray(allocation.privateSubnets);
      var q := ToArray(allocation.publicSubnets);
      privates := p;
      publics := q;
    }

    /**
     * `fixedCount(baseCidr, azCount)`, which is the private constructor: the
     * zone bit count from `nextPow2`, then the subnetV4 pipeline. A thrown
     * error is `Err`; otherwise the new distributor holds the reference
     * plan's lists.
     */
    static method FixedCount(baseCidr: string, azCount: nat) returns (r: Result<SubnetDistributor, CidrError>)
      requires azCount <= 0x8000_0000 && (azCount == 0 || BaseFits(baseCidr))
      ensures r.Ok? <==> Plan(TypeScript, baseCidr, azCount).Ok?
      ensures r.Err? ==> r.error == Plan(TypeScript, baseCidr, azCount).error
      ensures r.Ok? ==>
        && r.value.Valid() && fresh(r.value) && fresh(r.value.privates) && fresh(r.value.publics)
        && r.value.privates[..] == Plan(TypeScript, baseCidr, azCount).value.privateSubnets
        && r.value.publics[..] == Plan(TypeScript, baseCidr, azCount).value.publicSubnets
    {
      var n := NextPow2(azCount);
      var newBitsPerAz := Log2(n);
      Pipeline.DistributeMatchesPlan(TypeScript, baseCidr, azCount);
      match Pipeline.Distribute(TypeScript, baseCidr, newBitsPerAz, azCount)
      case Err(e) =>
        r := Err(e);
      case Ok(allocation) =>
        var d := new SubnetDistributor(allocation);
        r := Ok(d);
    }

    /** `privateSubnets()`: a fresh copy of the stored list (`slice`). */
    method PrivateSubnets() returns (copy: array<string>)
      ensures fresh(copy) && copy[..] == privates[..]
    {
      copy := ToArray(privates[..]);
    }

    /** `publicSubnets()`: a fresh copy of the stored list (`slice`). */
    method PublicSubnets() returns (copy: array<string>)
      ensures fresh(copy) && copy[..] == publics[..]
    {
      copy := ToArray(publics[..]);
    }
  }

  /**
   * A caller that overwrites the first entry of the list it was handed:
   * the distributor's own lists are untouched, and asking again returns
   * the original entries.
   */
  method OverwriteCopy(d: SubnetDistributor, text: string) returns (again: array<string>)
    requires d.Valid() && d.privates.Length > 0
    ensures d.privates[..] == old(d.privates[..]) && d.publics[..] == old(d.publics[..])
    ensures again[..] == old(d.privates[..])
  {
    var copy := d.PrivateSubnets();
    copy[0] := text;
    again := d.PrivateSubnets();
  }
}
