/**
 * The address plan every distributor computes, stated on blocks rather than
 * text: the base is cut into 2^zoneBits equal zones, one per availability
 * zone (the first azCount are used); each zone's lower half is its private
 * subnet, and the first 1/2^publicBits of its upper half is its public
 * subnet. publicBits is 2 in src/subnetDistributor.ts (an eighth of the
 * zone) and 1 in nodejs/dist and python (a quarter).
 */
module Partition {
  import opened Arithmetic
  import opened PowerOfTwo
  import opened Ipv4
  import opened Cidr

  /** `Math.log2(nextPow2(azCount))`: the bits needed to number azCount zones. */
  function ZoneBits(azCount: nat): nat
  {
    Log2(Pow2(CeilLog2(azCount)))
  }

  /** ZoneBits is the least number of bits that numbers azCount zones. */
  lemma ZoneBitsLeast(azCount: nat, k: nat)
    ensures ZoneBits(azCount) == CeilLog2(azCount)
    ensures azCount <= Pow2(ZoneBits(azCount))
    ensures azCount <= Pow2(k) ==> ZoneBits(azCount) <= k
  {
    Log2Pow2(CeilLog2(azCount));
    CeilLog2IsLeast(azCount, k);
  }

  /** What the plan needs of the base: it fits in the address space, and there are bits for everything. */
  predicate PlanFits(base: AddressBlock, azCount: nat, zoneBits: nat, publicBits: nat)
  {
    NoWrap(base) && azCount <= Pow2(zoneBits) && base.prefix + zoneBits + 1 + publicBits <= 32
  }

  /** Zone i: the i-th block of prefix base.prefix + zoneBits. */
  function Zone(base: AddressBlock, zoneBits: nat, i: nat): (z: AddressBlock)
    requires NoWrap(base) && base.prefix + zoneBits <= 32 && i < Pow2(zoneBits)
    ensures Contains(base, z) && NoWrap(z)
    ensures z.prefix == base.prefix + zoneBits
    ensures z.address == base.address + i * Size(z.prefix)
  {
    ChildInside(base, zoneBits, i);
    Child(base, zoneBits, i)
  }

  /** The private subnet of a zone: its lower half (`subnetV4(block, 1, 0)`). */
  function PrivateBlock(zone: AddressBlock): (p: AddressBlock)
    requires NoWrap(zone) && zone.prefix < 32
    ensures Contains(zone, p)
    ensures p.address == zone.address && 2 * Size(p.prefix) == Size(zone.prefix)
  {
    ChildInside(zone, 1, 0);
    SizeSplit(zone.prefix, 1);
    Child(zone, 1, 0)
  }

  /** The public subnet of a zone: the first 1/2^publicBits of its upper half. */
  function PublicBlock(zone: AddressBlock, publicBits: nat): (p: AddressBlock)
    requires NoWrap(zone) && zone.prefix + 1 + publicBits <= 32
    ensures Contains(zone, p)
    ensures p.address == zone.address + Size(zone.prefix + 1)
    ensures p.prefix == zone.prefix + 1 + publicBits
  {
    ChildInside(zone, 1, 1);
    var upper := Child(zone, 1, 1);
    Pow2Monotone(0, publicBits);
    ChildInside(upper, publicBits, 0);
    Child(upper, publicBits, 0)
  }

  /** The first azCount zones, in index order. */
  function Zones(base: AddressBlock, azCount: nat, zoneBits: nat): (zs: seq<AddressBlock>)
    requires NoWrap(base) && base.prefix + zoneBits <= 32 && azCount <= Pow2(zoneBits)
    ensures |zs| == azCount
    ensures forall i :: 0 <= i < azCount ==> zs[i] == Zone(base, zoneBits, i)
  {
    seq(azCount, i requires 0 <= i < azCount => Zone(base, zoneBits, i))
  }

  /** All blocks fit in the address space and have the same prefix. */
  ghost predicate Uniform(blocks: seq<AddressBlock>, prefix: nat)
  {
    forall i :: 0 <= i < |blocks| ==> NoWrap(blocks[i]) && blocks[i].prefix == prefix
  }

  /** The private subnet of each zone. */
  function PrivatesOf(zones: seq<AddressBlock>, prefix: nat): (ps: seq<AddressBlock>)
    requires Uniform(zones, prefix) && prefix < 32
    ensures |ps| == |zones|
    ensures forall i :: 0 <= i < |zones| ==> ps[i] == PrivateBlock(zones[i])
  {
    seq(|zones|, i requires 0 <= i < |zones| => PrivateBlock(zones[i]))
  }

  /** The public subnet of each zone. */
  function PublicsOf(zones: seq<AddressBlock>, prefix: nat, publicBits: nat): (ps: seq<AddressBlock>)
    requires Uniform(zones, prefix) && prefix + 1 + publicBits <= 32
    ensures |ps| == |zones|
    ensures forall i :: 0 <= i < |zones| ==> ps[i] == PublicBlock(zones[i], publicBits)
  {
    seq(|zones|, i requires 0 <= i < |zones| => PublicBlock(zones[i], publicBits))
  }

  lemma ZonesUniform(base: AddressBlock, azCount: nat, zoneBits: nat)
    requires NoWrap(base) && base.prefix + zoneBits <= 32 && azCount <= Pow2(zoneBits)
    ensures Uniform(Zones(base, azCount, zoneBits), base.prefix + zoneBits)
  {
  }

  /** The zones of an aligned base are aligned. */
  lemma {:induction false} ZonesAligned(base: AddressBlock, azCount: nat, zoneBits: nat)
    requires Aligned(base) && base.prefix + zoneBits <= 32 && azCount <= Pow2(zoneBits)
    ensures NoWrap(base)
    ensures forall i :: 0 <= i < azCount ==> Aligned(Zones(base, azCount, zoneBits)[i])
  {
    AlignedNoWrap(base);
    forall i | 0 <= i < azCount
      ensures Aligned(Zones(base, azCount, zoneBits)[i])
    {
      ChildNested(base, zoneBits, i);
    }
  }

  /** The private subnets, zone by zone. */
  function PrivateBlocks(base: AddressBlock, azCount: nat, zoneBits: nat, publicBits: nat): (ps: seq<AddressBlock>)
    requires PlanFits(base, azCount, zoneBits, publicBits)
    ensures |ps| == azCount
    ensures forall i :: 0 <= i < azCount ==> ps[i] == PrivateBlock(Zone(base, zoneBits, i))
  {
    ZonesUniform(base, azCount, zoneBits);
    PrivatesOf(Zones(base, azCount, zoneBits), base.prefix + zoneBits)
  }

  /** The public subnets, zone by zone. */
  function PublicBlocks(base: AddressBlock, azCount: nat, zoneBits: nat, publicBits: nat): (ps: seq<AddressBlock>)
    requires PlanFits(base, azCount, zoneBits, publicBits)
    ensures |ps| == azCount
    ensures forall i :: 0 <= i < azCount ==> ps[i] == PublicBlock(Zone(base, zoneBits, i), publicBits)
  {
    ZonesUniform(base, azCount, zoneBits);
    PublicsOf(Zones(base, azCount, zoneBits), base.prefix + zoneBits, publicBits)
  }

  /** The src/ path to the public block: split the private block's successor. */
  lemma PublicFromPrivate(zone: AddressBlock, publicBits: nat)
    requires NoWrap(zone) && zone.prefix + 1 + publicBits <= 32
    ensures ChildFits(PrivateBlock(zone), 0, 1)
    ensures ChildFits(Child(PrivateBlock(zone), 0, 1), publicBits, 0)
    ensures Child(Child(PrivateBlock(zone), 0, 1), publicBits, 0) == PublicBlock(zone, publicBits)
  {
    ChildInside(zone, 1, 1);
    SizeSplit(zone.prefix, 1);
  }

  /** Blocks inside two disjoint blocks are disjoint. */
  lemma DisjointInside(a: AddressBlock, b: AddressBlock, c: AddressBlock, d: AddressBlock)
    requires Disjoint(a, b) && Contains(a, c) && Contains(b, d)
    ensures Disjoint(c, d)
  {
  }

  /** Every block handed out lies inside the base; for an aligned base every block is aligned. */
  lemma PlanNested(base: AddressBlock, azCount: nat, zoneBits: nat, publicBits: nat)
    requires PlanFits(base, azCount, zoneBits, publicBits)
    ensures forall i :: 0 <= i < azCount ==>
      Contains(base, PrivateBlocks(base, azCount, zoneBits, publicBits)[i]) &&
      Contains(base, PublicBlocks(base, azCount, zoneBits, publicBits)[i])
    ensures Aligned(base) ==> forall i :: 0 <= i < azCount ==>
      Aligned(PrivateBlocks(base, azCount, zoneBits, publicBits)[i]) &&
      Aligned(PublicBlocks(base, azCount, zoneBits, publicBits)[i])
  {
    var privates := PrivateBlocks(base, azCount, zoneBits, publicBits);
    var publics := PublicBlocks(base, azCount, zoneBits, publicBits);
    if Aligned(base) {
      forall i | 0 <= i < azCount
        ensures Aligned(privates[i]) && Aligned(publics[i])
      {
        var zone := Zone(base, zoneBits, i);
        ChildNested(base, zoneBits, i);
        ChildNested(zone, 1, 0);
        ChildNested(zone, 1, 1);
        Pow2Monotone(0, publicBits);
        ChildNested(Child(zone, 1, 1), publicBits, 0);
      }
    }
  }

  /** No address is handed out twice: all 2 * azCount blocks are pairwise disjoint. */
  lemma PlanDisjoint(base: AddressBlock, azCount: nat, zoneBits: nat, publicBits: nat)
    requires PlanFits(base, azCount, zoneBits, publicBits)
    ensures forall i, j :: 0 <= i < azCount && 0 <= j < azCount ==>
      Disjoint(PrivateBlocks(base, azCount, zoneBits, publicBits)[i],
               PublicBlocks(base, azCount, zoneBits, publicBits)[j])
    ensures forall i, j :: 0 <= i < azCount && 0 <= j < azCount && i != j ==>
      Disjoint(PrivateBlocks(base, azCount, zoneBits, publicBits)[i],
               PrivateBlocks(base, azCount, zoneBits, publicBits)[j]) &&
      Disjoint(PublicBlocks(base, azCount, zoneBits, publicBits)[i],
               PublicBlocks(base, azCount, zoneBits, publicBits)[j])
  {
    var privates := PrivateBlocks(base, azCount, zoneBits, publicBits);
    var publics := PublicBlocks(base, azCount, zoneBits, publicBits);
    forall i, j | 0 <= i < azCount && 0 <= j < azCount
      ensures Disjoint(privates[i], publics[j])
      ensures i != j ==> Disjoint(privates[i], privates[j]) && Disjoint(publics[i], publics[j])
    {
      var zi, zj := Zone(base, zoneBits, i), Zone(base, zoneBits, j);
      if i == j {
        assert Disjoint(privates[i], publics[j]);
      } else {
        ChildInside(base, zoneBits, i);
        ChildInside(base, zoneBits, j);
        ChildrenDisjoint(base, zoneBits, i, j);
        DisjointInside(zi, zj, privates[i], publics[j]);
        DisjointInside(zi, zj, privates[i], privates[j]);
        DisjointInside(zi, zj, publics[i], publics[j]);
      }
    }
  }

  /**
   * The shares of each zone: the private subnet is half of it, the public
   * subnet 1/2^(publicBits+1) of it, and (for publicBits >= 1) the top
   * quarter of the zone is handed out to neither.
   */
  lemma PlanShares(base: AddressBlock, azCount: nat, zoneBits: nat, publicBits: nat, i: nat)
    requires PlanFits(base, azCount, zoneBits, publicBits) && i < azCount
    ensures var zone := Zone(base, zoneBits, i);
      && 2 * Size(PrivateBlocks(base, azCount, zoneBits, publicBits)[i].prefix) == Size(zone.prefix)
      && Pow2(publicBits + 1) * Size(PublicBlocks(base, azCount, zoneBits, publicBits)[i].prefix) == Size(zone.prefix)
      && (publicBits >= 1 ==>
            End(PublicBlocks(base, azCount, zoneBits, publicBits)[i]) + Size(zone.prefix + 2) <= End(zone))
  {
    var zone := Zone(base, zoneBits, i);
    var pub := PublicBlocks(base, azCount, zoneBits, publicBits)[i];
    SizeSplit(zone.prefix, publicBits + 1);
    if publicBits >= 1 {
      SizeSplit(zone.prefix + 1, 1);
      SizeSplit(zone.prefix + 2, publicBits - 1);
      Pow2Monotone(0, publicBits - 1);
      QuarterLeft(Size(zone.prefix + 2), Pow2(publicBits - 1), Size(pub.prefix));
    }
  }

  /** A piece p of a quarter q (q == n * p, n >= 1) leaves room for another quarter in a half. */
  lemma QuarterLeft(q: nat, n: nat, p: nat)
    requires q == n * p && n >= 1
    ensures p <= q
  {
    MulMonotone(1, n, p);
  }
}
