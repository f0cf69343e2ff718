/**
 * Sub-block arithmetic: `subnetV4` (src/cidr.ts), its inlined twin
 * `cidrSubnetV4` (nodejs/dist/subnetDistributor.js) and Python's
 * `__cidr_subnet`, which indexes the list of `ip_network(...).subnets(k)`.
 */
module Cidr {
  import opened Wrappers
  import opened Arithmetic
  import opened PowerOfTwo
  import opened Ipv4

  /** The failures the three implementations raise. */
  datatype CidrError =
    | MaskRequired                                // "Subnet mask required. Did you add a '/' ..."
    | InvalidRange(text: string)                  // "Invalid IP address range: <text>" / ValueError
    | NotEnoughBits(requested: nat, available: nat) // "Requested N new bits, but only M are available."
    | HostBitsSet                                 // Python: "<text> has host bits set"
    | IndexOutOfRange                             // Python: IndexError on the list of subnets

  /** The new address stays within 32 bits (the source leaves this to its callers). */
  predicate ChildFits(b: AddressBlock, newBits: nat, netNum: nat)
  {
    b.prefix + newBits <= 32 ==>
      b.address + netNum * Size(b.prefix + newBits) < AddressSpace
  }

  /** The netNum-th block of prefix `prefix + newBits`, counted from `b.address`. */
  function Child(b: AddressBlock, newBits: nat, netNum: nat): (c: AddressBlock)
    requires b.prefix + newBits <= 32 && ChildFits(b, newBits, netNum)
    ensures c.prefix == b.prefix + newBits
  {
    AddressBlock(b.address + netNum * Size(b.prefix + newBits), b.prefix + newBits)
  }

  /** The block-level step of `subnetV4`, after parsing: the bit check, then the arithmetic. */
  function Subnet(b: AddressBlock, newBits: nat, netNum: nat): (r: Result<AddressBlock, CidrError>)
    requires ChildFits(b, newBits, netNum)
    ensures r.Err? <==> b.prefix + newBits > 32
    ensures r.Err? ==> r.error == NotEnoughBits(newBits, 32 - b.prefix)
    ensures r.Ok? ==> r.value.prefix == b.prefix + newBits
    ensures r.Ok? ==> r.value.address == b.address + netNum * Size(r.value.prefix)
  {
    if b.prefix + newBits > 32 then Err(NotEnoughBits(newBits, 32 - b.prefix))
    else Ok(Child(b, newBits, netNum))
  }

  /** What the caller of the text-level operations must guarantee. */
  predicate TextFits(ipRange: string, newBits: nat, netNum: nat)
  {
    match Parse(ipRange)
    case Some(b) => ChildFits(b, newBits, netNum)
    case None => true
  }

  /**
   * `cidrSubnetV4` of the Node.js distributor: parse (no '/' pre-check, so a
   * bare address is a /32), check the bit budget, add netNum block sizes to
   * the address as given, render.
   */
  function CidrSubnetV4(ipRange: string, newBits: nat, netNum: nat): (r: Result<string, CidrError>)
    requires TextFits(ipRange, newBits, netNum)
    ensures Parse(ipRange).None? ==> r == Err(InvalidRange(ipRange))
    ensures Parse(ipRange).Some? ==>
      var b := Parse(ipRange).value;
      && (b.prefix + newBits > 32 ==> r == Err(NotEnoughBits(newBits, 32 - b.prefix)))
      && (b.prefix + newBits <= 32 ==>
            r == Ok(Format(Child(b, newBits, netNum))))
  {
    match Parse(ipRange)
    case None => Err(InvalidRange(ipRange))
    case Some(b) =>
      match Subnet(b, newBits, netNum)
      case Err(e) => Err(e)
      case Ok(c) => Ok(Format(c))
  }

  /**
   * `subnetV4` of src/cidr.ts: the same, after first rejecting text without a
   * '/' ("Subnet mask required"), before any other check.
   */
  function SubnetV4(ipRange: string, newBits: nat, netNum: nat): (r: Result<string, CidrError>)
    requires TextFits(ipRange, newBits, netNum)
    ensures '/' !in ipRange ==> r == Err(MaskRequired)
    ensures '/' in ipRange && Parse(ipRange).None? ==> r == Err(InvalidRange(ipRange))
    ensures '/' in ipRange && Parse(ipRange).Some? ==>
      var b := Parse(ipRange).value;
      && (b.prefix + newBits > 32 ==> r == Err(NotEnoughBits(newBits, 32 - b.prefix)))
      && (b.prefix + newBits <= 32 ==> r == Ok(Format(Child(b, newBits, netNum))))
  {
    if '/' !in ipRange then Err(MaskRequired)
    else CidrSubnetV4(ipRange, newBits, netNum)
  }

  // ---------------------------------------------------------------------------
  // Geometry of child blocks
  // ---------------------------------------------------------------------------

  /**
   * The j-th of n consecutive pieces of size s, laid from `a` in a range of
   * n * s ending at or below `top`, also ends at or below `top`.
   */
  lemma OffsetInside(a: nat, total: nat, n: nat, s: nat, j: nat, top: nat)
    requires total == n * s && j < n && s > 0 && a + total <= top
    ensures a <= a + j * s
    ensures a + j * s + s <= a + total
    ensures a + j * s < top
  {
    MulMonotone(0, j, s);
    MulMonotone(j + 1, n, s);
    assert (j + 1) * s == j * s + s;
  }

  /** Offsetting a multiple of n * s by j pieces of size s gives a multiple of s. */
  lemma OffsetAligned(a: nat, total: nat, n: nat, s: nat, j: nat)
    requires s > 0 && total > 0 && total == n * s && a % total == 0
    ensures (a + j * s) % s == 0
  {
    var q := a / total;
    assert a == q * total;
    assert a + j * s == (q * n + j) * s + 0;
    DivModUnique(a + j * s, s, q * n + j, 0);
  }

  /** The size of a block is 2^k times the size of its children k bits longer. */
  lemma SizeSplit(prefix: PrefixLength, k: nat)
    requires prefix + k <= 32
    ensures Size(prefix) == Pow2(k) * Size(prefix + k)
  {
    Pow2Add(k, 32 - prefix - k);
  }

  /**
   * For 0 <= netNum < 2^newBits and a block that does not run past the top of
   * the address space, the child fits in 32 bits and lies inside the parent.
   */
  lemma ChildInside(b: AddressBlock, newBits: nat, netNum: nat)
    requires NoWrap(b) && b.prefix + newBits <= 32 && netNum < Pow2(newBits)
    ensures ChildFits(b, newBits, netNum)
    ensures Contains(b, Child(b, newBits, netNum))
  {
    var s := Size(b.prefix + newBits);
    SizeSplit(b.prefix, newBits);
    OffsetInside(b.address, Size(b.prefix), Pow2(newBits), s, netNum, AddressSpace);
    var c := Child(b, newBits, netNum);
    assert c.address == b.address + netNum * s && End(c) == c.address + s;
  }

  /**
   * For an aligned block and 0 <= netNum < 2^newBits, the child fits in 32
   * bits, is aligned, and lies inside the parent.
   */
  lemma ChildNested(b: AddressBlock, newBits: nat, netNum: nat)
    requires Aligned(b) && b.prefix + newBits <= 32 && netNum < Pow2(newBits)
    ensures ChildFits(b, newBits, netNum)
    ensures Aligned(Child(b, newBits, netNum))
    ensures Contains(b, Child(b, newBits, netNum))
  {
    AlignedNoWrap(b);
    ChildInside(b, newBits, netNum);
    SizeSplit(b.prefix, newBits);
    OffsetAligned(b.address, Size(b.prefix), Pow2(newBits), Size(b.prefix + newBits), netNum);
  }

  lemma AllChildrenNested(b: AddressBlock, newBits: nat)
    requires Aligned(b) && b.prefix + newBits <= 32
    ensures forall j :: 0 <= j < Pow2(newBits) ==>
      ChildFits(b, newBits, j) && Aligned(Child(b, newBits, j)) && Contains(b, Child(b, newBits, j))
  {
    forall j | 0 <= j < Pow2(newBits)
      ensures ChildFits(b, newBits, j) && Aligned(Child(b, newBits, j)) && Contains(b, Child(b, newBits, j))
    {
      ChildNested(b, newBits, j);
    }
  }

  /** Different child numbers give blocks that share no address (aligned or not). */
  lemma ChildrenDisjoint(b: AddressBlock, newBits: nat, i: nat, j: nat)
    requires b.prefix + newBits <= 32 && ChildFits(b, newBits, i) && ChildFits(b, newBits, j)
    requires i != j
    ensures Disjoint(Child(b, newBits, i), Child(b, newBits, j))
  {
    var s := Size(b.prefix + newBits);
    if i < j {
      MulMonotone(i + 1, j, s);
      assert (i + 1) * s == i * s + s;
    } else {
      MulMonotone(j + 1, i, s);
      assert (j + 1) * s == j * s + s;
    }
  }

  lemma NestedOffset(i: nat, p: nat, s: nat, j: nat)
    ensures i * (p * s) + j * s == (i * p + j) * s
  {
  }

  /** Taking child j of child i is taking one child of the parent. */
  lemma ChildOfChild(b: AddressBlock, k1: nat, i: nat, k2: nat, j: nat)
    requires b.prefix + k1 + k2 <= 32 && ChildFits(b, k1, i)
    requires ChildFits(Child(b, k1, i), k2, j)
    ensures ChildFits(b, k1 + k2, i * Pow2(k2) + j)
    ensures Child(Child(b, k1, i), k2, j) == Child(b, k1 + k2, i * Pow2(k2) + j)
  {
    var s := Size(b.prefix + k1 + k2);
    SizeSplit(b.prefix + k1, k2);
    NestedOffset(i, Pow2(k2), s, j);
  }

  // ---------------------------------------------------------------------------
  // Python: ipaddress.ip_network(text).subnets(k)[j]
  // ---------------------------------------------------------------------------

  /**
   * `list(network.subnets(prefixlen_diff=k))` of an aligned block: a /32
   * lists only itself, whatever k is; any other block lists its 2^k equal
   * children in ascending address order.
   */
  function Subnets(b: AddressBlock, k: nat): (children: seq<AddressBlock>)
    requires Aligned(b) && (b.prefix == 32 || b.prefix + k <= 32)
    ensures b.prefix == 32 ==> children == [b]
    ensures b.prefix < 32 ==> |children| == Pow2(k)
    ensures b.prefix < 32 ==> forall j :: 0 <= j < |children| ==>
      ChildFits(b, k, j) && children[j] == Child(b, k, j)
  {
    if b.prefix == 32 then [b]
    else
      AllChildrenNested(b, k);
      seq(Pow2(k), j requires 0 <= j < Pow2(k) => Child(b, k, j))
  }

  /**
   * The children tile the parent: each is aligned and inside it, the first
   * starts where the parent starts, each ends where the next begins, and
   * the last ends where the parent ends.
   */
  lemma SubnetsTile(b: AddressBlock, k: nat)
    requires Aligned(b) && (b.prefix == 32 || b.prefix + k <= 32)
    ensures var cs := Subnets(b, k);
      && cs[0].address == b.address
      && End(cs[|cs| - 1]) == End(b)
      && (forall j :: 0 <= j < |cs| ==> Aligned(cs[j]) && Contains(b, cs[j]))
      && (forall j :: 0 <= j < |cs| - 1 ==> End(cs[j]) == cs[j + 1].address)
  {
    if b.prefix < 32 {
      var cs := Subnets(b, k);
      var s, n := Size(b.prefix + k), Pow2(k);
      AllChildrenNested(b, k);
      forall j | 0 <= j < |cs| - 1
        ensures End(cs[j]) == cs[j + 1].address
      {
        NextOffset(j, s);
      }
      SizeSplit(b.prefix, k);
      NextOffset(n - 1, s);
      assert cs[0].address == b.address + 0 * s;
    }
  }

  lemma NextOffset(j: nat, s: nat)
    ensures (j + 1) * s == j * s + s
  {
  }

  /**
   * `__cidr_subnet` of the Python distributor: parse with `ip_network`
   * (strict, so host bits must be clear), list the children (a /32 is its
   * own only child; elsewhere a prefix beyond 32 is a ValueError), index the
   * list (IndexError past its end), render.
   */
  function PyCidrSubnet(baseAddress: string, prefixExtension: nat, subnetNumber: nat): (r: Result<string, CidrError>)
    ensures Parse(baseAddress).None? ==> r == Err(InvalidRange(baseAddress))
    ensures Parse(baseAddress).Some? ==>
      var b := Parse(baseAddress).value;
      && (!Aligned(b) ==> r == Err(HostBitsSet))
      && (Aligned(b) && b.prefix == 32 ==>
            r == if subnetNumber == 0 then Ok(Format(b)) else Err(IndexOutOfRange))
      && (Aligned(b) && b.prefix < 32 && b.prefix + prefixExtension > 32 ==>
            r == Err(NotEnoughBits(prefixExtension, 32 - b.prefix)))
      && (Aligned(b) && b.prefix < 32 && b.prefix + prefixExtension <= 32 && subnetNumber >= Pow2(prefixExtension) ==>
            r == Err(IndexOutOfRange))
      && (Aligned(b) && b.prefix < 32 && b.prefix + prefixExtension <= 32 && subnetNumber < Pow2(prefixExtension) ==>
            ChildFits(b, prefixExtension, subnetNumber) &&
            r == Ok(Format(Child(b, prefixExtension, subnetNumber))))
  {
    match Parse(baseAddress)
    case None => Err(InvalidRange(baseAddress))
    case Some(b) =>
      if !Aligned(b) then Err(HostBitsSet)
      else if b.prefix < 32 && b.prefix + prefixExtension > 32 then Err(NotEnoughBits(prefixExtension, 32 - b.prefix))
      else
        var children := Subnets(b, prefixExtension);
        if subnetNumber >= |children| then Err(IndexOutOfRange)
        else Ok(Format(children[subnetNumber]))
  }
}
