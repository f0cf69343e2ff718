/**
 * The worked values of the repository's tests (test/cidr.spec.ts,
 * test/subnetDistributor.spec.ts, nodejs/tests/subnetDistributor.spec.ts,
 * python/tests/test_subnet_distributor.py), proved about the model.
 */
module Examples {
  import opened Wrappers
  import opened PowerOfTwo
  import opened Ipv4
  import opened Cidr
  import opened Partition
  import opened Distribution
  import PythonDistributor

  // ---------------------------------------------------------------------------
  // The texts of the blocks the tests mention, one block at a time
  // ---------------------------------------------------------------------------

  /** The block 10.0.x.0/p: every block of the distributor tests is one. */
  function Net10(x: Octet, p: PrefixLength): AddressBlock
  {
    AddressBlock(FromOctets(10, 0, x, 0), p)
  }

  /** A block's text is its address text, a '/', and its prefix length in decimal. */
  lemma {:induction false} BlockText(b: AddressBlock, address: string, length: string)
    requires FormatAddress(b.address) == address && Decimal(b.prefix) == length
    ensures Format(b) == address + "/" + length
  {
  }

  lemma {:induction false} Address10_0_0_0()
    ensures FormatAddress(FromOctets(10, 0, 0, 0)) == "10.0.0.0"
  {
    assert FromOctets(10, 0, 0, 0) == 167772160;
    assert Octets(167772160) == [10, 0, 0, 0];
    assert Decimal(10) == "10" && Decimal(0) == "0" && Decimal(0) == "0";
  }

  lemma {:induction false} Address10_0_2_0()
    ensures FormatAddress(FromOctets(10, 0, 2, 0)) == "10.0.2.0"
  {
    assert FromOctets(10, 0, 2, 0) == 167772672;
    assert Octets(167772672) == [10, 0, 2, 0];
    assert Decimal(10) == "10" && Decimal(0) == "0" && Decimal(2) == "2";
  }

  lemma {:induction false} Address10_0_4_0()
    ensures FormatAddress(FromOctets(10, 0, 4, 0)) == "10.0.4.0"
  {
    assert FromOctets(10, 0, 4, 0) == 167773184;
    assert Octets(167773184) == [10, 0, 4, 0];
    assert Decimal(10) == "10" && Decimal(0) == "0" && Decimal(4) == "4";
  }

  lemma {:induction false} Address10_0_6_0()
    ensures FormatAddress(FromOctets(10, 0, 6, 0)) == "10.0.6.0"
  {
    assert FromOctets(10, 0, 6, 0) == 167773696;
    assert Octets(167773696) == [10, 0, 6, 0];
    assert Decimal(10) == "10" && Decimal(0) == "0" && Decimal(6) == "6";
  }

  lemma {:induction false} Address10_0_8_0()
    ensures FormatAddress(FromOctets(10, 0, 8, 0)) == "10.0.8.0"
  {
    assert FromOctets(10, 0, 8, 0) == 167774208;
    assert Octets(167774208) == [10, 0, 8, 0];
    assert Decimal(10) == "10" && Decimal(0) == "0" && Decimal(8) == "8";
  }

  lemma {:induction false} Address10_0_10_0()
    ensures FormatAddress(FromOctets(10, 0, 10, 0)) == "10.0.10.0"
  {
    assert FromOctets(10, 0, 10, 0) == 167774720;
    assert Octets(167774720) == [10, 0, 10, 0];
    assert Decimal(10) == "10" && Decimal(0) == "0" && Decimal(10) == "10";
  }

  lemma {:induction false} Address10_0_12_0()
    ensures FormatAddress(FromOctets(10, 0, 12, 0)) == "10.0.12.0"
  {
    assert FromOctets(10, 0, 12, 0) == 167775232;
    assert Octets(167775232) == [10, 0, 12, 0];
    assert Decimal(10) == "10" && Decimal(0) == "0" && Decimal(12) == "12";
  }

  lemma {:induction false} Address10_0_14_0()
    ensures FormatAddress(FromOctets(10, 0, 14, 0)) == "10.0.14.0"
  {
    assert FromOctets(10, 0, 14, 0) == 167775744;
    assert Octets(167775744) == [10, 0, 14, 0];
    assert Decimal(10) == "10" && Decimal(0) == "0" && Decimal(14) == "14";
  }

  lemma {:induction false} Address10_0_32_0()
    ensures FormatAddress(FromOctets(10, 0, 32, 0)) == "10.0.32.0"
  {
    assert FromOctets(10, 0, 32, 0) == 167780352;
    assert Octets(167780352) == [10, 0, 32, 0];
    assert Decimal(10) == "10" && Decimal(0) == "0" && Decimal(32) == "32";
  }

  lemma {:induction false} Address10_0_64_0()
    ensures FormatAddress(FromOctets(10, 0, 64, 0)) == "10.0.64.0"
  {
    assert FromOctets(10, 0, 64, 0) == 167788544;
    assert Octets(167788544) == [10, 0, 64, 0];
    assert Decimal(10) == "10" && Decimal(0) == "0" && Decimal(64) == "64";
  }

  lemma {:induction false} Address10_0_96_0()
    ensures FormatAddress(FromOctets(10, 0, 96, 0)) == "10.0.96.0"
  {
    assert FromOctets(10, 0, 96, 0) == 167796736;
    assert Octets(167796736) == [10, 0, 96, 0];
    assert Decimal(10) == "10" && Decimal(0) == "0" && Decimal(96) == "96";
  }

  lemma {:induction false} Address10_0_128_0()
    ensures FormatAddress(FromOctets(10, 0, 128, 0)) == "10.0.128.0"
  {
    assert FromOctets(10, 0, 128, 0) == 167804928;
    assert Octets(167804928) == [10, 0, 128, 0];
    assert Decimal(10) == "10" && Decimal(0) == "0" && Decimal(128) == "128";
  }

  lemma {:induction false} Address10_0_160_0()
    ensures FormatAddress(FromOctets(10, 0, 160, 0)) == "10.0.160.0"
  {
    assert FromOctets(10, 0, 160, 0) == 167813120;
    assert Octets(167813120) == [10, 0, 160, 0];
    assert Decimal(10) == "10" && Decimal(0) == "0" && Decimal(160) == "160";
  }

  lemma {:induction false} Address10_0_192_0()
    ensures FormatAddress(FromOctets(10, 0, 192, 0)) == "10.0.192.0"
  {
    assert FromOctets(10, 0, 192, 0) == 167821312;
    assert Octets(167821312) == [10, 0, 192, 0];
    assert Decimal(10) == "10" && Decimal(0) == "0" && Decimal(192) == "192";
  }

  lemma {:induction false} Address10_0_224_0()
    ensures FormatAddress(FromOctets(10, 0, 224, 0)) == "10.0.224.0"
  {
    assert FromOctets(10, 0, 224, 0) == 167829504;
    assert Octets(167829504) == [10, 0, 224, 0];
    assert Decimal(10) == "10" && Decimal(0) == "0" && Decimal(224) == "224";
  }

  lemma {:induction false} Text10_0_0_0_16()
    ensures Format(Net10(0, 16)) == "10.0.0.0/16"
  {
    Address10_0_0_0();
    assert Decimal(16) == "16";
    BlockText(Net10(0, 16), "10.0.0.0", "16");
  }

  lemma {:induction false} Text10_0_0_0_18()
    ensures Format(Net10(0, 18)) == "10.0.0.0/18"
  {
    Address10_0_0_0();
    assert Decimal(18) == "18";
    BlockText(Net10(0, 18), "10.0.0.0", "18");
  }

  lemma {:induction false} Text10_0_0_0_19()
    ensures Format(Net10(0, 19)) == "10.0.0.0/19"
  {
    Address10_0_0_0();
    assert Decimal(19) == "19";
    BlockText(Net10(0, 19), "10.0.0.0", "19");
  }

  lemma {:induction false} Text10_0_64_0_19()
    ensures Format(Net10(64, 19)) == "10.0.64.0/19"
  {
    Address10_0_64_0();
    assert Decimal(19) == "19";
    BlockText(Net10(64, 19), "10.0.64.0", "19");
  }

  lemma {:induction false} Text10_0_128_0_19()
    ensures Format(Net10(128, 19)) == "10.0.128.0/19"
  {
    Address10_0_128_0();
    assert Decimal(19) == "19";
    BlockText(Net10(128, 19), "10.0.128.0", "19");
  }

  lemma {:induction false} Text10_0_192_0_19()
    ensures Format(Net10(192, 19)) == "10.0.192.0/19"
  {
    Address10_0_192_0();
    assert Decimal(19) == "19";
    BlockText(Net10(192, 19), "10.0.192.0", "19");
  }

  lemma {:induction false} Text10_0_32_0_19()
    ensures Format(Net10(32, 19)) == "10.0.32.0/19"
  {
    Address10_0_32_0();
    assert Decimal(19) == "19";
    BlockText(Net10(32, 19), "10.0.32.0", "19");
  }

  lemma {:induction false} Text10_0_32_0_21()
    ensures Format(Net10(32, 21)) == "10.0.32.0/21"
  {
    Address10_0_32_0();
    assert Decimal(21) == "21";
    BlockText(Net10(32, 21), "10.0.32.0", "21");
  }

  lemma {:induction false} Text10_0_96_0_21()
    ensures Format(Net10(96, 21)) == "10.0.96.0/21"
  {
    Address10_0_96_0();
    assert Decimal(21) == "21";
    BlockText(Net10(96, 21), "10.0.96.0", "21");
  }

  lemma {:induction false} Text10_0_160_0_21()
    ensures Format(Net10(160, 21)) == "10.0.160.0/21"
  {
    Address10_0_160_0();
    assert Decimal(21) == "21";
    BlockText(Net10(160, 21), "10.0.160.0", "21");
  }

  lemma {:induction false} Text10_0_224_0_21()
    ensures Format(Net10(224, 21)) == "10.0.224.0/21"
  {
    Address10_0_224_0();
    assert Decimal(21) == "21";
    BlockText(Net10(224, 21), "10.0.224.0", "21");
  }

  lemma {:induction false} Text10_0_32_0_20()
    ensures Format(Net10(32, 20)) == "10.0.32.0/20"
  {
    Address10_0_32_0();
    assert Decimal(20) == "20";
    BlockText(Net10(32, 20), "10.0.32.0", "20");
  }

  lemma {:induction false} Text10_0_96_0_20()
    ensures Format(Net10(96, 20)) == "10.0.96.0/20"
  {
    Address10_0_96_0();
    assert Decimal(20) == "20";
    BlockText(Net10(96, 20), "10.0.96.0", "20");
  }

  lemma {:induction false} Text10_0_160_0_20()
    ensures Format(Net10(160, 20)) == "10.0.160.0/20"
  {
    Address10_0_160_0();
    assert Decimal(20) == "20";
    BlockText(Net10(160, 20), "10.0.160.0", "20");
  }

  lemma {:induction false} Text10_0_224_0_20()
    ensures Format(Net10(224, 20)) == "10.0.224.0/20"
  {
    Address10_0_224_0();
    assert Decimal(20) == "20";
    BlockText(Net10(224, 20), "10.0.224.0", "20");
  }

  lemma {:induction false} Text10_0_0_0_20()
    ensures Format(Net10(0, 20)) == "10.0.0.0/20"
  {
    Address10_0_0_0();
    assert Decimal(20) == "20";
    BlockText(Net10(0, 20), "10.0.0.0", "20");
  }

  lemma {:induction false} Text10_0_0_0_23()
    ensures Format(Net10(0, 23)) == "10.0.0.0/23"
  {
    Address10_0_0_0();
    assert Decimal(23) == "23";
    BlockText(Net10(0, 23), "10.0.0.0", "23");
  }

  lemma {:induction false} Text10_0_4_0_23()
    ensures Format(Net10(4, 23)) == "10.0.4.0/23"
  {
    Address10_0_4_0();
    assert Decimal(23) == "23";
    BlockText(Net10(4, 23), "10.0.4.0", "23");
  }

  lemma {:induction false} Text10_0_8_0_23()
    ensures Format(Net10(8, 23)) == "10.0.8.0/23"
  {
    Address10_0_8_0();
    assert Decimal(23) == "23";
    BlockText(Net10(8, 23), "10.0.8.0", "23");
  }

  lemma {:induction false} Text10_0_12_0_23()
    ensures Format(Net10(12, 23)) == "10.0.12.0/23"
  {
    Address10_0_12_0();
    assert Decimal(23) == "23";
    BlockText(Net10(12, 23), "10.0.12.0", "23");
  }

  lemma {:induction false} Text10_0_2_0_24()
    ensures Format(Net10(2, 24)) == "10.0.2.0/24"
  {
    Address10_0_2_0();
    assert Decimal(24) == "24";
    BlockText(Net10(2, 24), "10.0.2.0", "24");
  }

  lemma {:induction false} Text10_0_6_0_24()
    ensures Format(Net10(6, 24)) == "10.0.6.0/24"
  {
    Address10_0_6_0();
    assert Decimal(24) == "24";
    BlockText(Net10(6, 24), "10.0.6.0", "24");
  }

  lemma {:induction false} Text10_0_10_0_24()
    ensures Format(Net10(10, 24)) == "10.0.10.0/24"
  {
    Address10_0_10_0();
    assert Decimal(24) == "24";
    BlockText(Net10(10, 24), "10.0.10.0", "24");
  }

  lemma {:induction false} Text10_0_14_0_24()
    ensures Format(Net10(14, 24)) == "10.0.14.0/24"
  {
    Address10_0_14_0();
    assert Decimal(24) == "24";
    BlockText(Net10(14, 24), "10.0.14.0", "24");
  }

  lemma {:induction false} Address10_0_0_16()
    ensures FromOctets(10, 0, 0, 16) == 167772176
    ensures FormatAddress(167772176) == "10.0.0.16"
  {
    assert Octets(167772176) == [10, 0, 0, 16];
    assert Decimal(10) == "10" && Decimal(0) == "0" && Decimal(16) == "16";
  }

  // ---------------------------------------------------------------------------
  // The tests' inputs, parsed
  // ---------------------------------------------------------------------------

  /** A block's text reads back as the block. */
  lemma {:induction false} ParseBlock(b: AddressBlock, text: string)
    requires Format(b) == text
    ensures '/' in text && Parse(text) == Some(b)
  {
    ParseFormat(b);
  }

  /** 10.0.0.16/18 reads as it is written, host bits and all. */
  lemma {:induction false} ParseUnaligned()
    ensures '/' in "10.0.0.16/18" && Parse("10.0.0.16/18") == Some(AddressBlock(FromOctets(10, 0, 0, 16), 18))
  {
    Address10_0_0_16();
    assert Decimal(18) == "18";
    BlockText(AddressBlock(167772176, 18), "10.0.0.16", "18");
    ParseBlock(AddressBlock(167772176, 18), "10.0.0.16/18");
  }

  /** "10.300.0.16/18" splits at its '/' into an address part and "18". */
  lemma {:induction false} SplitOutOfRange()
    ensures Split("10.300.0.16/18", '/') == ["10.300.0.16", "18"]
  {
    assert "10.300.0.16/18" == "10.300.0.16" + ['/'] + "18";
    SplitAt("10.300.0.16", '/', "18");
    assert Split("18", '/') == ["18"];
  }

  /** "300" is a numeral, but not an octet. */
  lemma {:induction false} OctetOutOfRange()
    ensures ParseOctet("300").None?
  {
    assert DecimalValue("300") == 300 by {
      assert "300"[..2] == "30" && "30"[..1] == "3" && "3"[..0] == [];
    }
  }

  /** "10.300.0.16" splits into four parts at its dots. */
  lemma {:induction false} SplitOutOfRangeAddress()
    ensures Split("10.300.0.16", '.') == ["10", "300", "0", "16"]
  {
    assert "10.300.0.16" == "10" + "." + ("300" + "." + ("0" + "." + "16"));
    SplitDottedQuad("10", "300", "0", "16");
  }

  /** "10.300.0.16/18" has a '/' and does not read as a block. */
  lemma {:induction false} ParseOutOfRangeText(text: string)
    requires text == "10.300.0.16/18"
    ensures '/' in text && Parse(text).None?
  {
    SplitOutOfRange();
    SplitOutOfRangeAddress();
    OctetOutOfRange();
    assert text[11] == '/';
  }

  // ---------------------------------------------------------------------------
  // test/cidr.spec.ts
  // ---------------------------------------------------------------------------

  /** The lower half of 10.0.0.0/18. */
  lemma {:induction false} HalfSplitLower()
    ensures TextFits("10.0.0.0/18", 1, 0) && SubnetV4("10.0.0.0/18", 1, 0) == Ok("10.0.0.0/19")
  {
    Text10_0_0_0_18();
    ParseBlock(Net10(0, 18), "10.0.0.0/18");
    Text10_0_0_0_19();
    Pow2Constants();
    assert Child(Net10(0, 18), 1, 0) == Net10(0, 19);
  }

  /** The upper half of 10.0.0.0/18. */
  lemma {:induction false} HalfSplitUpper()
    ensures TextFits("10.0.0.0/18", 1, 1) && SubnetV4("10.0.0.0/18", 1, 1) == Ok("10.0.32.0/19")
  {
    Text10_0_0_0_18();
    ParseBlock(Net10(0, 18), "10.0.0.0/18");
    Text10_0_32_0_19();
    assert Size(19) == 0x2000 by {
      Pow2Constants();
      Pow2Add(8, 5);
    }
    assert Child(Net10(0, 18), 1, 1) == Net10(32, 19);
  }

  /** The lower half of 10.0.32.0/19. */
  lemma {:induction false} HalfSplitOfUpper()
    ensures TextFits("10.0.32.0/19", 1, 0) && SubnetV4("10.0.32.0/19", 1, 0) == Ok("10.0.32.0/20")
  {
    Text10_0_32_0_19();
    ParseBlock(Net10(32, 19), "10.0.32.0/19");
    Text10_0_32_0_20();
    Pow2Constants();
    assert Child(Net10(32, 19), 1, 0) == Net10(32, 20);
  }

  /** An address without a prefix length is refused before it is read. */
  lemma {:induction false} MaskRequiredExample()
    ensures TextFits("10.0.0.0", 1, 0) && SubnetV4("10.0.0.0", 1, 0) == Err(MaskRequired)
  {
    assert '/' !in "10.0.0.0";
  }

  /** 19 new bits on a /18 leave no room: only 14 bits are available. */
  lemma {:induction false} NotEnoughBitsExample()
    ensures TextFits("10.0.0.16/18", 19, 0)
    ensures SubnetV4("10.0.0.16/18", 19, 0) == Err(NotEnoughBits(19, 14))
  {
    ParseUnaligned();
  }

  /** An octet of 300 makes the range invalid, whatever the bit count. */
  lemma {:induction false} InvalidRangeExample()
    ensures TextFits("10.300.0.16/18", 19, 0)
    ensures SubnetV4("10.300.0.16/18", 19, 0) == Err(InvalidRange("10.300.0.16/18"))
  {
    ParseOutOfRangeText("10.300.0.16/18");
  }

  // ---------------------------------------------------------------------------
  // The distributor tests
  // ---------------------------------------------------------------------------

  /** Four zones of 10.0.0.0/16 are /18 blocks 64 apart in the third octet. */
  lemma {:induction false} Slash16Blocks(publicBits: nat)
    requires 1 <= publicBits <= 2
    ensures PlanFits(Net10(0, 16), 4, 2, publicBits)
    ensures PrivateBlocks(Net10(0, 16), 4, 2, publicBits) ==
      [Net10(0, 19), Net10(64, 19), Net10(128, 19), Net10(192, 19)]
    ensures PublicBlocks(Net10(0, 16), 4, 2, publicBits) ==
      [Net10(32, 19 + publicBits), Net10(96, 19 + publicBits), Net10(160, 19 + publicBits), Net10(224, 19 + publicBits)]
  {
    Pow2Constants();
    assert Size(18) == 0x4000 && Size(19) == 0x2000 by {
      Pow2Add(8, 6);
      Pow2Add(8, 5);
    }
  }

  /** Four zones of 10.0.0.0/20 are /22 blocks 4 apart in the third octet. */
  lemma {:induction false} Slash20Blocks()
    ensures PlanFits(Net10(0, 20), 4, 2, 1)
    ensures PrivateBlocks(Net10(0, 20), 4, 2, 1) == [Net10(0, 23), Net10(4, 23), Net10(8, 23), Net10(12, 23)]
    ensures PublicBlocks(Net10(0, 20), 4, 2, 1) == [Net10(2, 24), Net10(6, 24), Net10(10, 24), Net10(14, 24)]
  {
    Pow2Constants();
    assert Size(20) == 0x1000 && Size(22) == 0x400 && Size(23) == 0x200 by {
      Pow2Add(8, 4);
      Pow2Add(8, 2);
      Pow2Add(8, 1);
    }
  }

  /** 10.0.0.0/16 and 10.0.0.0/20 start on a multiple of their size. */
  lemma {:induction false} BasesAligned()
    ensures Aligned(Net10(0, 16)) && Aligned(Net10(0, 20))
  {
    Pow2Constants();
    assert Size(20) == 0x1000 by {
      Pow2Add(8, 4);
    }
  }

  /**
   * A four-zone plan for the text of an aligned block with room for the
   * zones: the rendered private and public blocks.
   */
  lemma {:induction false} PlanOfFour(v: Variant, baseCidr: string, base: AddressBlock)
    requires Format(base) == baseCidr && Aligned(base) && PlanFits(base, 4, 2, v.publicBits)
    ensures BaseFits(baseCidr)
    ensures Plan(v, baseCidr, 4) == Ok(Allocation(FormatAll(PrivateBlocks(base, 4, 2, v.publicBits)),
                                                  FormatAll(PublicBlocks(base, 4, 2, v.publicBits))))
  {
    ParseFormat(base);
    AlignedNoWrap(base);
    assert CeilLog2(4) == 2;
    PlanCases(v, baseCidr, 4);
  }

  /** Rendering a list whose entries render one by one as the given texts. */
  lemma {:induction false} FormatEach(blocks: seq<AddressBlock>, texts: seq<string>)
    requires |blocks| == |texts| && forall i :: 0 <= i < |blocks| ==> Format(blocks[i]) == texts[i]
    ensures FormatAll(blocks) == texts
  {
  }

  lemma {:induction false} Slash19Texts()
    ensures FormatAll([Net10(0, 19), Net10(64, 19), Net10(128, 19), Net10(192, 19)]) ==
      ["10.0.0.0/19", "10.0.64.0/19", "10.0.128.0/19", "10.0.192.0/19"]
  {
    Text10_0_0_0_19();
    Text10_0_64_0_19();
    Text10_0_128_0_19();
    Text10_0_192_0_19();
    FormatEach([Net10(0, 19), Net10(64, 19), Net10(128, 19), Net10(192, 19)], ["10.0.0.0/19", "10.0.64.0/19", "10.0.128.0/19", "10.0.192.0/19"]);
  }

  lemma {:induction false} Slash21Texts()
    ensures FormatAll([Net10(32, 21), Net10(96, 21), Net10(160, 21), Net10(224, 21)]) ==
      ["10.0.32.0/21", "10.0.96.0/21", "10.0.160.0/21", "10.0.224.0/21"]
  {
    Text10_0_32_0_21();
    Text10_0_96_0_21();
    Text10_0_160_0_21();
    Text10_0_224_0_21();
    FormatEach([Net10(32, 21), Net10(96, 21), Net10(160, 21), Net10(224, 21)], ["10.0.32.0/21", "10.0.96.0/21", "10.0.160.0/21", "10.0.224.0/21"]);
  }

  lemma {:induction false} Slash20Texts()
    ensures FormatAll([Net10(32, 20), Net10(96, 20), Net10(160, 20), Net10(224, 20)]) ==
      ["10.0.32.0/20", "10.0.96.0/20", "10.0.160.0/20", "10.0.224.0/20"]
  {
    Text10_0_32_0_20();
    Text10_0_96_0_20();
    Text10_0_160_0_20();
    Text10_0_224_0_20();
    FormatEach([Net10(32, 20), Net10(96, 20), Net10(160, 20), Net10(224, 20)], ["10.0.32.0/20", "10.0.96.0/20", "10.0.160.0/20", "10.0.224.0/20"]);
  }

  lemma {:induction false} Slash23Texts()
    ensures FormatAll([Net10(0, 23), Net10(4, 23), Net10(8, 23), Net10(12, 23)]) ==
      ["10.0.0.0/23", "10.0.4.0/23", "10.0.8.0/23", "10.0.12.0/23"]
  {
    Text10_0_0_0_23();
    Text10_0_4_0_23();
    Text10_0_8_0_23();
    Text10_0_12_0_23();
    FormatEach([Net10(0, 23), Net10(4, 23), Net10(8, 23), Net10(12, 23)], ["10.0.0.0/23", "10.0.4.0/23", "10.0.8.0/23", "10.0.12.0/23"]);
  }

  lemma {:induction false} Slash24Texts()
    ensures FormatAll([Net10(2, 24), Net10(6, 24), Net10(10, 24), Net10(14, 24)]) ==
      ["10.0.2.0/24", "10.0.6.0/24", "10.0.10.0/24", "10.0.14.0/24"]
  {
    Text10_0_2_0_24();
    Text10_0_6_0_24();
    Text10_0_10_0_24();
    Text10_0_14_0_24();
    FormatEach([Net10(2, 24), Net10(6, 24), Net10(10, 24), Net10(14, 24)], ["10.0.2.0/24", "10.0.6.0/24", "10.0.10.0/24", "10.0.14.0/24"]);
  }

  /** test/subnetDistributor.spec.ts: 10.0.0.0/16 in four zones, /19 private and /21 public subnets. */
  lemma {:induction false} TypeScriptSlash16()
    ensures BaseFits("10.0.0.0/16")
    ensures Plan(TypeScript, "10.0.0.0/16", 4) == Ok(Allocation(
      ["10.0.0.0/19", "10.0.64.0/19", "10.0.128.0/19", "10.0.192.0/19"],
      ["10.0.32.0/21", "10.0.96.0/21", "10.0.160.0/21", "10.0.224.0/21"]))
  {
    Text10_0_0_0_16();
    BasesAligned();
    Slash16Blocks(2);
    PlanOfFour(TypeScript, "10.0.0.0/16", Net10(0, 16));
    Slash19Texts();
    Slash21Texts();
  }

  /**
   * nodejs/tests/subnetDistributor.spec.ts and python/tests: 10.0.0.0/16 in
   * four zones, /19 private and /20 public subnets.
   */
  lemma {:induction false} QuarterSlash16()
    ensures BaseFits("10.0.0.0/16")
    ensures Plan(NodeJs, "10.0.0.0/16", 4) == Ok(Allocation(
      ["10.0.0.0/19", "10.0.64.0/19", "10.0.128.0/19", "10.0.192.0/19"],
      ["10.0.32.0/20", "10.0.96.0/20", "10.0.160.0/20", "10.0.224.0/20"]))
    ensures PythonDistributor.Construct("10.0.0.0/16", 4) == Plan(NodeJs, "10.0.0.0/16", 4)
  {
    Text10_0_0_0_16();
    BasesAligned();
    Slash16Blocks(1);
    PlanOfFour(NodeJs, "10.0.0.0/16", Net10(0, 16));
    PlanOfFour(Python, "10.0.0.0/16", Net10(0, 16));
    PythonDistributor.ConstructMatchesPlan("10.0.0.0/16", 4);
    Slash19Texts();
    Slash20Texts();
  }

  /**
   * nodejs/tests/subnetDistributor.spec.ts and python/tests: 10.0.0.0/20 in
   * four zones, /23 private and /24 public subnets.
   */
  lemma {:induction false} QuarterSlash20()
    ensures BaseFits("10.0.0.0/20")
    ensures Plan(NodeJs, "10.0.0.0/20", 4) == Ok(Allocation(
      ["10.0.0.0/23", "10.0.4.0/23", "10.0.8.0/23", "10.0.12.0/23"],
      ["10.0.2.0/24", "10.0.6.0/24", "10.0.10.0/24", "10.0.14.0/24"]))
    ensures PythonDistributor.Construct("10.0.0.0/20", 4) == Plan(NodeJs, "10.0.0.0/20", 4)
  {
    Text10_0_0_0_20();
    BasesAligned();
    Slash20Blocks();
    PlanOfFour(NodeJs, "10.0.0.0/20", Net10(0, 20));
    PlanOfFour(Python, "10.0.0.0/20", Net10(0, 20));
    PythonDistributor.ConstructMatchesPlan("10.0.0.0/20", 4);
    Slash23Texts();
    Slash24Texts();
  }

  // ---------------------------------------------------------------------------
  // Python's ipaddress lists a /32 as its own only subnet
  // ---------------------------------------------------------------------------

  lemma {:induction false} Address10_0_0_1()
    ensures FromOctets(10, 0, 0, 1) == 167772161
    ensures FormatAddress(167772161) == "10.0.0.1"
  {
    assert Octets(167772161) == [10, 0, 0, 1];
    assert Decimal(10) == "10" && Decimal(0) == "0" && Decimal(1) == "1";
  }

  lemma {:induction false} Text10_0_0_0_31()
    ensures Format(Net10(0, 31)) == "10.0.0.0/31"
  {
    Address10_0_0_0();
    assert Decimal(31) == "31";
    BlockText(Net10(0, 31), "10.0.0.0", "31");
  }

  lemma {:induction false} Text10_0_0_0_32()
    ensures Format(Net10(0, 32)) == "10.0.0.0/32"
  {
    Address10_0_0_0();
    assert Decimal(32) == "32";
    BlockText(Net10(0, 32), "10.0.0.0", "32");
  }

  lemma {:induction false} Text10_0_0_1_32()
    ensures Format(AddressBlock(167772161, 32)) == "10.0.0.1/32"
  {
    Address10_0_0_1();
    assert Decimal(32) == "32";
    BlockText(AddressBlock(167772161, 32), "10.0.0.1", "32");
  }

  /** One zone of an aligned /31: its lower /32 is the private subnet and its upper /32 the public one. */
  lemma {:induction false} HalvesOfSlash31(base: AddressBlock)
    requires Aligned(base) && base.prefix == 31
    ensures PlanFits(base, 1, 0, 0)
    ensures PrivateBlocks(base, 1, 0, 0) == [AddressBlock(base.address, 32)]
    ensures PublicBlocks(base, 1, 0, 0) == [AddressBlock(base.address + 1, 32)]
  {
    AlignedNoWrap(base);
    assert Size(32) == 1 && Size(31) == 2;
  }

  /** `__cidr_subnet("10.0.0.0/32", 1, j)`: index 0 is the /32 itself, index 1 an IndexError. */
  lemma {:induction false} FullBlockSubnets()
    ensures PyCidrSubnet("10.0.0.0/32", 1, 0) == Ok("10.0.0.0/32")
    ensures PyCidrSubnet("10.0.0.0/32", 1, 1) == Err(IndexOutOfRange)
  {
    Text10_0_0_0_32();
    ParseBlock(Net10(0, 32), "10.0.0.0/32");
    assert Size(32) == 1;
  }

  /** The one-zone Python plan for the text of an aligned /31: its two halves as /32s. */
  lemma {:induction false} PlanOfSlash31(baseCidr: string, base: AddressBlock)
    requires Format(base) == baseCidr && Aligned(base) && base.prefix == 31
    ensures Plan(Python, baseCidr, 1) ==
      Ok(Allocation([Format(AddressBlock(base.address, 32))], [Format(AddressBlock(base.address + 1, 32))]))
  {
    ParseFormat(base);
    HalvesOfSlash31(base);
    assert CeilLog2(1) == 0;
    assert PublicShareBits(Python, 31) == 0;
    PlanCases(Python, baseCidr, 1);
    assert Plan(Python, baseCidr, 1) ==
      Ok(Allocation(FormatAll(PrivateBlocks(base, 1, 0, 0)), FormatAll(PublicBlocks(base, 1, 0, 0))));
    FormatEach([AddressBlock(base.address, 32)], [Format(AddressBlock(base.address, 32))]);
    FormatEach([AddressBlock(base.address + 1, 32)], [Format(AddressBlock(base.address + 1, 32))]);
  }

  /** `SubnetDistributor("10.0.0.0/31", 1)` in Python hands out the two /32 halves of the base. */
  lemma {:induction false} PythonSlash31()
    ensures PythonDistributor.Construct("10.0.0.0/31", 1) ==
      Ok(Allocation(["10.0.0.0/32"], ["10.0.0.1/32"]))
  {
    assert FromOctets(10, 0, 0, 0) == 167772160;
    Text10_0_0_0_31();
    assert Aligned(Net10(0, 31)) by {
      assert Size(31) == 2;
    }
    PlanOfSlash31("10.0.0.0/31", Net10(0, 31));
    PythonDistributor.ConstructMatchesPlan("10.0.0.0/31", 1);
    Text10_0_0_0_32();
    Text10_0_0_1_32();
  }

  /** `SubnetDistributor("10.0.0.0/32", 2)` in Python raises IndexError at the second zone. */
  lemma {:induction false} PythonSlash32TwoZones()
    ensures PythonDistributor.Construct("10.0.0.0/32", 2) == Err(IndexOutOfRange)
  {
    Text10_0_0_0_32();
    ParseBlock(Net10(0, 32), "10.0.0.0/32");
    assert Size(32) == 1;
    PythonDistributor.ConstructMatchesPlan("10.0.0.0/32", 2);
  }
}
