/**
 * IPv4 address blocks in CIDR notation ("a.b.c.d/len", section 3.1 of
 * RFC 4632): the value type, its text form, and the parser that the
 * `ip-address` (JavaScript) and `ipaddress` (Python) libraries supply to the
 * repository. Only the dotted-quad form with an optional decimal prefix
 * length is modelled.
 */
module Ipv4 {
  import opened Wrappers
  import opened Arithmetic
  import opened PowerOfTwo

  const AddressSpace: nat := 0x1_0000_0000

  type Octet = x: int | 0 <= x < 256
  type Address = x: int | 0 <= x < 0x1_0000_0000
  type PrefixLength = p: int | 0 <= p <= 32

  /** A block of 2^(32 - prefix) consecutive addresses starting at `address`. */
  datatype AddressBlock = AddressBlock(address: Address, prefix: PrefixLength)

  /** Number of addresses in a block with the given prefix length. */
  function Size(prefix: PrefixLength): nat
  {
    Pow2(32 - prefix)
  }

  /** One past the last address of the block. */
  function End(b: AddressBlock): nat
  {
    b.address + Size(b.prefix)
  }

  /** The block's address has no host bits set (strict network address). */
  predicate Aligned(b: AddressBlock)
  {
    b.address % Size(b.prefix) == 0
  }

  /** Every address of `inner` is an address of `outer`. */
  predicate Contains(outer: AddressBlock, inner: AddressBlock)
  {
    outer.address <= inner.address && End(inner) <= End(outer)
  }

  /** The two blocks share no address. */
  predicate Disjoint(a: AddressBlock, b: AddressBlock)
  {
    End(a) <= b.address || End(b) <= a.address
  }

  /** The block does not run past 255.255.255.255. */
  predicate NoWrap(b: AddressBlock)
  {
    End(b) <= AddressSpace
  }

  lemma AlignedNoWrap(b: AddressBlock)
    ensures Aligned(b) ==> NoWrap(b)
  {
    if Aligned(b) {
      var s, P := Size(b.prefix), Pow2(b.prefix);
      Pow2Add(32 - b.prefix, b.prefix);
      Pow2Constants();
      AlignedBelow(b.address, s, P);
    }
  }

  /** A multiple of s below s * p is at most s * p - s. */
  lemma AlignedBelow(a: nat, s: nat, p: nat)
    requires s > 0 && a % s == 0 && a < s * p
    ensures a + s <= s * p
  {
    var q := a / s;
    assert a == q * s;
    DivUpper(a, s, p);
    MulMonotone(q + 1, p, s);
    assert (q + 1) * s == q * s + s;
  }

  // ---------------------------------------------------------------------------
  // Decimal numerals
  // ---------------------------------------------------------------------------

  predicate IsDigit(c: char)
  {
    '0' <= c <= '9'
  }

  /** A non-empty run of decimal digits. */
  predicate IsDecimal(s: string)
  {
    |s| > 0 && forall i :: 0 <= i < |s| ==> IsDigit(s[i])
  }

  function DigitValue(c: char): nat
    requires IsDigit(c)
  {
    c as int - '0' as int
  }

  function DigitChar(d: nat): (c: char)
    requires d < 10
    ensures IsDigit(c) && DigitValue(c) == d
  {
    ('0' as int + d) as char
  }

  /** The number a string of digits denotes, most significant digit first. */
  function DecimalValue(s: string): nat
    requires forall i :: 0 <= i < |s| ==> IsDigit(s[i])
  {
    if s == [] then 0 else DecimalValue(s[..|s| - 1]) * 10 + DigitValue(s[|s| - 1])
  }

  /** The shortest decimal numeral of n. */
  function Decimal(n: nat): (s: string)
    ensures IsDecimal(s)
  {
    if n < 10 then [DigitChar(n)] else Decimal(n / 10) + [DigitChar(n % 10)]
  }

  lemma {:induction false} DecimalRoundTrip(n: nat)
    ensures DecimalValue(Decimal(n)) == n
  {
    if n >= 10 {
      DecimalRoundTrip(n / 10);
      var s := Decimal(n);
      assert s[..|s| - 1] == Decimal(n / 10);
    }
  }

  /** Reads a non-empty run of decimal digits. */
  function ParseDecimal(s: string): (r: Option<nat>)
    ensures r.Some? <==> IsDecimal(s)
    ensures r.Some? ==> r.value == DecimalValue(s)
  {
    if IsDecimal(s) then Some(DecimalValue(s)) else None
  }

  // ---------------------------------------------------------------------------
  // Splitting at a separator
  // ---------------------------------------------------------------------------

  /** Position of the first `c` in `s`. */
  function IndexOf(s: string, c: char): (i: nat)
    requires c in s
    ensures i < |s| && s[i] == c && c !in s[..i]
  {
    if s[0] == c then 0 else 1 + IndexOf(s[1..], c)
  }

  /** The pieces of `s` between occurrences of `sep`, like JavaScript's and Python's `split`. */
  function Split(s: string, sep: char): (parts: seq<string>)
    ensures |parts| >= 1
    decreases |s|
  {
    if sep !in s then [s]
    else
      var i := IndexOf(s, sep);
      [s[..i]] + Split(s[i + 1..], sep)
  }

  lemma SplitAt(a: string, sep: char, b: string)
    requires sep !in a
    ensures Split(a + [sep] + b, sep) == [a] + Split(b, sep)
  {
    var s := a + [sep] + b;
    var i := IndexOf(s, sep);
    assert s[|a|] == sep && s[..|a|] == a;
    assert i == |a|;
    assert s[i + 1..] == b;
  }

  // ---------------------------------------------------------------------------
  // Text form of an address block
  // ---------------------------------------------------------------------------

  /** The address whose octets, most significant first, are o0..o3. */
  function FromOctets(o0: Octet, o1: Octet, o2: Octet, o3: Octet): Address
  {
    ((o0 as int * 256 + o1 as int) * 256 + o2 as int) * 256 + o3 as int
  }

  /** The four octets of an address, most significant first. */
  function Octets(a: Address): (o: seq<Octet>)
    ensures |o| == 4 && FromOctets(o[0], o[1], o[2], o[3]) == a
  {
    var a1 := a / 256;
    var a2 := a1 / 256;
    [a2 / 256, a2 % 256, a1 % 256, a % 256]
  }

  /** Reads one octet: a decimal numeral of value at most 255. */
  function ParseOctet(s: string): (r: Option<Octet>)
    ensures r.Some? <==> IsDecimal(s) && DecimalValue(s) <= 255
    ensures r.Some? ==> r.value == DecimalValue(s)
  {
    match ParseDecimal(s)
    case Some(v) => if v <= 255 then Some(v) else None
    case None => None
  }

  /** Reads a dotted quad "a.b.c.d" with every octet in 0..255. */
  function ParseAddress(s: string): (r: Option<Address>)
    ensures r.Some? <==> |Split(s, '.')| == 4 && forall i :: 0 <= i < 4 ==> ParseOctet(Split(s, '.')[i]).Some?
    ensures r.Some? ==>
      var parts := Split(s, '.');
      r.value == FromOctets(DecimalValue(parts[0]), DecimalValue(parts[1]), DecimalValue(parts[2]), DecimalValue(parts[3]))
  {
    var parts := Split(s, '.');
    if |parts| != 4 then None
    else
      match (ParseOctet(parts[0]), ParseOctet(parts[1]), ParseOctet(parts[2]), ParseOctet(parts[3]))
      case (Some(o0), Some(o1), Some(o2), Some(o3)) => Some(FromOctets(o0, o1, o2, o3))
      case _ => None
  }

  /** Reads a prefix length: a decimal numeral of value at most 32. */
  function ParsePrefix(s: string): (r: Option<PrefixLength>)
    ensures r.Some? <==> IsDecimal(s) && DecimalValue(s) <= 32
    ensures r.Some? ==> r.value == DecimalValue(s)
  {
    match ParseDecimal(s)
    case Some(v) => if v <= 32 then Some(v) else None
    case None => None
  }

  /**
   * Reads "a.b.c.d/len", or "a.b.c.d" as a single address (length 32), as both
   * `ip-address`'s Address4 and Python's `ip_network` do. None for anything
   * else: more than one '/', a malformed or out-of-range octet, a prefix
   * length that is not a numeral or exceeds 32.
   */
  function Parse(text: string): (r: Option<AddressBlock>)
    ensures r.Some? && '/' !in text ==> r.value.prefix == 32
    ensures r.Some? && '/' in text ==> |Split(text, '/')| == 2
  {
    if '/' in text then
      var parts := Split(text, '/');
      if |parts| != 2 then None
      else
        match (ParseAddress(parts[0]), ParsePrefix(parts[1]))
        case (Some(a), Some(p)) => Some(AddressBlock(a, p))
        case _ => None
    else
      match ParseAddress(text)
      case Some(a) => Some(AddressBlock(a, 32))
      case None => None
  }

  /**
   * The block `Parse` reads: without a '/', the dotted quad as a /32; with
   * one, the dotted quad before it and the decimal length after it, and
   * nothing unless both parts read.
   */
  lemma ParseReads(text: string)
    ensures '/' !in text ==>
      && (Parse(text).Some? <==> ParseAddress(text).Some?)
      && (Parse(text).Some? ==> Parse(text).value == AddressBlock(ParseAddress(text).value, 32))
    ensures '/' in text ==>
      var parts := Split(text, '/');
      && (Parse(text).Some? <==> |parts| == 2 && ParseAddress(parts[0]).Some? && ParsePrefix(parts[1]).Some?)
      && (Parse(text).Some? ==>
            Parse(text).value == AddressBlock(ParseAddress(parts[0]).value, DecimalValue(parts[1])))
  {
  }

  function FormatAddress(a: Address): string
  {
    var o := Octets(a);
    Decimal(o[0]) + "." + (Decimal(o[1]) + "." + (Decimal(o[2]) + "." + Decimal(o[3])))
  }

  /** Renders "a.b.c.d/len", as `${address}/${mask}` and Python's `str(network)` do. */
  function Format(b: AddressBlock): string
  {
    FormatAddress(b.address) + "/" + Decimal(b.prefix)
  }

  lemma NoSeparatorInDecimal(n: nat, c: char)
    requires !IsDigit(c)
    ensures c !in Decimal(n)
  {
  }

  lemma ParseOctetDecimal(n: Octet)
    ensures ParseOctet(Decimal(n)) == Some(n)
  {
    DecimalRoundTrip(n);
  }

  lemma NoSeparatorInAddress(a: Address, c: char)
    requires !IsDigit(c) && c != '.'
    ensures c !in FormatAddress(a)
  {
    var o := Octets(a);
    NoSeparatorInDecimal(o[0], c);
    NoSeparatorInDecimal(o[1], c);
    NoSeparatorInDecimal(o[2], c);
    NoSeparatorInDecimal(o[3], c);
  }

  lemma SplitDottedQuad(d0: string, d1: string, d2: string, d3: string)
    requires '.' !in d0 && '.' !in d1 && '.' !in d2 && '.' !in d3
    ensures Split(d0 + "." + (d1 + "." + (d2 + "." + d3)), '.') == [d0, d1, d2, d3]
  {
    var t2 := d2 + ['.'] + d3;
    var t1 := d1 + ['.'] + t2;
    assert Split(d3, '.') == [d3];
    SplitAt(d2, '.', d3);
    assert Split(t2, '.') == [d2, d3];
    SplitAt(d1, '.', t2);
    assert Split(t1, '.') == [d1, d2, d3];
    SplitAt(d0, '.', t1);
  }

  lemma SplitFormatAddress(a: Address)
    ensures var o := Octets(a);
      Split(FormatAddress(a), '.') == [Decimal(o[0]), Decimal(o[1]), Decimal(o[2]), Decimal(o[3])]
  {
    var o := Octets(a);
    NoSeparatorInDecimal(o[0], '.');
    NoSeparatorInDecimal(o[1], '.');
    NoSeparatorInDecimal(o[2], '.');
    NoSeparatorInDecimal(o[3], '.');
    SplitDottedQuad(Decimal(o[0]), Decimal(o[1]), Decimal(o[2]), Decimal(o[3]));
  }

  lemma ParseFormatAddress(a: Address)
    ensures ParseAddress(FormatAddress(a)) == Some(a)
  {
    var o := Octets(a);
    SplitFormatAddress(a);
    ParseOctetDecimal(o[0]);
    ParseOctetDecimal(o[1]);
    ParseOctetDecimal(o[2]);
    ParseOctetDecimal(o[3]);
  }

  /**
   * Rendered text is valid input again and reads back as the same block:
   * the distributors feed each `subnetV4` result into the next call.
   */
  lemma ParseFormat(b: AddressBlock)
    ensures '/' in Format(b)
    ensures Parse(Format(b)) == Some(b)
  {
    var addr := FormatAddress(b.address);
    var len := Decimal(b.prefix);
    ParseFormatAddress(b.address);
    NoSeparatorInAddress(b.address, '/');
    NoSeparatorInDecimal(b.prefix, '/');
    assert Format(b) == addr + ['/'] + len;
    SplitAt(addr, '/', len);
    assert Split(Format(b), '/') == [addr, len];
    DecimalRoundTrip(b.prefix);
  }
}
