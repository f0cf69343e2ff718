# Subnet distribution for an AWS VPC, in Dafny

This project models the subnet-planning core of `jen20/pulumi-aws-vpc`. Given a base
IPv4 block in CIDR notation (`"10.0.0.0/16"`) and a number of availability zones, a
`SubnetDistributor` does three things:

- It rounds the zone count up to a power of two, `2^k`.
- It cuts the base into `2^k` equal zone blocks and keeps the first `azCount` of them.
- It gives each zone two subnets. The private subnet is the lower half of the zone. The public subnet starts at the zone's midpoint: it is 1/8 of the zone in the TypeScript package (`src/`, compiled to `dist/`) and 1/4 of the zone in the Node.js (`nodejs/dist/`) and Python packages.

The repository has three implementations. All of them are modelled, as written.

- **TypeScript** (`src/cidr.ts`, `src/subnetDistributor.ts`, `dist/subnetDistributor.js`):
  - `subnetV4` refuses text without a `'/'`.
  - The constructor maps over `[...Array(azCount).keys()]`.
  - The getters return copies made by `slice()`.
- **Node.js** (`nodejs/dist/subnetDistributor.js`):
  - `cidrSubnetV4` has no `'/'` check, so a bare address is a /32.
  - The constructor pushes the zone blocks in a `for` loop.
  - The getters return the stored arrays themselves.
- **Python** (`python/jen20_pulumi_aws_vpc/subnet_distributor.py`):
  - `ipaddress.ip_network` is strict: a base with host bits set is an error.
  - Children are taken by indexing `subnets(k)`.
  - `__next_power_of_2` is `1 << (n - 1).bit_length()`.
  - `subnets(k)` of a /32 lists the /32 alone, whatever k is. So a /32 zone's private subnet is the zone itself, asking for its upper half raises IndexError, and the public subnet of a /31 zone is the whole upper /32.

## Structure

Modules, in dependency order:

| module | file | what it holds |
|---|---|---|
| `Wrappers` | wrappers.dfy | `Option`, `Result` |
| `Arithmetic` | arithmetic.dfy | division and multiplication facts |
| `PowerOfTwo` | power_of_two.dfy | `Pow2`, `Log2`, `CeilLog2`, Python's `bit_length`, JavaScript's bitwise OR and right shift on naturals, and `nextPow2` as a loop over those |
| `Ipv4` | ipv4.dfy | address blocks, their text form (`Format`), and a parser (`Parse`) for dotted quads with an optional `/len` |
| `Cidr` | cidr.dfy | `subnetV4`, `cidrSubnetV4` and `__cidr_subnet` on text, plus the geometry of child blocks |
| `Partition` | partition.dfy | the block-level plan: zones, private and public blocks, and its containment, disjointness and share properties |
| `Distribution` | distribution.dfy | the three variants (`TypeScript`, `NodeJs`, `Python`); `Plan`, the reference outcome of a constructor call, with all of its error cases |
| `Sequences` | sequences.dfy | `xs.map(f)` where `f` may throw (`MapResult`) |
| `Pipeline` | pipeline.dfy | the JavaScript constructors' chain of `subnetV4`/`cidrSubnetV4` calls (`Distribute`), proved equal to `Plan` |
| `PythonDistributor` | python.dfy | the Python constructor's three list comprehensions, proved equal to `Plan` |
| `TypeScriptDistributor` | typescript.dfy | the `src/` class: read-only array fields, `fixedCount`, and copying getters |
| `NodeDistributor` | nodejs.dfy | the `nodejs/dist` class: the zone loop as a `while` loop, and getters that share the stored arrays |
| `Examples` | examples.dfy | the worked values of the repository's tests, and Python's /31 and /32 cases |

The central results:

- `Pipeline.DistributeMatchesPlan`: the JavaScript constructors compute `Plan` exactly.
- `PythonDistributor.ConstructMatchesPlan`: the Python constructor computes `Plan` exactly.
- `Distribution.PlanSound`: a successful `Plan` hands out blocks that parse, lie inside the base, and share no address.
- `Partition.PlanShares`: each zone's shares are a half and a `1/2^(publicBits+1)`, with the top quarter unused.
- The class methods `FixedCount` and `Construct` are proved against `Plan`.

## Model

| member | source | states |
|---|---|---|
| `PowerOfTwo.NextPow2` | src/subnetDistributor.ts:87-100 | the decrement, the five steps that OR n with `n >> k`, and the increment return the least power of two at least n (1 for n = 0), for n up to 2^31 |
| `PowerOfTwo.CeilLog2IsLeast` | src/subnetDistributor.ts:49 | `2^CeilLog2(n)` is at least n, and no smaller power of two is: the zone bits are the fewest that number every zone |
| `PowerOfTwo.Log2Pow2` | src/subnetDistributor.ts:49 | `Math.log2` of a power of two `2^k` is exactly k |
| `PowerOfTwo.BitLengthBounds` | python/jen20_pulumi_aws_vpc/subnet_distributor.py:24 | `bit_length` of x is its number of binary digits: `x < 2^len`, and `2^(len-1) <= x` for x > 0 |
| `PowerOfTwo.PyNextPowerOf2` | python/jen20_pulumi_aws_vpc/subnet_distributor.py:23-24 | `1 << (n - 1).bit_length()` is the least power of two at least n for n >= 1, and 2 for n = 0 |
| `Partition.ZoneBitsLeast` | src/subnetDistributor.ts:49 | `Math.log2(nextPow2(azCount))` equals `CeilLog2(azCount)`: enough bits to number the zones, and no more than any other count that suffices |
| `Ipv4.ParseOctet` | src/cidr.ts:17-20 | an octet is accepted exactly when it is a decimal numeral of value at most 255, and it reads as that numeral's value |
| `Ipv4.ParsePrefix` | src/cidr.ts:17-20 | a prefix length is accepted exactly when it is a decimal numeral of value at most 32, and it reads as that numeral's value |
| `Ipv4.ParseAddress` | src/cidr.ts:17-20 | a dotted quad is accepted exactly when it has four parts and each is an octet, and it reads as the address with those four octets |
| `Ipv4.Parse` | src/cidr.ts:17-20 | a bare address reads as a /32; text with a '/' that parses has exactly one '/' |
| `Ipv4.ParseReads` | src/cidr.ts:17-20 | text without a '/' reads exactly when it is a dotted quad, as that address /32; text with a '/' reads exactly when it is one dotted quad, one '/' and one prefix length, as that address with that length |
| `Ipv4.DecimalRoundTrip` | src/cidr.ts:35 | the rendered prefix length reads back as the same number |
| `Ipv4.ParseFormatAddress` | src/cidr.ts:33 | a rendered address reads back as the same address |
| `Ipv4.ParseFormat` | src/subnetDistributor.ts:55-62 | every `a.b.c.d/len` the code renders contains a '/' and reads back as the same block, so one call's output is valid input to the next |
| `Cidr.Subnet` | src/cidr.ts:22-32 | more than 32 bits fails with `NotEnoughBits(newBits, 32 - prefix)`; otherwise the prefix is `prefix + newBits` and the address is `address + netNum * 2^(32 - newPrefix)` |
| `Cidr.SubnetV4` | src/cidr.ts:9-36 | checks in the source's order: no '/' gives MaskRequired; text that does not parse gives InvalidRange(text); too many bits gives NotEnoughBits; otherwise the rendered child block |
| `Cidr.CidrSubnetV4` | nodejs/dist/subnetDistributor.js:51-69 | as SubnetV4, but with no '/' check, so a bare address is read as a /32 |
| `Cidr.PyCidrSubnet` | python/jen20_pulumi_aws_vpc/subnet_distributor.py:27-28 | unparsable text gives InvalidRange; host bits set gives HostBitsSet; a /32 gives itself at index 0 and IndexOutOfRange past it, whatever k is; otherwise a prefix past 32 gives NotEnoughBits, an index past the 2^k children gives IndexOutOfRange, and any other index the rendered child |
| `Cidr.Subnets` | python/jen20_pulumi_aws_vpc/subnet_distributor.py:28 | `subnets(k)` of a /32 lists that block alone; of a shorter prefix it lists 2^k blocks, the j-th at `address + j * size` with prefix + k |
| `Cidr.SubnetsTile` | python/jen20_pulumi_aws_vpc/subnet_distributor.py:28 | below /32, the children of `subnets(k)` are aligned and inside the parent, start where it starts, follow each other with no gap, and end where it ends |
| `Cidr.ChildInside` | src/cidr.ts:28-33 | for netNum < 2^newBits and a base that stays below 2^32, the computed address fits in 32 bits and the child lies inside the parent |
| `Cidr.ChildNested` | src/cidr.ts:28-33 | for an aligned parent the child is also aligned, and it lies inside the parent |
| `Cidr.ChildrenDisjoint` | src/cidr.ts:28-33 | different netNums with the same newBits give blocks that share no address |
| `Cidr.ChildOfChild` | src/subnetDistributor.ts:59-62 | child j of child i is the parent's child `i * 2^k2 + j` with `k1 + k2` bits: nested `subnetV4` calls compose |
| `Partition.Zone` | src/subnetDistributor.ts:51-53 | zone i lies inside the base, has prefix `base.prefix + zoneBits` and starts at `base.address + i * zoneSize` |
| `Partition.PrivateBlock` | src/subnetDistributor.ts:55-57 | the private subnet starts where its zone starts, is half its size, and lies inside it |
| `Partition.PublicBlock` | src/subnetDistributor.ts:59-62 | the public subnet starts at the zone's midpoint, has prefix `zone + 1 + publicBits`, and lies inside the zone |
| `Partition.PublicFromPrivate` | src/subnetDistributor.ts:59-62 | `subnetV4(subnetV4(private, 0, 1), publicBits, 0)` is the public block: the block after the private half, then its first piece |
| `Partition.ZonesAligned` | python/jen20_pulumi_aws_vpc/subnet_distributor.py:41 | the zones of an aligned base are aligned, so the strict `ip_network` accepts every zone text |
| `Partition.PlanNested` | src/subnetDistributor.ts:48-63 | every private and public block lies inside the base, and for an aligned base every block is aligned |
| `Partition.PlanDisjoint` | src/subnetDistributor.ts:48-63 | no two of the 2 * azCount blocks share an address |
| `Partition.PlanShares` | python/jen20_pulumi_aws_vpc/subnet_distributor.py:15-20 | the private subnet is half its zone and the public one `1/2^(publicBits+1)` of it; with publicBits >= 1 the zone's top quarter is left spare |
| `Partition.Zones` | src/subnetDistributor.ts:51-53 | the first azCount zones, in index order |
| `Partition.PrivateBlocks` | src/subnetDistributor.ts:55-57 | azCount private blocks, entry i being zone i's private block |
| `Partition.PublicBlocks` | src/subnetDistributor.ts:59-62 | azCount public blocks, entry i being zone i's public block |
| `Distribution.PublicShareBits` | python/jen20_pulumi_aws_vpc/subnet_distributor.py:31-33 | the public share's extra bits are the variant's, except for a /31 zone in Python, whose upper half is a /32 that `subnets(1)` returns whole |
| `Distribution.Plan` | src/subnetDistributor.ts:48-63 | a successful construction holds azCount private and azCount public subnets |
| `Distribution.PlanLayout` | src/subnetDistributor.ts:48-63 | in a successful plan, private subnet i starts at zone i's address with the zone prefix + 1, and public subnet i starts at the zone's midpoint with prefix zone + 1 + `PublicShareBits` |
| `Distribution.PlanSound` | src/subnetDistributor.ts:48-63 | every handed-out subnet parses and lies inside the base; privates and publics are pairwise disjoint |
| `Distribution.PlanCases` | src/subnetDistributor.ts:48-63 | once the base parses: a /32 base in Python gives IndexOutOfRange; too few bits for the zones gives NotEnoughBits; /32 zones give NotEnoughBits(1, 0) in JavaScript and IndexOutOfRange in Python; too few bits for the public share gives its NotEnoughBits; otherwise the rendered block plan |
| `Distribution.PlanZonesFail` | src/subnetDistributor.ts:51-53 | when the zone calls fail, construction fails with their error (apart from a /32 base in Python, which `PlanCases` covers) |
| `Distribution.PlanPublicsFail` | src/subnetDistributor.ts:59-62 | with room for the halves but not the public share, construction fails with `NotEnoughBits(publicBits, 32 - (zonePrefix + 1))` |
| `Distribution.ZoneError` | src/subnetDistributor.ts:51-53 | when no zone call fails, the base parses, its prefix leaves room for the zone bits, and (where host bits are checked) it is aligned |
| `Distribution.FormatAll` | src/subnetDistributor.ts:55-62 | the rendered list has one text per block, in order |
| `Sequences.Range` | src/subnetDistributor.ts:51 | `[...Array(n).keys()]` is `0, 1, ..., n - 1` |
| `Sequences.MapResult` | src/subnetDistributor.ts:51-62 | a `map` whose callbacks all return has one result per element |
| `Sequences.MapResultOk` | src/subnetDistributor.ts:51-62 | `map` with a throwing callback succeeds exactly when every call succeeds, and then holds each call's result in order |
| `Sequences.MapResultFirstFailure` | src/subnetDistributor.ts:51-62 | a failed `map` throws the error of the first element whose call fails |
| `Sequences.MapResultValues` | src/subnetDistributor.ts:51-62 | when each call returns the matching entry of a list, `map` returns that list |
| `Sequences.MapResultUniformError` | src/subnetDistributor.ts:51-62 | when every call throws the same error, so does `map` |
| `Sequences.MapResultAppend` | python/jen20_pulumi_aws_vpc/subnet_distributor.py:41-43 | mapping a concatenation maps the first part, then the second, the first error aborting |
| `Sequences.MapResultRangeSnoc` | nodejs/dist/subnetDistributor.js:24-26 | one more `push` of the zone loop extends the mapped zones by the call on i, or stops at its error |
| `Sequences.MapResultRangeStop` | nodejs/dist/subnetDistributor.js:24-26 | once a zone call throws, the whole zone stage has that error |
| `Sequences.ToArray` | src/subnetDistributor.ts:70 | `slice()` is a fresh array with the same entries |
| `Pipeline.ZoneTextFits` | src/cidr.ts:28-33 | for zone numbers below 2^zoneBits and a base below 2^32, `fromBigInteger` never exceeds 32 bits |
| `Pipeline.ZoneStepOf` | src/subnetDistributor.ts:51-53 | one zone call either throws the error every zone call throws, or renders zone i |
| `Pipeline.ZoneBasesStage` | src/subnetDistributor.ts:51-53 | the zone `map` throws that shared error, or renders the azCount zones in order |
| `Pipeline.SubOfParsed` | src/cidr.ts:22-35 | on text that reads as a block, only the bit budget can fail, and otherwise the child is rendered |
| `Pipeline.PrivateStepOf` | src/subnetDistributor.ts:55-57 | `subnetV4(block, 1, 0)` on a rendered zone fails for a /32 zone, and otherwise gives the zone's private block |
| `Pipeline.PublicStepThen` | src/subnetDistributor.ts:59-62 | the public callback is its second call on the text its first call returns |
| `Pipeline.UpperHalfCall` | src/subnetDistributor.ts:60 | `subnetV4(private, 0, 1)` renders the zone's upper half |
| `Pipeline.PublicShareCall` | src/subnetDistributor.ts:61 | the second call fails with `NotEnoughBits(publicBits, ...)` or renders the zone's public block |
| `Pipeline.PrivatesStage` | src/subnetDistributor.ts:55-57 | the private `map` over rendered zones of one prefix fails for /32 zones, and otherwise renders their private blocks |
| `Pipeline.PublicsStage` | src/subnetDistributor.ts:59-62 | the public `map` fails with the public share's NotEnoughBits, or renders the public blocks |
| `Pipeline.PublicsFit` | src/cidr.ts:28-33 | after the zone and private stages, no public call exceeds 32 bits |
| `Pipeline.ZonesRendered` | src/subnetDistributor.ts:51-53 | with the zones in range, the zone stage gives the rendered zones, all of one prefix |
| `Pipeline.DistributeZonesFail` | src/subnetDistributor.ts:51-53 | when the zone calls throw, construction throws that error |
| `Pipeline.DistributePrivatesFail` | src/subnetDistributor.ts:55-57 | with /32 zones, construction fails at the private stage with `NotEnoughBits(1, 0)` |
| `Pipeline.StagesUntilPublicsFail` | src/subnetDistributor.ts:59-62 | with room for the halves but not the public share, the zone and private stages succeed and the public stage fails |
| `Pipeline.DistributePublicsFail` | src/subnetDistributor.ts:59-62 | in that case construction fails with the public share's NotEnoughBits |
| `Pipeline.DistributeSucceeds` | src/subnetDistributor.ts:48-63 | with room for both shares, construction yields the rendered private and public blocks |
| `Pipeline.MatchesWhenPrivatesFail` | src/subnetDistributor.ts:55-57 | no room to halve the zones: the constructor and `Plan` fail alike |
| `Pipeline.MatchesWhenPublicsFail` | src/subnetDistributor.ts:59-62 | no room for the public share: the constructor and `Plan` fail alike |
| `Pipeline.MatchesWhenBothFit` | src/subnetDistributor.ts:48-63 | room for both shares: the constructor and `Plan` give the same lists |
| `Pipeline.DistributeMatchesPlan` | src/subnetDistributor.ts:48-63 | with `newBitsPerAZ = log2(nextPow2(azCount))`, the TypeScript and Node.js constructors give exactly `Plan`: the same error or the same lists |
| `PythonDistributor.CallOfParsed` | python/jen20_pulumi_aws_vpc/subnet_distributor.py:27-28 | `__cidr_subnet` on aligned text: a /32 gives itself at index 0 and IndexError past it; otherwise too many bits is a ValueError, an index past 2^k an IndexError, and any other index the rendered child |
| `PythonDistributor.ZoneCallOf` | python/jen20_pulumi_aws_vpc/subnet_distributor.py:41 | one zone call on a /32 base gives the base for zone 0 and IndexError for any other; otherwise it raises the error every zone call raises, or renders zone i |
| `PythonDistributor.FullBaseZones` | python/jen20_pulumi_aws_vpc/subnet_distributor.py:41 | the zone comprehension over a /32 base gives the base alone for one zone and raises IndexError at zone 1 for more |
| `PythonDistributor.ZonesStage` | python/jen20_pulumi_aws_vpc/subnet_distributor.py:41 | the zone comprehension: as `FullBaseZones` on a /32 base; otherwise the shared error, or the zones rendered in order |
| `PythonDistributor.PrivateCall` | python/jen20_pulumi_aws_vpc/subnet_distributor.py:36-37 | `__make_private_subnet` on an aligned zone never fails: a /32 zone comes back itself, any other gives its lower half |
| `PythonDistributor.PrivatesStage` | python/jen20_pulumi_aws_vpc/subnet_distributor.py:42 | the private comprehension returns the zones themselves when they are /32, and otherwise their rendered lower halves |
| `PythonDistributor.UpperHalfCall` | python/jen20_pulumi_aws_vpc/subnet_distributor.py:32 | `__cidr_subnet(block, 1, 1)` on an aligned zone below /32 renders its aligned upper half |
| `PythonDistributor.NoUpperHalf` | python/jen20_pulumi_aws_vpc/subnet_distributor.py:32 | on a /32 zone, `__make_public_subnet` raises IndexError, since `subnets(1)` lists only the zone itself |
| `PythonDistributor.PublicShareCall` | python/jen20_pulumi_aws_vpc/subnet_distributor.py:33 | `__cidr_subnet(split_base, 1, 0)` on the upper half renders the zone's public block: a quarter of the zone, or the whole upper half of a /31 zone |
| `PythonDistributor.PublicThen` | python/jen20_pulumi_aws_vpc/subnet_distributor.py:31-33 | `__make_public_subnet` is its second call on what its first call returns |
| `PythonDistributor.PublicsStage` | python/jen20_pulumi_aws_vpc/subnet_distributor.py:43 | the public comprehension raises IndexError for /32 zones, and otherwise renders the public blocks |
| `PythonDistributor.DistributeOnFullBase` | python/jen20_pulumi_aws_vpc/subnet_distributor.py:39-43 | on a /32 base construction raises IndexError, at zone 1 or, with one zone, at the public comprehension |
| `PythonDistributor.DistributeZonesFail` | python/jen20_pulumi_aws_vpc/subnet_distributor.py:41 | on a base that is not a /32, when the zone calls raise, construction raises that error |
| `PythonDistributor.ZonesRendered` | python/jen20_pulumi_aws_vpc/subnet_distributor.py:41 | with the zones in range, the zone comprehension gives the rendered zones, which are aligned and of one prefix |
| `PythonDistributor.StagesWithFullZones` | python/jen20_pulumi_aws_vpc/subnet_distributor.py:41-43 | with /32 zones the zone comprehension succeeds, the private one returns the zones themselves, and the public one raises IndexError |
| `PythonDistributor.DistributeFullZones` | python/jen20_pulumi_aws_vpc/subnet_distributor.py:39-43 | so with /32 zones construction raises IndexError |
| `PythonDistributor.DistributeSucceeds` | python/jen20_pulumi_aws_vpc/subnet_distributor.py:39-43 | with zones of at most /31, construction yields the rendered private and public blocks, with the /31 case's whole upper half as public block |
| `PythonDistributor.MatchesOnFullBase` | python/jen20_pulumi_aws_vpc/subnet_distributor.py:39-43 | a /32 base: construction and `Plan` both raise IndexError |
| `PythonDistributor.MatchesWhenZonesFail` | python/jen20_pulumi_aws_vpc/subnet_distributor.py:41 | failing zone calls on a base that is not a /32: construction and `Plan` fail alike, including HostBitsSet for a base with host bits |
| `PythonDistributor.MatchesWhenZonesFull` | python/jen20_pulumi_aws_vpc/subnet_distributor.py:39-43 | /32 zones: construction and `Plan` both raise IndexError |
| `PythonDistributor.MatchesWhenZonesSplit` | python/jen20_pulumi_aws_vpc/subnet_distributor.py:39-43 | zones of at most /31: construction and `Plan` give the same lists |
| `PythonDistributor.ConstructMatchesPlan` | python/jen20_pulumi_aws_vpc/subnet_distributor.py:39-43 | `SubnetDistributor(base_cidr, az_count)` raises exactly `Plan`'s error or holds exactly its lists, for every input |
| `TypeScriptDistributor.SubnetDistributor.constructor` | src/subnetDistributor.ts:17-18 | the two read-only fields are new, distinct arrays holding the computed lists |
| `TypeScriptDistributor.SubnetDistributor.FixedCount` | src/subnetDistributor.ts:43-63 | `fixedCount` throws exactly when `Plan` fails, with the same error; otherwise the new distributor's arrays hold `Plan`'s private and public lists |
| `TypeScriptDistributor.SubnetDistributor.PrivateSubnets` | src/subnetDistributor.ts:69-71 | returns a fresh array with the stored private list |
| `TypeScriptDistributor.SubnetDistributor.PublicSubnets` | src/subnetDistributor.ts:77-79 | returns a fresh array with the stored public list |
| `TypeScriptDistributor.OverwriteCopy` | src/subnetDistributor.ts:69-71 | a caller that writes into the returned list leaves the distributor's lists unchanged, and asking again gives the original list |
| `NodeDistributor.ZoneStepCall` | nodejs/dist/subnetDistributor.js:25 | the loop body's call is the zone callback applied to i |
| `NodeDistributor.ZoneBases` | nodejs/dist/subnetDistributor.js:23-26 | the `for` loop of `push`es gives the zone texts in index order, or the first thrown error, the same as a throwing `map` over `0..azCount-1` |
| `NodeDistributor.ZoneLoopOutcome` | nodejs/dist/subnetDistributor.js:27-33 | after the zone loop, its error is `Plan`'s error, or the two `map`s give `Plan`'s result |
| `NodeDistributor.SubnetDistributor.constructor` | nodejs/dist/subnetDistributor.js:27-33 | the two fields are new, distinct arrays holding the mapped lists |
| `NodeDistributor.SubnetDistributor.Construct` | nodejs/dist/subnetDistributor.js:21-34 | `new SubnetDistributor` throws exactly when `Plan` fails, with the same error; otherwise the arrays hold `Plan`'s lists |
| `NodeDistributor.SubnetDistributor.PrivateSubnets` | nodejs/dist/subnetDistributor.js:39-41 | returns the stored private array itself, not a copy |
| `NodeDistributor.SubnetDistributor.PublicSubnets` | nodejs/dist/subnetDistributor.js:46-48 | returns the stored public array itself, not a copy |
| `NodeDistributor.OverwriteReturned` | nodejs/dist/subnetDistributor.js:39-41 | a caller that writes entry 0 of the returned list changes the distributor's own private list at entry 0, and nothing else |
| `Examples.HalfSplitLower` | test/cidr.spec.ts:8-9 | `subnetV4("10.0.0.0/18", 1, 0)` is `"10.0.0.0/19"` |
| `Examples.HalfSplitUpper` | test/cidr.spec.ts:10-11 | `subnetV4("10.0.0.0/18", 1, 1)` is `"10.0.32.0/19"` |
| `Examples.HalfSplitOfUpper` | test/cidr.spec.ts:12-13 | `subnetV4("10.0.32.0/19", 1, 0)` is `"10.0.32.0/20"` |
| `Examples.MaskRequiredExample` | test/cidr.spec.ts:18 | `subnetV4("10.0.0.0", 1, 0)` fails with MaskRequired |
| `Examples.NotEnoughBitsExample` | test/cidr.spec.ts:22 | `subnetV4("10.0.0.16/18", 19, 0)` fails with `NotEnoughBits(19, 14)` |
| `Examples.InvalidRangeExample` | test/cidr.spec.ts:26 | `subnetV4("10.300.0.16/18", 19, 0)` fails with InvalidRange before the bit count is looked at |
| `Examples.OctetOutOfRange` | test/cidr.spec.ts:26 | `"300"` is not an octet |
| `Examples.ParseOutOfRangeText` | test/cidr.spec.ts:26 | `"10.300.0.16/18"` contains a '/' but does not parse |
| `Examples.ParseUnaligned` | test/cidr.spec.ts:22 | `"10.0.0.16/18"` parses as written, host bits included |
| `Examples.Slash16Blocks` | test/subnetDistributor.spec.ts:8-20 | for 10.0.0.0/16 and four zones, the private blocks are the /19s at 10.0.0, 10.0.64, 10.0.128 and 10.0.192, and the public blocks start 32 above each |
| `Examples.Slash20Blocks` | nodejs/tests/subnetDistributor.spec.ts:30-44 | for 10.0.0.0/20 and four zones, the private blocks are the /23s at 10.0.0, 10.0.4, 10.0.8 and 10.0.12, and the public blocks are the /24s two above each |
| `Examples.TypeScriptSlash16` | test/subnetDistributor.spec.ts:7-20 | the TypeScript plan for 10.0.0.0/16 and four zones is the test's four /19 private and four /21 public subnets |
| `Examples.QuarterSlash16` | nodejs/tests/subnetDistributor.spec.ts:14-28 | the Node.js plan for 10.0.0.0/16 and four zones is the test's /19 private and /20 public subnets, and the Python constructor gives the same (python/tests/test_subnet_distributor.py:13-26) |
| `Examples.FullBlockSubnets` | python/jen20_pulumi_aws_vpc/subnet_distributor.py:27-28 | `__cidr_subnet("10.0.0.0/32", 1, 0)` is the block itself, and index 1 raises IndexError |
| `Examples.PythonSlash31` | python/jen20_pulumi_aws_vpc/subnet_distributor.py:39-43 | `SubnetDistributor("10.0.0.0/31", 1)` holds private `10.0.0.0/32` and public `10.0.0.1/32` |
| `Examples.PythonSlash32TwoZones` | python/jen20_pulumi_aws_vpc/subnet_distributor.py:39-43 | `SubnetDistributor("10.0.0.0/32", 2)` raises IndexError |
| `Examples.QuarterSlash20` | python/tests/test_subnet_distributor.py:28-41 | the Node.js plan and the Python constructor for 10.0.0.0/20 and four zones both give the tests' /23 private and /24 public subnets |

## Left out

- `perAz` (src/subnetDistributor.ts:27-34): it asks AWS for the availability zones and then calls the constructor. The network call is not modelled; the constructor it calls is.
- The `async`/`Promise` wrappers of the TypeScript getters: the model returns the value the promise resolves to.
- Pulumi resource code (`vpc.py`, `iam_helpers.py`, the `index` files), `setup.py`, the `.d.ts` declarations and the example programs: none of them takes part in the subnet arithmetic.
- `Math.log2` and `math.log(x, 2)` are floating point. The model uses the exact `Log2`. Both are only ever applied to a power of two. `Math.log2` returns the exact exponent for those. `math.log(x, 2)` is not always exact: `math.log(2**29, 2)` is `29.000000000000004`. On powers of two it errs only upwards, by less than one, so `int()` truncates it back to the exponent.
- Thrown exceptions (`Error`, `ValueError`, `IndexError`) become `Err` values of `CidrError`. Their message texts are not modelled. `NotEnoughBits` carries the numbers of the JavaScript message (bits requested, bits available). Python's `ValueError` reports the new prefix length instead, and the model gives it the JavaScript numbers. `HostBitsSet` and `IndexOutOfRange` carry no numbers.
- The `ip-address` and `ipaddress` libraries are not part of this model. Parsing is modelled as plain dotted-quad text with an optional decimal `/len`. Other forms the libraries accept, such as Python's netmask after the '/', are not covered.
- `Ipv4.ParseOctet`, `Ipv4.ParsePrefix`: accept a numeral of any length, leading zeros included (`"0010"` reads as 10). `ip-address` allows at most three digits per octet and two for the length. Python's `ipaddress` allows at most three characters per octet and, in current versions, no leading zero. The model accepts such texts where the libraries refuse them.
- `PowerOfTwo.NextPow2`: requires n <= 2^31. JavaScript's bitwise operators work on 32-bit signed integers, so larger counts give a result that is not a power of two.
- `TypeScriptDistributor.SubnetDistributor.FixedCount`: requires azCount <= 2^31 (for the same reason) and a base that does not run past 255.255.255.255 (`BaseFits`). `Address4.fromBigInteger` on an address of 2^32 or more is not modelled.
- `NodeDistributor.SubnetDistributor.Construct`: the same two preconditions as `FixedCount`.
- `Pipeline.DistributeMatchesPlan`: covers the two JavaScript variants. It does not check host bits; the Python constructor, which does, has its own proof (`PythonDistributor.ConstructMatchesPlan`).
- `Cidr.CidrSubnetV4` and `Cidr.SubnetV4`: require `TextFits`, meaning the computed address stays below 2^32. Every call the distributors make meets this for a base that fits (`Pipeline.ZoneTextFits`, `Pipeline.PublicsFit`).
- With `az_count = 0` the Python bit count is 1 rather than JavaScript's 0. No call reads it, since both lists are then empty; `PythonDistributor.ConstructMatchesPlan` covers this case.
- test/cidr.spec.ts:14 computes `subnetV4("10.0.48.0/20", 1, 0)` without checking the result, so there is no example for it.
