/**
 * Outbound address checks (services/api/src/lib/ssrf.ts). `Number(part)` and
 * `isIP` are parameters; addresses are 32-bit words.
 */
module Ssrf {
  import opened Common
  import opened Text
  import opened Cidr

  /** `Number(text)`: `None` when it is not an integer. */
  type ReadNumber = string -> Option<int>

  /** Plain decimals of octets are read as written; nothing is assumed of any other text. */
  ghost predicate ReadsDecimals(number: ReadNumber) {
    forall n: nat :: n <= 255 ==> number(Decimal(n)) == Some(n)
  }

  // ------------------------------------------------------------ dotted quads

  function Accumulate(value: bv32, octet: bv8): bv32 {
    (value << 8) | (octet as bv32)
  }

  function Octet(number: ReadNumber, part: string): Option<bv8> {
    match number(part)
    case None => None
    case Some(n) => if 0 <= n <= 255 then Some(n as bv8) else None
  }

  function ParseFrom(number: ReadNumber, parts: seq<string>, value: bv32): Option<bv32> {
    if parts == [] then Some(value)
    else match Octet(number, parts[0])
      case None => None
      case Some(octet) => ParseFrom(number, parts[1..], Accumulate(value, octet))
  }

  function Ipv4ToInt(number: ReadNumber, address: string): Option<bv32> {
    var parts := Split(address, '.');
    if |parts| != 4 then None else ParseFrom(number, parts, 0)
  }

  method ParseIpv4(number: ReadNumber, address: string) returns (result: Option<bv32>)
    ensures result == Ipv4ToInt(number, address)
  {
    var parts := Split(address, '.');
    if |parts| != 4 {
      return None;
    }
    var value: bv32 := 0;
    for i := 0 to |parts|
      invariant ParseFrom(number, parts[i..], value) == ParseFrom(number, parts, 0)
    {
      assert parts[i..][0] == parts[i] && parts[i..][1..] == parts[i + 1..];
      var octet := Octet(number, parts[i]);
      if octet.None? {
        return None;
      }
      value := Accumulate(value, octet.value);
    }
    result := Some(value);
  }

  /** The word with these four bytes, most significant first. */
  function Word(a: bv8, b: bv8, c: bv8, d: bv8): bv32 {
    ((a as bv32) << 24) | ((b as bv32) << 16) | ((c as bv32) << 8) | (d as bv32)
  }

  function Quad(a: bv8, b: bv8, c: bv8, d: bv8): string {
    Join([Decimal(a as nat), Decimal(b as nat), Decimal(c as nat), Decimal(d as nat)], '.')
  }

  function ByteAt(value: bv32, shift: bv6): bv8
    requires shift <= 24
  {
    ((value >> shift) & 0xff) as bv8
  }

  /** The dotted quad of a 32-bit address. */
  function Print(value: bv32): string {
    Quad(ByteAt(value, 24), ByteAt(value, 16), ByteAt(value, 8), ByteAt(value, 0))
  }

  lemma BytesMakeWord(value: bv32)
    ensures Word(ByteAt(value, 24), ByteAt(value, 16), ByteAt(value, 8), ByteAt(value, 0))
         == value
  {
  }

  lemma DecimalDotless(n: nat)
    ensures '.' !in Decimal(n)
  {
    var s := Decimal(n);
    assert forall i :: 0 <= i < |s| ==> IsDigit(s[i]);
  }

  lemma OctetRead(number: ReadNumber, b: bv8)
    requires ReadsDecimals(number)
    ensures Octet(number, Decimal(b as nat)) == Some(b)
  {
    hide Decimal;
    assert number(Decimal(b as nat)) == Some(b as nat);
    assert (b as int) as bv8 == b;
  }

  lemma QuadParses(number: ReadNumber, a: bv8, b: bv8, c: bv8, d: bv8)
    requires ReadsDecimals(number)
    ensures Ipv4ToInt(number, Quad(a, b, c, d)) == Some(Word(a, b, c, d))
  {
    hide Decimal, Join, Split, Accumulate, Word, Octet, ReadsDecimals;
    var parts := [Decimal(a as nat), Decimal(b as nat), Decimal(c as nat), Decimal(d as nat)];
    DecimalDotless(a as nat);
    DecimalDotless(b as nat);
    DecimalDotless(c as nat);
    DecimalDotless(d as nat);
    SplitJoin(parts, '.');
    OctetRead(number, a);
    OctetRead(number, b);
    OctetRead(number, c);
    OctetRead(number, d);
    ParseFour(number, parts, a, b, c, d);
    AccumulateFour(a, b, c, d);
  }

  /** Parsing inverts printing for every 32-bit address. */
  lemma PrintParses(number: ReadNumber, value: bv32)
    requires ReadsDecimals(number)
    ensures Ipv4ToInt(number, Print(value)) == Some(value)
  {
    hide Quad, Word, Ipv4ToInt;
    QuadParses(number, ByteAt(value, 24), ByteAt(value, 16), ByteAt(value, 8), ByteAt(value, 0));
    BytesMakeWord(value);
  }

  lemma ParseFour(number: ReadNumber, parts: seq<string>, a: bv8, b: bv8, c: bv8, d: bv8)
    requires |parts| == 4
    requires Octet(number, parts[0]) == Some(a) && Octet(number, parts[1]) == Some(b)
    requires Octet(number, parts[2]) == Some(c) && Octet(number, parts[3]) == Some(d)
    ensures ParseFrom(number, parts, 0) == Some(Accumulate(Accumulate(Accumulate(Accumulate(0, a), b), c), d))
  {
    hide Accumulate, Octet;
    var (v1, v2) := (Accumulate(0, a), Accumulate(Accumulate(0, a), b));
    var (v3, v4) := (Accumulate(v2, c), Accumulate(Accumulate(v2, c), d));
    ParseNext(number, parts[0], parts[1..], 0, a);
    assert parts == [parts[0]] + parts[1..];
    ParseNext(number, parts[1], parts[2..], v1, b);
    assert parts[1..] == [parts[1]] + parts[2..];
    ParseNext(number, parts[2], parts[3..], v2, c);
    assert parts[2..] == [parts[2]] + parts[3..];
    ParseNext(number, parts[3], [], v3, d);
    assert parts[3..] == [parts[3]] + [];
  }

  lemma ParseNext(number: ReadNumber, part: string, rest: seq<string>, value: bv32, octet: bv8)
    requires Octet(number, part) == Some(octet)
    ensures ParseFrom(number, [part] + rest, value) == ParseFrom(number, rest, Accumulate(value, octet))
  {
    hide Accumulate, Octet;
    assert ([part] + rest)[1..] == rest;
  }

  lemma AccumulateFour(a: bv8, b: bv8, c: bv8, d: bv8)
    ensures Accumulate(Accumulate(Accumulate(Accumulate(0, a), b), c), d) == Word(a, b, c, d)
  {
  }

  predicate IsOctet(number: ReadNumber, part: string) {
    number(part).Some? && 0 <= number(part).value <= 255
  }

  lemma OctetIs(number: ReadNumber, part: string)
    ensures Octet(number, part) == if IsOctet(number, part) then Some(number(part).value as bv8) else None
  {
  }

  lemma {:induction false} ParseFromIff(number: ReadNumber, parts: seq<string>, value: bv32)
    ensures ParseFrom(number, parts, value).Some? <==> forall p <- parts :: IsOctet(number, p)
    decreases |parts|
  {
    if parts == [] {
    } else {
      hide Accumulate, Octet, IsOctet;
      OctetIs(number, parts[0]);
      if Octet(number, parts[0]).Some? {
        ParseFromIff(number, parts[1..], Accumulate(value, Octet(number, parts[0]).value));
      }
      assert parts == [parts[0]] + parts[1..];
    }
  }

  function AsByte(number: ReadNumber, part: string): bv8
    requires IsOctet(number, part)
  {
    number(part).value as bv8
  }

  /** The word has the octets the parts are read as, from the top byte down. */
  ghost predicate ReadsAs(number: ReadNumber, parts: seq<string>, value: bv32)
    requires |parts| == 4 && forall p <- parts :: IsOctet(number, p)
  {
    value == Word(
      AsByte(number, parts[0]), AsByte(number, parts[1]), AsByte(number, parts[2]), AsByte(number, parts[3]))
  }

  lemma FourRead(number: ReadNumber, parts: seq<string>)
    requires |parts| == 4 && forall p <- parts :: IsOctet(number, p)
    ensures ParseFrom(number, parts, 0).Some? && ReadsAs(number, parts, ParseFrom(number, parts, 0).value)
  {
    hide ParseFrom, Octet, IsOctet, Accumulate, Word;
    OctetIs(number, parts[0]);
    OctetIs(number, parts[1]);
    OctetIs(number, parts[2]);
    OctetIs(number, parts[3]);
    var (a, b) := (Octet(number, parts[0]).value, Octet(number, parts[1]).value);
    var (c, d) := (Octet(number, parts[2]).value, Octet(number, parts[3]).value);
    ParseFour(number, parts, a, b, c, d);
    AccumulateFour(a, b, c, d);
  }

  /** An address is exactly four parts that are read as octets, and its word is made of these. */
  lemma QuadIff(number: ReadNumber, parts: seq<string>)
    requires parts != [] && forall p <- parts :: '.' !in p
    ensures var value := Ipv4ToInt(number, Join(parts, '.'));
      && (value.Some? <==> |parts| == 4 && forall p <- parts :: IsOctet(number, p))
      && (value.Some? ==> ReadsAs(number, parts, value.value))
  {
    hide Join, Split, ParseFrom, IsOctet, ReadsAs;
    SplitJoin(parts, '.');
    ParseFromIff(number, parts, 0);
    if |parts| == 4 && forall p <- parts :: IsOctet(number, p) {
      FourRead(number, parts);
    }
  }

  // ---------------------------------------------------------------- CIDR blocks

  /** A network and its prefix length. */
  datatype Block = Block(a: bv8, b: bv8, c: bv8, d: bv8, prefix: bv6) {
    function Base(): bv32 {
      Word(a, b, c, d)
    }
  }

  const BLOCKED_V4: seq<Block> := [
    Block(0, 0, 0, 0, 8), Block(10, 0, 0, 0, 8), Block(100, 64, 0, 0, 10), Block(127, 0, 0, 0, 8),
    Block(169, 254, 0, 0, 16), Block(172, 16, 0, 0, 12), Block(192, 0, 0, 0, 24), Block(192, 0, 2, 0, 24),
    Block(192, 168, 0, 0, 16), Block(198, 18, 0, 0, 15), Block(198, 51, 100, 0, 24), Block(203, 0, 113, 0, 24),
    Block(224, 0, 0, 0, 4), Block(240, 0, 0, 0, 4)
  ]

  predicate Aligned(block: Block) {
    block.prefix <= 32 && AlignedBase(block.Base(), block.prefix)
  }

  lemma TableAligned()
    ensures forall i :: 0 <= i < |BLOCKED_V4| ==> Aligned(BLOCKED_V4[i])
  {
    EntriesAligned();
    hide Aligned;
  }

  lemma EntriesAligned()
    ensures Aligned(Block(0, 0, 0, 0, 8)) && Aligned(Block(10, 0, 0, 0, 8)) && Aligned(Block(100, 64, 0, 0, 10))
    ensures Aligned(Block(127, 0, 0, 0, 8)) && Aligned(Block(169, 254, 0, 0, 16)) && Aligned(Block(172, 16, 0, 0, 12))
    ensures Aligned(Block(192, 0, 0, 0, 24)) && Aligned(Block(192, 0, 2, 0, 24)) && Aligned(Block(192, 168, 0, 0, 16))
    ensures Aligned(Block(198, 18, 0, 0, 15)) && Aligned(Block(198, 51, 100, 0, 24))
    ensures Aligned(Block(203, 0, 113, 0, 24)) && Aligned(Block(224, 0, 0, 0, 4)) && Aligned(Block(240, 0, 0, 0, 4))
  {
  }

  /** The union of the ranges of the blocks. */
  ghost predicate InSome(value: bv32, blocks: seq<Block>) {
    exists block <- blocks :: block.prefix <= 32 && Within(value, block.Base(), block.prefix)
  }

  ghost predicate Reserved(value: bv32) {
    InSome(value, BLOCKED_V4)
  }

  lemma OneOctet(a: bv8, b: bv8, c: bv8, d: bv8)
    ensures Within(Word(a, b, c, d), Word(0, 0, 0, 0), 8) <==> a == 0
    ensures Within(Word(a, b, c, d), Word(10, 0, 0, 0), 8) <==> a == 10
    ensures Within(Word(a, b, c, d), Word(127, 0, 0, 0), 8) <==> a == 127
  {
  }

  lemma Tails(a: bv8, b: bv8, c: bv8, d: bv8)
    ensures Within(Word(a, b, c, d), Word(224, 0, 0, 0), 4) <==> 224 <= a <= 239
    ensures Within(Word(a, b, c, d), Word(240, 0, 0, 0), 4) <==> 240 <= a
  {
  }

  lemma TwoOctets(a: bv8, b: bv8, c: bv8, d: bv8)
    ensures Within(Word(a, b, c, d), Word(169, 254, 0, 0), 16) <==> a == 169 && b == 254
    ensures Within(Word(a, b, c, d), Word(192, 168, 0, 0), 16) <==> a == 192 && b == 168
  {
  }

  lemma OctetRanges(a: bv8, b: bv8, c: bv8, d: bv8)
    ensures Within(Word(a, b, c, d), Word(100, 64, 0, 0), 10) <==> a == 100 && 64 <= b <= 127
    ensures Within(Word(a, b, c, d), Word(172, 16, 0, 0), 12) <==> a == 172 && 16 <= b <= 31
    ensures Within(Word(a, b, c, d), Word(198, 18, 0, 0), 15) <==> a == 198 && 18 <= b <= 19
  {
  }

  lemma ThreeOctets(a: bv8, b: bv8, c: bv8, d: bv8)
    ensures Within(Word(a, b, c, d), Word(192, 0, 0, 0), 24) <==> a == 192 && b == 0 && c == 0
    ensures Within(Word(a, b, c, d), Word(192, 0, 2, 0), 24) <==> a == 192 && b == 0 && c == 2
  {
  }

  lemma Documentation(a: bv8, b: bv8, c: bv8, d: bv8)
    ensures Within(Word(a, b, c, d), Word(198, 51, 100, 0), 24) <==> a == 198 && b == 51 && c == 100
    ensures Within(Word(a, b, c, d), Word(203, 0, 113, 0), 24) <==> a == 203 && b == 0 && c == 113
  {
  }

  predicate Covers(block: Block, value: bv32) {
    block.prefix <= 32 && Within(value, block.Base(), block.prefix)
  }

  lemma InSomeNext(value: bv32, blocks: seq<Block>, i: nat)
    requires i < |blocks|
    ensures InSome(value, blocks[i..]) <==> Covers(blocks[i], value) || InSome(value, blocks[i + 1..])
  {
    hide Within, Word;
    assert blocks[i..] == [blocks[i]] + blocks[i + 1..];
  }

  lemma InSomeSeven(value: bv32, blocks: seq<Block>, i: nat)
    requires i + 7 <= |blocks|
    ensures InSome(value, blocks[i..]) <==>
      || Covers(blocks[i], value) || Covers(blocks[i + 1], value) || Covers(blocks[i + 2], value)
      || Covers(blocks[i + 3], value) || Covers(blocks[i + 4], value) || Covers(blocks[i + 5], value)
      || Covers(blocks[i + 6], value) || InSome(value, blocks[i + 7..])
  {
    hide Covers, InSome;
    InSomeNext(value, blocks, i);
    InSomeNext(value, blocks, i + 1);
    InSomeNext(value, blocks, i + 2);
    InSomeNext(value, blocks, i + 3);
    InSomeNext(value, blocks, i + 4);
    InSomeNext(value, blocks, i + 5);
    InSomeNext(value, blocks, i + 6);
  }

  lemma FirstSeven(value: bv32)
    ensures InSome(value, BLOCKED_V4[0..]) <==>
      || Within(value, Word(0, 0, 0, 0), 8) || Within(value, Word(10, 0, 0, 0), 8)
      || Within(value, Word(100, 64, 0, 0), 10) || Within(value, Word(127, 0, 0, 0), 8)
      || Within(value, Word(169, 254, 0, 0), 16) || Within(value, Word(172, 16, 0, 0), 12)
      || Within(value, Word(192, 0, 0, 0), 24) || InSome(value, BLOCKED_V4[7..])
  {
    hide Within, Word, InSome;
    InSomeSeven(value, BLOCKED_V4, 0);
  }

  lemma LastSeven(value: bv32)
    ensures InSome(value, BLOCKED_V4[7..]) <==>
      || Within(value, Word(192, 0, 2, 0), 24) || Within(value, Word(192, 168, 0, 0), 16)
      || Within(value, Word(198, 18, 0, 0), 15) || Within(value, Word(198, 51, 100, 0), 24)
      || Within(value, Word(203, 0, 113, 0), 24) || Within(value, Word(224, 0, 0, 0), 4)
      || Within(value, Word(240, 0, 0, 0), 4) || InSome(value, BLOCKED_V4[14..])
  {
    hide Within, Word, InSome;
    InSomeSeven(value, BLOCKED_V4, 7);
  }

  /** The table, written out. */
  lemma InTable(value: bv32)
    ensures Reserved(value) <==>
      || Within(value, Word(0, 0, 0, 0), 8) || Within(value, Word(10, 0, 0, 0), 8)
      || Within(value, Word(100, 64, 0, 0), 10) || Within(value, Word(127, 0, 0, 0), 8)
      || Within(value, Word(169, 254, 0, 0), 16) || Within(value, Word(172, 16, 0, 0), 12)
      || Within(value, Word(192, 0, 0, 0), 24) || Within(value, Word(192, 0, 2, 0), 24)
      || Within(value, Word(192, 168, 0, 0), 16) || Within(value, Word(198, 18, 0, 0), 15)
      || Within(value, Word(198, 51, 100, 0), 24) || Within(value, Word(203, 0, 113, 0), 24)
      || Within(value, Word(224, 0, 0, 0), 4) || Within(value, Word(240, 0, 0, 0), 4)
  {
    FirstSeven(value);
    LastSeven(value);
    NothingCovers(value);
    hide Within, Word, InSome;
    assert BLOCKED_V4[0..] == BLOCKED_V4 && BLOCKED_V4[14..] == [];
  }

  lemma NothingCovers(value: bv32)
    ensures !InSome(value, [])
  {
  }

  /** Exactly the addresses refused: the special-purpose ranges, written by their octets. */
  lemma ReservedByOctets(a: bv8, b: bv8, c: bv8, d: bv8)
    ensures Reserved(Word(a, b, c, d)) <==>
      || a == 0 || a == 10 || a == 127 || 224 <= a
      || (a == 169 && b == 254) || (a == 172 && 16 <= b <= 31) || (a == 192 && b == 168)
      || (a == 100 && 64 <= b <= 127) || (a == 198 && 18 <= b <= 19)
      || (a == 192 && b == 0 && (c == 0 || c == 2)) || (a == 198 && b == 51 && c == 100)
      || (a == 203 && b == 0 && c == 113)
  {
    hide Within, Word, Reserved;
    InTable(Word(a, b, c, d));
    OneOctet(a, b, c, d);
    Tails(a, b, c, d);
    TwoOctets(a, b, c, d);
    OctetRanges(a, b, c, d);
    ThreeOctets(a, b, c, d);
    Documentation(a, b, c, d);
  }

  lemma NetworkIsInterval(value: bv32, block: Block)
    requires Aligned(block)
    ensures block.prefix <= 32
    ensures SameNetwork(value, block.Base(), block.prefix) <==> Within(value, block.Base(), block.prefix)
  {
    hide SameNetwork, Within, Word, Mask, AlignedBase;
    MaskIsInterval(value, block.Base(), block.prefix);
  }

  /** The loop over the table: is the value in one of the blocks? */
  method MatchesAny(number: ReadNumber, value: bv32, blocks: seq<Block>) returns (found: bool)
    requires ReadsDecimals(number) && forall i :: 0 <= i < |blocks| ==> Aligned(blocks[i])
    ensures found <==> InSome(value, blocks)
  {
    hide Ipv4ToInt, SameNetwork, Within, ReadsDecimals, Word, Quad, Aligned;
    for i := 0 to |blocks|
      invariant !InSome(value, blocks[..i])
    {
      var block := blocks[i];
      assert blocks[..i + 1] == blocks[..i] + [block];
      QuadParses(number, block.a, block.b, block.c, block.d);
      var base := ParseIpv4(number, Quad(block.a, block.b, block.c, block.d));
      NetworkIsInterval(value, block);
      if SameNetwork(value, base.value, block.prefix) {
        assert block in blocks;
        return true;
      }
    }
    assert blocks[..|blocks|] == blocks;
    found := false;
  }

  /** Blocked means unparseable or inside one of the listed ranges, and nothing else. */
  method IsBlockedV4(number: ReadNumber, address: string) returns (blocked: bool)
    requires ReadsDecimals(number)
    ensures var value := Ipv4ToInt(number, address);
      blocked <==> value.None? || Reserved(value.value)
  {
    hide Ipv4ToInt, InSome, Aligned, ReadsDecimals;
    var value := ParseIpv4(number, address);
    if value.None? {
      return true;
    }
    TableAligned();
    blocked := MatchesAny(number, value.value, BLOCKED_V4);
  }

  // ------------------------------------------------------------ vetting a target

  datatype Resolved = Resolved(address: string, family: nat)

  datatype VetError = Unresolvable | PrivateAddress

  /** How literals are classified (4, 6, or neither) and which IPv6 texts are blocked. */
  datatype Host = Host(number: ReadNumber, isIP: string -> nat, blockedV6: string -> bool)

  ghost predicate Blocked(host: Host, address: string) {
    var family := host.isIP(address);
    if family == 4 then
      var value := Ipv4ToInt(host.number, address);
      value.None? || Reserved(value.value)
    else if family == 6 then host.blockedV6(address)
    else true
  }

  method IsBlockedAddress(host: Host, address: string) returns (blocked: bool)
    requires ReadsDecimals(host.number)
    ensures blocked == Blocked(host, address)
  {
    var family := host.isIP(address);
    if family == 4 {
      blocked := IsBlockedV4(host.number, address);
    } else if family == 6 {
      blocked := host.blockedV6(address);
    } else {
      blocked := true;
    }
  }

  /** Every resolved address must pass; the one connected to is the first. */
  method Vet(host: Host, explicitlyAllowed: bool, resolved: seq<Resolved>) returns (r: Result<Resolved, VetError>)
    requires ReadsDecimals(host.number)
    ensures r.Ok? <==> resolved != [] && (explicitlyAllowed || forall e <- resolved :: !Blocked(host, e.address))
    ensures r.Ok? ==> r.value == resolved[0]
    ensures r.Ok? && !explicitlyAllowed && host.isIP(r.value.address) == 4 ==>
      var value := Ipv4ToInt(host.number, r.value.address); value.Some? && !Reserved(value.value)
  {
    hide Reserved, Ipv4ToInt;
    if |resolved| == 0 {
      return Err(Unresolvable);
    }
    if !explicitlyAllowed {
      for i := 0 to |resolved|
        invariant forall j :: 0 <= j < i ==> !Blocked(host, resolved[j].address)
      {
        var blocked := IsBlockedAddress(host, resolved[i].address);
        if blocked {
          assert resolved[i] in resolved;
          return Err(PrivateAddress);
        }
      }
    }
    r := Ok(resolved[0]);
  }

  /** Printed reserved addresses are refused and all others accepted: the masks cost no address. */
  lemma PrintedReserved(number: ReadNumber, value: bv32)
    requires ReadsDecimals(number)
    ensures var host := Host(number, _ => 4, _ => false); Blocked(host, Print(value)) <==> Reserved(value)
  {
    hide Reserved, Print, Ipv4ToInt;
    PrintParses(number, value);
  }
}
