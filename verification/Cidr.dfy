/**
 Addresses and address ranges (apps/api/src/auth/cidr.ts): what the parsers compute with shifts and masks,
 and what a matcher contains.
 */
module Cidr {
  import opened Wrappers
  import opened JsText
  import opened Bits

  const MAPPED := 0xffff_0000_0000

  // ----- Address values -----

  function Octet(part: string): (octet: Option<nat>)
    ensures octet.Some? ==> octet.value <= 255
  {
    if 1 <= |part| <= 3 && (forall i | 0 <= i < |part| :: IsDigit(part[i])) && Decimal(part) <= 255
    then Some(Decimal(part)) else None
  }

  predicate Octets(parts: seq<string>) {
    forall i | 0 <= i < |parts| :: Octet(parts[i]).Some?
  }

  /** The value of a list of octets, most significant first. */
  function OctetsValue(parts: seq<string>): nat
    requires Octets(parts)
  {
    if parts == [] then 0 else OctetsValue(parts[..|parts| - 1]) * 256 + Octet(parts[|parts| - 1]).value
  }

  /** The value of a dotted address of four octets. */
  function Ipv4(address: string): Option<nat> {
    var parts := Split(address, '.');
    if |parts| == 4 && Octets(parts) then Some(OctetsValue(parts)) else None
  }

  lemma {:induction false} OctetsBound(parts: seq<string>)
    requires Octets(parts)
    ensures OctetsValue(parts) < Pow2(8 * |parts|)
  {
    if parts != [] {
      OctetsBound(parts[..|parts| - 1]);
      Pow2Byte(8 * (|parts| - 1));
    }
  }

  lemma Pow2Byte(n: nat)
    ensures Pow2(n + 8) == 256 * Pow2(n)
  {
    assert Pow2(n + 8) == 2 * Pow2(n + 7) && Pow2(n + 7) == 2 * Pow2(n + 6) && Pow2(n + 6) == 2 * Pow2(n + 5);
    assert Pow2(n + 5) == 2 * Pow2(n + 4) && Pow2(n + 4) == 2 * Pow2(n + 3) && Pow2(n + 3) == 2 * Pow2(n + 2);
    assert Pow2(n + 2) == 2 * Pow2(n + 1) && Pow2(n + 1) == 2 * Pow2(n);
  }

  /** One turn of the loop: the shift wraps at 32 bits, but the low bits are what they should be. */
  lemma NextOctet(value: int, octet: int)
    requires 0 <= octet < 256 && ToUint32(value) < 0x100_0000
    ensures ToUint32(Or(ToInt32(ShiftLeft(value, 8)), octet)) == ToUint32(value) * 256 + octet
  {
    hide Or, ToInt32, ToUint32, ShiftLeft;
    ShiftByte(value);
    ShiftedByte(value);
    OrByte(ToInt32(value * 256), octet);
    SameWord(ToUint32(value) * 256 + octet, ToInt32(value * 256) + octet);
  }

  lemma ShiftByte(value: int)
    ensures ShiftLeft(value, 8) == value * 256
  {
    Pow2Byte(0);
  }

  lemma OrByte(x: int, octet: nat)
    requires x % 256 == 0 && octet < 256
    ensures Or(x, octet) == x + octet
  {
    hide Or;
    Pow2Byte(0);
    OrLow(x, octet, 8);
  }

  lemma ShiftedByte(value: int)
    requires ToUint32(value) < 0x100_0000
    ensures var s, shifted := ToInt32(value * 256), ToUint32(value) * 256;
            s % 256 == 0 && (s == shifted || s == shifted - WORD)
  {
    var u, q := value % WORD, value / WORD;
    assert value * 256 == u * 256 + (256 * q) * WORD;
    ToInt32Same(u * 256, 256 * q);
  }

  lemma ToInt32Same(x: nat, words: int)
    requires x < WORD
    ensures ToInt32(x + words * WORD) == x || ToInt32(x + words * WORD) == x - WORD
  {
  }

  lemma SameWord(a: nat, b: int)
    requires a < WORD && (b == a || b == a - WORD)
    ensures ToUint32(b) == a
  {
  }

  method ParseIpv4(address: string) returns (result: Option<nat>)
    ensures result == Ipv4(address)
  {
    var parts := Split(address, '.');
    if |parts| != 4 {
      return None;
    }
    var value: int := 0;
    for i := 0 to |parts|
      invariant Octets(parts[..i]) && ToUint32(value) == OctetsValue(parts[..i])
    {
      var part := parts[i];
      if !(1 <= |part| <= 3) || exists k | 0 <= k < |part| :: !IsDigit(part[k]) {
        return None;
      }
      var octet := Decimal(part);
      if octet > 255 {
        return None;
      }
      OctetsStillSmall(parts[..i]);
      NextOctet(value, octet);
      assert parts[..i + 1][..i] == parts[..i];
      value := Or(ToInt32(ShiftLeft(value, 8)), octet);
    }
    assert parts[..|parts|] == parts;
    return Some(ToUint32(value));
  }

  lemma OctetsStillSmall(parts: seq<string>)
    requires Octets(parts) && |parts| < 4
    ensures OctetsValue(parts) < 0x100_0000
  {
    OctetsBound(parts);
    Pow2Byte(0);
    Pow2Byte(8);
    Pow2Byte(16);
    assert Pow2(0) == 1;
  }

  /** One group of hexadecimal digits. */
  function Group(text: string): (group: Option<nat>) {
    if 1 <= |text| <= 4 && forall i | 0 <= i < |text| :: IsHex(text[i]) then Some(Hexadecimal(text)) else None
  }

  predicate Groups(pieces: seq<string>) {
    forall i | 0 <= i < |pieces| :: Group(pieces[i]).Some?
  }

  /** The groups on one side of the double colon; none if that side is empty. */
  function Expand(side: string): Option<seq<nat>> {
    if side == "" then Some([])
    else
      var pieces := Split(side, ':');
      if Groups(pieces) then Some(seq(|pieces|, i requires 0 <= i < |pieces| => Group(pieces[i]).value)) else None
  }

  /** The value of a list of 16-bit groups, most significant first. */
  function GroupsValue(groups: seq<nat>): nat {
    if groups == [] then 0 else GroupsValue(groups[..|groups| - 1]) * 65536 + groups[|groups| - 1]
  }

  function Zeros(n: nat): seq<nat> {
    seq(n, i => 0)
  }

  /** The eight groups of an address that is not written with a dotted tail. */
  function EightGroups(lower: string): (groups: Option<seq<nat>>)
    ensures groups.Some? ==> |groups.value| == 8
  {
    var halves := SplitColons(lower);
    if |halves| > 2 then None
    else
      var left, right := Expand(halves[0]), if |halves| == 2 then Expand(halves[1]) else Some([]);
      if left.None? || right.None? then None
      else if |halves| == 2 && |left.value| + |right.value| > 8 then None
      else if |halves| == 1 && |left.value| != 8 then None
      else Some(left.value + Zeros(8 - |left.value| - |right.value|) + right.value)
  }

  const MAPPED_PREFIX := "::ffff:"

  /** The tail of an IPv4-mapped address: four runs of digits after the prefix. */
  function MappedTail(lower: string): Option<string> {
    if |lower| < 7 || lower[..7] != MAPPED_PREFIX then None
    else
      var parts := Split(lower[7..], '.');
      if |parts| == 4 && forall i | 0 <= i < 4 :: parts[i] != "" && forall k | 0 <= k < |parts[i]| :: IsDigit(parts[i][k])
      then Some(lower[7..]) else None
  }

  function Ipv6(address: string): Option<nat> {
    var lower := Lower(address);
    match MappedTail(lower)
    case Some(tail) => if Ipv4(tail).Some? then Some(Ipv4(tail).value + MAPPED) else None
    case None => if EightGroups(lower).Some? then Some(GroupsValue(EightGroups(lower).value)) else None
  }

  /** The canonical 128-bit value of any accepted spelling of an address. */
  function AddressValue(address: string): Option<nat> {
    if Ipv4(address).Some? then Some(Ipv4(address).value + MAPPED) else Ipv6(address)
  }

  predicate Small(groups: seq<nat>) {
    forall i | 0 <= i < |groups| :: groups[i] < 65536
  }

  lemma {:induction false} HexadecimalBound(text: string)
    requires forall i | 0 <= i < |text| :: IsHex(text[i])
    ensures Hexadecimal(text) < Pow2(4 * |text|)
  {
    if text != "" {
      HexadecimalBound(text[..|text| - 1]);
      Pow2Nibble(4 * (|text| - 1));
    }
  }

  lemma Pow2Nibble(n: nat)
    ensures Pow2(n + 4) == 16 * Pow2(n)
  {
    assert Pow2(n + 4) == 2 * Pow2(n + 3) && Pow2(n + 3) == 2 * Pow2(n + 2);
    assert Pow2(n + 2) == 2 * Pow2(n + 1) && Pow2(n + 1) == 2 * Pow2(n);
  }

  lemma GroupBound(text: string)
    requires Group(text).Some?
    ensures Group(text).value < 65536
  {
    HexadecimalBound(text);
    assert Pow2(0) == 1;
    Pow2Nibble(0);
    Pow2Nibble(4);
    Pow2Nibble(8);
    Pow2Nibble(12);
  }

  lemma ExpandSmall(side: string)
    requires Expand(side).Some?
    ensures Small(Expand(side).value)
  {
    if side != "" {
      var pieces := Split(side, ':');
      forall i | 0 <= i < |pieces| ensures Expand(side).value[i] < 65536 {
        GroupBound(pieces[i]);
      }
    }
  }

  lemma EightGroupsSmall(lower: string)
    requires EightGroups(lower).Some?
    ensures Small(EightGroups(lower).value)
  {
    var halves := SplitColons(lower);
    ExpandSmall(halves[0]);
    if |halves| == 2 {
      ExpandSmall(halves[1]);
    }
  }

  lemma {:induction false} GroupsValueBound(groups: seq<nat>)
    requires Small(groups)
    ensures GroupsValue(groups) < Pow2(16 * |groups|)
  {
    if groups != [] {
      GroupsValueBound(groups[..|groups| - 1]);
      Pow2Byte(16 * (|groups| - 1));
      Pow2Byte(16 * (|groups| - 1) + 8);
    }
  }

  lemma Ipv4Bound(address: string)
    requires Ipv4(address).Some?
    ensures Ipv4(address).value < WORD
  {
    OctetsBound(Split(address, '.'));
    assert Pow2(0) == 1;
    Pow2Byte(0);
    Pow2Byte(8);
    Pow2Byte(16);
    Pow2Byte(24);
  }

  lemma NextGroup(value: int, group: int)
    requires 0 <= group < 65536
    ensures Or(ShiftLeft(value, 16), group) == value * 65536 + group
  {
    assert Pow2(0) == 1;
    Pow2Byte(0);
    Pow2Byte(8);
    DivModUnique(value * 65536, 65536, value, 0);
    OrLow(value * 65536, group, 16);
  }

  method ParseIpv6(address: string) returns (result: Option<nat>)
    ensures result == Ipv6(address)
  {
    var lower := Lower(address);
    var mapped := MappedTail(lower);
    if mapped.Some? {
      var ipv4 := ParseIpv4(mapped.value);
      return if ipv4 == None then None else Some(ipv4.value + MAPPED);
    }
    var halves := SplitColons(lower);
    if |halves| > 2 {
      return None;
    }
    var left, right := Expand(halves[0]), if |halves| == 2 then Expand(halves[1]) else Some([]);
    if left == None || right == None {
      return None;
    }
    if |halves| == 2 && |left.value| + |right.value| > 8 {
      return None;
    }
    if |halves| == 1 && |left.value| != 8 {
      return None;
    }
    var groups := left.value + Zeros(8 - |left.value| - |right.value|) + right.value;
    EightGroupsSmall(lower);
    var value: nat := 0;
    for i := 0 to |groups|
      invariant value == GroupsValue(groups[..i])
    {
      NextGroup(value, groups[i]);
      assert groups[..i + 1][..i] == groups[..i];
      value := Or(ShiftLeft(value, 16), groups[i]);
    }
    assert groups[..|groups|] == groups;
    return Some(value);
  }

  // ----- Ranges and matchers -----

  datatype Range = Range(min: int, max: int)

  /** The source's masks: `~0` shifted left, as 32-bit integers. */
  function Ipv4Mask(prefixLength: nat): nat
    requires prefixLength <= 32
  {
    if prefixLength == 0 then 0 else ToUint32(ToInt32(ShiftLeft(Not(0), 32 - prefixLength)))
  }

  function Ipv4Masked(parsed: nat, mask: int): Range {
    var min := ToUint32(And(ToInt32(parsed), ToInt32(mask)));
    Range(min, ToUint32(Or(ToInt32(min), Not(ToInt32(mask)))))
  }

  function Ipv4Range(prefix: string, prefixLength: int): Option<Range> {
    var parsed := Ipv4(prefix);
    if parsed == None || prefixLength < 0 || prefixLength > 32 then None
    else
      var masked := Ipv4Masked(parsed.value, Ipv4Mask(prefixLength));
      Some(Range(masked.min + MAPPED, masked.max + MAPPED))
  }

  const IPV6_MAX := Pow2(128) - 1

  /** The same on big integers, cut to 128 bits. */
  function Ipv6Mask(prefixLength: nat): int
    requires prefixLength <= 128
  {
    if prefixLength == 0 then 0 else And(ShiftLeft(Not(0), 128 - prefixLength), IPV6_MAX)
  }

  function Ipv6Range(prefix: string, prefixLength: int): Option<Range> {
    var parsed := Ipv6(prefix);
    if parsed == None || prefixLength < 0 || prefixLength > 128 then None
    else
      var mask := Ipv6Mask(prefixLength);
      var min := And(parsed.value, mask);
      Some(Range(min, Or(min, And(Not(mask), IPV6_MAX))))
  }

  predicate Contains(range: Range, candidate: string) {
    var value := AddressValue(candidate);
    value.Some? && range.min <= value.value <= range.max
  }

  /** The numbers that agree with `base` on all but the last k bits. */
  function Block(base: int, k: nat): Range {
    Range(base - base % Pow2(k), base - base % Pow2(k) + (Pow2(k) - 1))
  }

  lemma Pow2Values()
    ensures Pow2(32) == WORD && Pow2(31) == WORD / 2
  {
    Pow2Byte(0);
    Pow2Byte(8);
    Pow2Byte(16);
    Pow2Byte(24);
    assert Pow2(0) == 1 && Pow2(32) == 2 * Pow2(31);
  }

  lemma {:induction false} Pow2AtMost(a: nat, b: nat)
    requires a <= b
    ensures Pow2(a) <= Pow2(b)
    decreases b
  {
    if a < b {
      Pow2AtMost(a, b - 1);
    }
  }

  /** Whole words do not matter below bit 32. */
  lemma WholeWords(x: int, words: int, k: nat)
    requires k <= 32
    ensures (x + words * WORD) % Pow2(k) == x % Pow2(k)
  {
    assert WORD == Pow2(32 - k) * Pow2(k) by {
      Pow2Values();
      Pow2Sum(32 - k, k);
    }
    AddMultiples(x, words, WORD, Pow2(32 - k), Pow2(k));
  }

  lemma ToInt32Cases(x: nat)
    requires x < WORD
    ensures ToInt32(x) == x || ToInt32(x) == x + -1 * WORD
  {
  }

  lemma Mask32(parsed: int, k: nat)
    requires 0 <= parsed < WORD && k < 32
    ensures ToUint32(And(ToInt32(parsed), -Pow2(k))) == parsed - parsed % Pow2(k)
  {
    var x, r := ToInt32(parsed), parsed % Pow2(k);
    ToInt32Cases(parsed);
    WholeWords(parsed, -1, k);
    AndHigh(x, k);
    ModAtMost(parsed, Pow2(k));
    SameWord(parsed - r, x - r);
  }

  lemma RoomBelowWord(min: int, k: nat)
    requires 0 <= min < WORD && k < 32 && min % Pow2(k) == 0
    ensures min + Pow2(k) <= WORD
  {
    WholeWords(0, 1, k);
    DivModUnique(0, Pow2(k), 0, 0);
    MultiplesApart(min, WORD, Pow2(k));
  }

  lemma Fill32(min: int, k: nat)
    requires 0 <= min < WORD && k < 32 && min % Pow2(k) == 0
    ensures ToUint32(Or(ToInt32(min), Pow2(k) - 1)) == min + Pow2(k) - 1
  {
    var x, fill := ToInt32(min), Pow2(k) - 1;
    ToInt32Cases(min);
    WholeWords(min, -1, k);
    OrLow(x, fill, k);
    RoomBelowWord(min, k);
    SameWord(min + fill, x + fill);
  }

  lemma Negative32(p: int)
    requires 0 < p <= WORD / 2
    ensures ToInt32(ToUint32(ToInt32(-p))) == -p
  {
  }

  lemma Ipv4MaskValue(prefixLength: nat)
    requires 0 < prefixLength <= 32
    ensures ToInt32(Ipv4Mask(prefixLength)) == -Pow2(32 - prefixLength)
  {
    var k := 32 - prefixLength;
    assert Pow2(k) <= WORD / 2 by {
      Pow2Values();
      Pow2AtMost(k, 31);
    }
    assert ShiftLeft(Not(0), k) == -Pow2(k);
    Negative32(Pow2(k));
  }

  lemma MaskedEverything(parsed: nat)
    requires parsed < WORD
    ensures Ipv4Masked(parsed, 0) == Block(parsed, 32)
  {
    assert ToInt32(0) == 0 && ToUint32(0) == 0;
    AndZero(ToInt32(parsed));
    FillAll32();
    WholeBlock(parsed);
  }

  lemma MaskedBlock(parsed: nat, mask: int, k: nat)
    requires parsed < WORD && k < 32 && ToInt32(mask) == -Pow2(k)
    ensures Ipv4Masked(parsed, mask) == Block(parsed, k)
  {
    var min := parsed - parsed % Pow2(k);
    Mask32(parsed, k);
    assert 0 <= min < WORD && min % Pow2(k) == 0 by {
      ModAtMost(parsed, Pow2(k));
      RoundedDown(parsed, Pow2(k));
    }
    assert Not(-Pow2(k)) == Pow2(k) - 1;
    Fill32(min, k);
  }

  lemma Ipv4MaskedIsBlock(parsed: nat, prefixLength: nat)
    requires parsed < WORD && prefixLength <= 32
    ensures Ipv4Masked(parsed, Ipv4Mask(prefixLength)) == Block(parsed, 32 - prefixLength)
  {
    if prefixLength == 0 {
      MaskedEverything(parsed);
    } else {
      Ipv4MaskValue(prefixLength);
      MaskedBlock(parsed, Ipv4Mask(prefixLength), 32 - prefixLength);
    }
  }

  lemma FillAll32()
    ensures ToUint32(Or(ToInt32(0), Not(0))) == WORD - 1
  {
    assert Not(0) == -1 && Not(-1) == 0 && ToInt32(0) == 0;
    assert And(-1, 0) == 0;
    assert Or(0, -1) == -1;
  }

  lemma WholeBlock(parsed: nat)
    requires parsed < WORD
    ensures Block(parsed, 32) == Range(0, WORD - 1)
  {
    Pow2Values();
    DivModUnique(parsed, Pow2(32), 0, parsed);
  }

  lemma MappedBlock(parsed: nat, k: nat)
    requires k <= 32
    ensures Block(parsed + MAPPED, k) == Range(Block(parsed, k).min + MAPPED, Block(parsed, k).max + MAPPED)
  {
    WholeWords(parsed, 0xffff, k);
  }

  lemma Ipv4RangeIsBlock(prefix: string, prefixLength: int)
    ensures Ipv4Range(prefix, prefixLength)
            == if Ipv4(prefix).Some? && 0 <= prefixLength <= 32
               then Some(Block(Ipv4(prefix).value + MAPPED, 32 - prefixLength)) else None
  {
    if Ipv4(prefix).Some? && 0 <= prefixLength <= 32 {
      var parsed := Ipv4(prefix).value;
      Ipv4Bound(prefix);
      MappedBlock(parsed, 32 - prefixLength);
      Ipv4MaskedIsBlock(parsed, prefixLength);
    }
  }

  lemma Ipv6MaskValue(prefixLength: nat)
    requires prefixLength <= 128
    ensures Ipv6Mask(prefixLength) == Pow2(128) - Pow2(128 - prefixLength)
  {
    hide Pow2, And;
    if prefixLength > 0 {
      var p := Pow2(128 - prefixLength);
      Pow2AtMost(128 - prefixLength, 128);
      assert ShiftLeft(Not(0), 128 - prefixLength) == -p;
      AndLow(-p, 128);
      DivModUnique(-p, Pow2(128), -1, Pow2(128) - p);
    }
  }

  /** A number below a power of two is its own remainder. */
  lemma BelowPower(x: nat, n: nat)
    requires x < Pow2(n)
    ensures x % Pow2(n) == x
  {
    hide Pow2;
    DivModUnique(x, Pow2(n), 0, x);
  }

  lemma Ipv6Min(parsed: nat, mask: int, k: nat)
    requires parsed < Pow2(128) && k <= 128 && mask == Pow2(128) - Pow2(k)
    ensures And(parsed, mask) == Block(parsed, k).min
  {
    hide Pow2, And;
    AndMask(parsed, k, 128);
    BelowPower(parsed, 128);
  }

  lemma Ipv6Fill(mask: int, k: nat)
    requires k <= 128 && mask == Pow2(128) - Pow2(k)
    ensures And(Not(mask), IPV6_MAX) == Pow2(k) - 1
  {
    hide Pow2, And;
    Pow2AtMost(k, 128);
    AndLow(Not(mask), 128);
    DivModUnique(Not(mask), Pow2(128), -1, Pow2(k) - 1);
  }

  lemma Ipv6Max(parsed: nat, k: nat)
    ensures Or(Block(parsed, k).min, Pow2(k) - 1) == Block(parsed, k).max
  {
    RoundedDown(parsed, Pow2(k));
    OrLow(Block(parsed, k).min, Pow2(k) - 1, k);
  }

  lemma Ipv6RangeIsBlock(prefix: string, prefixLength: int)
    ensures Ipv6Range(prefix, prefixLength)
            == if Ipv6(prefix).Some? && 0 <= prefixLength <= 128
               then Some(Block(Ipv6(prefix).value, 128 - prefixLength)) else None
  {
    if Ipv6(prefix).Some? && 0 <= prefixLength <= 128 {
      Ipv6Bound(prefix);
      Ipv6MaskValue(prefixLength);
      Ipv6Min(Ipv6(prefix).value, Ipv6Mask(prefixLength), 128 - prefixLength);
      Ipv6Fill(Ipv6Mask(prefixLength), 128 - prefixLength);
      Ipv6Max(Ipv6(prefix).value, 128 - prefixLength);
    }
  }

  lemma MappedBound()
    ensures WORD + MAPPED <= Pow2(128)
  {
    assert Pow2(48) == 0x1_0000_0000_0000 by {
      Pow2Values();
      Pow2Byte(32);
      Pow2Byte(40);
    }
    Pow2AtMost(48, 128);
  }

  lemma Ipv6Bound(address: string)
    requires Ipv6(address).Some?
    ensures Ipv6(address).value < Pow2(128)
  {
    var lower := Lower(address);
    if MappedTail(lower).Some? {
      Ipv4Bound(MappedTail(lower).value);
      MappedBound();
    } else {
      EightGroupsSmall(lower);
      GroupsValueBound(EightGroups(lower).value);
    }
  }

  // ----- What a matcher means -----

  /** The i-th bit of a 128-bit value, the most significant first. */
  function Bit(value: nat, i: nat): nat
    requires i < 128
  {
    value / Pow2(127 - i) % 2
  }

  ghost predicate SameFirstBits(v: nat, w: nat, n: nat)
    requires n <= 128
  {
    forall i: nat | i < n :: Bit(v, i) == Bit(w, i)
  }

  lemma {:induction false} FirstBitsAreQuotient(v: nat, w: nat, n: nat)
    requires n <= 128 && v < Pow2(128) && w < Pow2(128)
    ensures SameFirstBits(v, w, n) <==> v / Pow2(128 - n) == w / Pow2(128 - n)
  {
    if n == 0 {
      DivModUnique(v, Pow2(128), 0, v);
      DivModUnique(w, Pow2(128), 0, w);
    } else {
      FirstBitsAreQuotient(v, w, n - 1);
      HalveQuotient(v, 128 - n);
      HalveQuotient(w, 128 - n);
      assert SameFirstBits(v, w, n) <==> SameFirstBits(v, w, n - 1) && Bit(v, n - 1) == Bit(w, n - 1);
    }
  }

  lemma AddressBound(address: string)
    requires AddressValue(address).Some?
    ensures AddressValue(address).value < Pow2(128)
  {
    if Ipv4(address).Some? {
      Ipv4Bound(address);
      MappedBound();
    } else {
      Ipv6Bound(address);
    }
  }

  /** How the language reads the spellings of a number that have a sign, a radix, a fraction or an exponent. */
  type NumberReader = string -> Option<int>

  /** The integer a text is read as: the empty text is zero, and digits are a decimal number. */
  function ReadNumber(other: NumberReader, text: string): Option<int> {
    var trimmed := Trim(text);
    if forall i | 0 <= i < |trimmed| :: IsDigit(trimmed[i]) then Some(Decimal(trimmed)) else other(trimmed)
  }

  /** One entry of the list: an address, and a prefix length if there is a slash. */
  datatype Entry = Entry(address: string, prefixLength: Option<int>)

  function ReadEntry(number: NumberReader, raw: string): Option<Entry> {
    var parts := Split(Trim(raw), '/');
    if Trim(raw) == "" || parts[0] == "" then None
    else if |parts| == 1 then Some(Entry(parts[0], None))
    else
      var prefixLength := ReadNumber(number, parts[1]);
      if prefixLength == None || prefixLength.value < 0 then None else Some(Entry(parts[0], prefixLength))
  }

  /** Without a slash an entry is a single address. */
  function PrefixLength(entry: Entry): int {
    if entry.prefixLength.Some? then entry.prefixLength.value else if ':' in entry.address then 128 else 32
  }

  /** The number of leading bits an entry fixes, counted in the 128-bit space. */
  function FixedBits(entry: Entry): int {
    if ':' in entry.address then PrefixLength(entry) else 96 + PrefixLength(entry)
  }

  function RangeOf(entry: Entry): Option<Range> {
    if ':' in entry.address then Ipv6Range(entry.address, PrefixLength(entry)) else Ipv4Range(entry.address, PrefixLength(entry))
  }

  lemma ColonIsNotIpv4(address: string)
    requires ':' in address
    ensures Ipv4(address) == None
  {
    SplitKeeps(address, '.', ':');
    var parts := Split(address, '.');
    var i :| 0 <= i < |parts| && ':' in parts[i];
    assert Octet(parts[i]) == None;
  }

  lemma NoColonIsNotIpv6(address: string)
    requires ':' !in address
    ensures Ipv6(address) == None
  {
    var lower := Lower(address);
    assert ':' !in lower;
    assert MappedTail(lower) == None by {
      if |lower| >= 7 {
        assert lower[..7][0] == lower[0];
      }
    }
    SplitColonsOnce(lower);
    SplitOnce(lower, ':');
  }

  lemma Ipv4Entry(address: string, prefixLength: int)
    requires ':' !in address
    ensures Ipv4Range(address, prefixLength)
            == if AddressValue(address).Some? && 0 <= prefixLength <= 32
               then Some(Block(AddressValue(address).value, 32 - prefixLength)) else None
  {
    NoColonIsNotIpv6(address);
    Ipv4RangeIsBlock(address, prefixLength);
  }

  lemma Ipv6Entry(address: string, prefixLength: int)
    requires ':' in address
    ensures Ipv6Range(address, prefixLength)
            == if AddressValue(address).Some? && 0 <= prefixLength <= 128
               then Some(Block(AddressValue(address).value, 128 - prefixLength)) else None
  {
    ColonIsNotIpv4(address);
    Ipv6RangeIsBlock(address, prefixLength);
  }

  /** The range of an entry is a block around its address's value. */
  lemma RangeIsBlock(entry: Entry)
    requires entry.prefixLength.Some? ==> entry.prefixLength.value >= 0
    ensures RangeOf(entry) == if AddressValue(entry.address).Some? && FixedBits(entry) <= 128
                              then Some(Block(AddressValue(entry.address).value, 128 - FixedBits(entry))) else None
  {
    if ':' in entry.address {
      Ipv6Entry(entry.address, PrefixLength(entry));
    } else {
      Ipv4Entry(entry.address, PrefixLength(entry));
    }
  }

  lemma InBlock(v: nat, w: nat, bits: nat)
    requires bits <= 128 && v < Pow2(128) && w < Pow2(128)
    ensures Block(w, 128 - bits).min <= v <= Block(w, 128 - bits).max <==> SameFirstBits(v, w, bits)
  {
    SameBlock(v, w, 128 - bits);
    FirstBitsAreQuotient(v, w, bits);
  }

  /**
   An entry yields a matcher exactly when its address parses and its prefix length fits; the matcher then
   contains exactly the addresses whose first bits, as many as the entry fixes, are those of its address.
   */
  lemma MatcherMeaning(entry: Entry, candidate: string)
    requires entry.prefixLength.Some? ==> entry.prefixLength.value >= 0
    ensures RangeOf(entry).Some? <==> AddressValue(entry.address).Some? && FixedBits(entry) <= 128
    ensures RangeOf(entry).Some? ==>
              (Contains(RangeOf(entry).value, candidate)
               <==> AddressValue(candidate).Some?
                    && SameFirstBits(AddressValue(candidate).value, AddressValue(entry.address).value, FixedBits(entry)))
  {
    RangeIsBlock(entry);
    if RangeOf(entry).Some? && AddressValue(candidate).Some? {
      AddressBound(entry.address);
      AddressBound(candidate);
      InBlock(AddressValue(candidate).value, AddressValue(entry.address).value, FixedBits(entry));
    }
  }

  lemma NotSpaces(c: char)
    ensures IsDigit(c) || c == '/' ==> !IsSpace(c)
  {
  }

  /** Digits, and what ends in a slash or in digits, have nothing to trim. */
  lemma NothingToTrim(text: string)
    requires text != "" ==> !IsSpace(text[0]) && (IsDigit(text[|text| - 1]) || text[|text| - 1] == '/')
    ensures Trim(text) == text
  {
    hide IsSpace, IsDigit;
    if text != "" {
      NotSpaces(text[|text| - 1]);
    }
  }

  lemma SplitEntry(raw: string, address: string, digits: string)
    requires raw == address + "/" + digits && '/' !in address && '/' !in digits
    ensures Split(raw, '/') == [address, digits]
  {
    hide Split;
    SplitAcross(address, digits, '/');
    SplitOnce(address, '/');
    SplitOnce(digits, '/');
  }

  lemma ReadDigits(number: NumberReader, digits: string)
    requires forall i | 0 <= i < |digits| :: IsDigit(digits[i])
    ensures '/' !in digits && ReadNumber(number, digits) == Some(Decimal(digits))
  {
    hide IsSpace;
    if digits != "" {
      NotSpaces(digits[0]);
    }
    NothingToTrim(digits);
  }

  /** An address, a slash and digits are read as they are written; without digits the prefix length is zero. */
  lemma EntryText(number: NumberReader, address: string, digits: string)
    requires address != "" && '/' !in address && !IsSpace(address[0])
    requires forall i | 0 <= i < |digits| :: IsDigit(digits[i])
    ensures ReadEntry(number, address + "/" + digits) == Some(Entry(address, Some(Decimal(digits))))
  {
    hide IsSpace, IsDigit, Trim, Split, ReadNumber, Decimal;
    var raw := address + "/" + digits;
    assert raw[0] == address[0] && raw[|raw| - 1] == if digits == "" then '/' else digits[|digits| - 1];
    NothingToTrim(raw);
    ReadDigits(number, digits);
    SplitEntry(raw, address, digits);
  }

  /** An address without a slash is a matcher for that one address, however it is spelled, if it is one at all. */
  lemma SingleAddress(number: NumberReader, address: string, candidate: string)
    requires address != "" && '/' !in address && Trim(address) == address
    ensures MatcherOf(number, address).Some? <==> AddressValue(address).Some?
    ensures AddressValue(address).Some? ==>
              (Contains(MatcherOf(number, address).value, candidate) <==> AddressValue(candidate) == AddressValue(address))
  {
    hide AddressValue, ReadEntry, RangeOf;
    PlainEntry(number, address);
    SingleRange(address);
  }

  lemma PlainEntry(number: NumberReader, address: string)
    requires address != "" && '/' !in address && Trim(address) == address
    ensures ReadEntry(number, address) == Some(Entry(address, None))
  {
    hide Split, Trim, ReadNumber;
    SplitOnce(address, '/');
  }

  lemma SingleRange(address: string)
    ensures RangeOf(Entry(address, None))
            == if AddressValue(address).Some? then Some(Range(AddressValue(address).value, AddressValue(address).value)) else None
  {
    hide AddressValue, RangeOf, Block;
    RangeIsBlock(Entry(address, None));
    if AddressValue(address).Some? {
      OneNumber(AddressValue(address).value);
    }
  }

  lemma OneNumber(value: nat)
    ensures Block(value, 0) == Range(value, value)
  {
    assert Pow2(0) == 1;
  }

  /** An IPv4 address followed by a bare slash is a matcher for every IPv4 address, however that is spelled. */
  lemma BareSlashContainsIpv4(number: NumberReader, address: string, candidate: string)
    requires Ipv4(address).Some?
    ensures MatcherOf(number, address + "/").Some?
    ensures Contains(MatcherOf(number, address + "/").value, candidate) <==> exists v: nat | v < WORD :: Denotes(candidate, v)
  {
    hide ReadEntry, RangeOf, AddressValue, Ipv4;
    DottedEntry(number, address);
    BareRange(address);
    if Contains(Range(MAPPED, MAPPED + WORD - 1), candidate) {
      assert Denotes(candidate, AddressValue(candidate).value - MAPPED);
    }
  }

  lemma BareRange(address: string)
    requires Ipv4(address).Some? && ':' !in address
    ensures RangeOf(Entry(address, Some(0))) == Some(Range(MAPPED, MAPPED + WORD - 1))
  {
    hide Ipv4, Ipv4Range, Block, Pow2;
    var value := Ipv4(address).value;
    Ipv4Bound(address);
    Ipv4RangeIsBlock(address, 0);
    MappedBlock(value, 32);
    WholeBlock(value);
  }

  lemma DottedEntry(number: NumberReader, address: string)
    requires Ipv4(address).Some?
    ensures ':' !in address && ReadEntry(number, address + "/") == Some(Entry(address, Some(0)))
  {
    DottedCharacters(address);
    NotEmpty(address);
    assert address[0] in address;
    EntryText(number, address, "");
    assert address + "/" + "" == address + "/";
  }

  lemma NotEmpty(address: string)
    requires Ipv4(address).Some?
    ensures address != ""
  {
  }

  function MatcherOf(number: NumberReader, raw: string): Option<Range> {
    var entry := ReadEntry(number, raw);
    if entry == None then None else RangeOf(entry.value)
  }

  function MatchersOf(number: NumberReader, entries: seq<string>): seq<Range> {
    if entries == [] then []
    else
      var last := MatcherOf(number, entries[|entries| - 1]);
      MatchersOf(number, entries[..|entries| - 1]) + (if last.Some? then [last.value] else [])
  }

  function Matchers(number: NumberReader, input: Option<string>): seq<Range> {
    if input == None || input.value == "" then [] else MatchersOf(number, Split(input.value, ','))
  }

  method ParseCidrs(number: NumberReader, input: Option<string>) returns (matchers: seq<Range>)
    ensures matchers == Matchers(number, input)
  {
    hide Trim, Split, ReadNumber, Ipv4Range, Ipv6Range;
    if input == None || input.value == "" {
      return [];
    }
    matchers := [];
    var entries := Split(input.value, ',');
    for i := 0 to |entries|
      invariant matchers == MatchersOf(number, entries[..i])
    {
      assert entries[..i + 1][..i] == entries[..i];
      var entry := Trim(entries[i]);
      if entry == "" {
        continue;
      }
      var parts := Split(entry, '/');
      var address := parts[0];
      if address == "" {
        continue;
      }
      var prefixLength := if |parts| == 1 then None else ReadNumber(number, parts[1]);
      if |parts| > 1 && (prefixLength == None || prefixLength.value < 0) {
        continue;
      }
      var range := if ':' in address
                   then Ipv6Range(address, if prefixLength.Some? then prefixLength.value else 128)
                   else Ipv4Range(address, if prefixLength.Some? then prefixLength.value else 32);
      if range == None {
        continue;
      }
      matchers := matchers + [range.value];
    }
    assert entries[..|entries|] == entries;
  }

  /** A list holds the matchers of its entries in order, nothing for one that does not parse; no list holds none. */
  lemma ListLaw(number: NumberReader, entry: string, rest: string)
    requires ',' !in entry
    ensures Matchers(number, None) == [] && Matchers(number, Some("")) == []
    ensures Matchers(number, Some(entry)) == if MatcherOf(number, entry).Some? then [MatcherOf(number, entry).value] else []
    ensures Matchers(number, Some(entry + "," + rest)) == Matchers(number, Some(entry)) + Matchers(number, Some(rest))
  {
    hide Split, MatcherOf;
    BlankEntry(number);
    SplitOnce(entry, ',');
    SplitOnce("", ',');
    SplitAcross(entry, rest, ',');
    MatchersOfBoth(number, [entry], Split(rest, ','));
    assert [entry][..0] == [] && [""][..0] == [];
  }

  lemma BlankEntry(number: NumberReader)
    ensures MatcherOf(number, "") == None
  {
  }

  lemma {:induction false} MatchersOfBoth(number: NumberReader, left: seq<string>, right: seq<string>)
    ensures MatchersOf(number, left + right) == MatchersOf(number, left) + MatchersOf(number, right)
  {
    if right == [] {
      assert left + right == left;
    } else {
      assert (left + right)[..|left + right| - 1] == left + right[..|right| - 1];
      MatchersOfBoth(number, left, right[..|right| - 1]);
    }
  }

  /** An entry without an address, or with a prefix length that is not a number from zero up, is skipped. */
  lemma SkippedEntry(number: NumberReader, address: string, prefix: string)
    requires '/' !in address && '/' !in prefix && Trim(address + "/" + prefix) == address + "/" + prefix
    requires address == "" || ReadNumber(number, prefix) == None || ReadNumber(number, prefix).value < 0
    ensures MatcherOf(number, address + "/" + prefix) == None
  {
    hide Trim, Split, ReadNumber, RangeOf;
    SplitEntry(address + "/" + prefix, address, prefix);
  }

  /** Space around an entry of the list changes nothing. */
  lemma SpaceAround(number: NumberReader, lead: string, entry: string, trail: string)
    requires entry != "" && !IsSpace(entry[0]) && !IsSpace(entry[|entry| - 1])
    requires (forall i | 0 <= i < |lead| :: IsSpace(lead[i])) && forall i | 0 <= i < |trail| :: IsSpace(trail[i])
    ensures MatcherOf(number, lead + entry + trail) == MatcherOf(number, entry)
  {
    hide IsSpace, Split, ReadNumber, RangeOf;
    TrimAround(lead, entry, trail);
    TrimAround("", entry, "");
    assert "" + entry + "" == entry;
  }

  // ----- The spellings of an IPv4 address -----

  /** The address is the IPv4 address with this 32-bit value. */
  ghost predicate Denotes(address: string, value: int) {
    AddressValue(address) == Some(MAPPED + value)
  }

  lemma DottedDenotes(address: string, value: nat)
    requires Ipv4(address) == Some(value)
    ensures Denotes(address, value)
  {
  }

  lemma MappedDenotes(address: string, tail: string)
    requires Ipv4(address) == None && MappedTail(Lower(address)) == Some(tail) && Ipv4(tail).Some?
    ensures Denotes(address, Ipv4(tail).value)
  {
  }

  lemma GroupsDenote(address: string, lower: string, value: int)
    requires Ipv4(address) == None && Lower(address) == lower && MappedTail(lower) == None && EightGroups(lower).Some?
    requires GroupsValue(EightGroups(lower).value) == MAPPED + value
    ensures Denotes(address, value)
  {
  }

  lemma DottedCharacters(address: string)
    requires Ipv4(address).Some?
    ensures forall c | c in address :: IsDigit(c) || c == '.'
    ensures Lower(address) == address
  {
    forall c | c in address && c != '.' ensures IsDigit(c) {
      SplitKeeps(address, '.', c);
      var parts := Split(address, '.');
      var i :| 0 <= i < |parts| && c in parts[i];
      assert Octet(parts[i]).Some?;
    }
    forall i | 0 <= i < |address| ensures LowerChar(address[i]) == address[i] {
      assert address[i] in address;
    }
    assert Lower(address) == address;
  }

  lemma AfterPrefix(prefix: string, rest: string)
    requires Lower(prefix) == MAPPED_PREFIX
    ensures Ipv4(prefix + rest) == None && Lower(prefix + rest) == MAPPED_PREFIX + Lower(rest)
  {
    var text := prefix + rest;
    LowerAcross(prefix, rest);
    assert Lower(prefix)[0] == ':' && prefix[0] == ':' && text[0] == ':';
    assert ':' in text;
    ColonIsNotIpv4(text);
  }

  lemma DottedTail(address: string)
    requires Ipv4(address).Some?
    ensures MappedTail(MAPPED_PREFIX + address) == Some(address)
  {
    var lower, parts := MAPPED_PREFIX + address, Split(address, '.');
    assert lower[..7] == MAPPED_PREFIX && lower[7..] == address;
    forall i | 0 <= i < 4 ensures parts[i] != "" && forall k | 0 <= k < |parts[i]| :: IsDigit(parts[i][k]) {
      assert Octet(parts[i]).Some?;
    }
  }

  /** A dotted address has the same value after the IPv4-mapped prefix, in either case. */
  lemma MappedDotted(prefix: string, address: string, text: string, value: nat)
    requires Lower(prefix) == MAPPED_PREFIX && Ipv4(address) == Some(value) && text == prefix + address
    ensures Denotes(text, value)
  {
    DottedCharacters(address);
    AfterPrefix(prefix, address);
    DottedTail(address);
    MappedDenotes(text, address);
  }

  lemma GroupCharacters(text: string)
    requires Group(text).Some?
    ensures text != "" && ':' !in text && '.' !in text
  {
  }

  lemma ExpandThree(side: string, a: string, b: string, c: string)
    requires side != "" && Split(side, ':') == [a, b, c]
    requires Group(a).Some? && Group(b).Some? && Group(c).Some?
    ensures Expand(side) == Some([Group(a).value, Group(b).value, Group(c).value])
  {
    var pieces := Split(side, ':');
    assert pieces[0] == a && pieces[1] == b && pieces[2] == c;
    assert Groups(pieces);
    assert Expand(side).value == [Group(a).value, Group(b).value, Group(c).value];
  }

  lemma SplitGroups(hi: string, lo: string)
    requires ':' !in hi && ':' !in lo
    ensures Split("ffff:" + hi + ":" + lo, ':') == ["ffff", hi, lo]
  {
    SplitAcross("ffff:" + hi, lo, ':');
    assert "ffff:" + hi == "ffff" + [':'] + hi;
    SplitAcross("ffff", hi, ':');
    SplitOnce("ffff", ':');
    SplitOnce(hi, ':');
    SplitOnce(lo, ':');
  }

  lemma SplitMapped(right: string)
    requires right != "" && right[0] != ':' && forall i | 0 <= i < |right| - 1 :: right[i] != ':' || right[i + 1] != ':'
    ensures SplitColons("::" + right) == ["", right]
  {
    assert ("::" + right)[2..] == right;
    SplitColonsOnce(right);
  }

  lemma HexGroups(hi: string, lo: string)
    requires Group(hi).Some? && Group(lo).Some?
    ensures EightGroups(MAPPED_PREFIX + hi + ":" + lo) == Some(Zeros(5) + [0xffff, Group(hi).value, Group(lo).value])
  {
    GroupCharacters(hi);
    GroupCharacters(lo);
    var right := "ffff:" + hi + ":" + lo;
    assert MAPPED_PREFIX + hi + ":" + lo == "::" + right;
    SplitMapped(right);
    SplitGroups(hi, lo);
    GroupOfFs();
    ExpandThree(right, "ffff", hi, lo);
    assert [] + Zeros(5) == Zeros(5);
  }

  lemma GroupOfFs()
    ensures Group("ffff") == Some(0xffff)
  {
    assert "ffff"[..3] == "fff" && "fff"[..2] == "ff" && "ff"[..1] == "f" && "f"[..0] == "";
    assert Hexadecimal("f") == 15;
    assert Hexadecimal("ff") == 255;
    assert Hexadecimal("fff") == 4095;
  }

  lemma NoDottedTail(rest: string)
    requires '.' !in rest
    ensures MappedTail(MAPPED_PREFIX + rest) == None
  {
    assert (MAPPED_PREFIX + rest)[7..] == rest;
    SplitOnce(rest, '.');
  }

  lemma HexDenotes(text: string, lower: string, hi: string, lo: string, value: int)
    requires Ipv4(text) == None && Lower(text) == lower && lower == MAPPED_PREFIX + hi + ":" + lo
    requires Group(hi).Some? && Group(lo).Some? && Group(hi).value * 65536 + Group(lo).value == value
    ensures Denotes(text, value)
  {
    HexTail(hi, lo);
    HexGroups(hi, lo);
    MappedGroups(Group(hi).value, Group(lo).value);
    GroupsDenote(text, lower, value);
  }

  lemma HexTail(hi: string, lo: string)
    requires Group(hi).Some? && Group(lo).Some?
    ensures MappedTail(MAPPED_PREFIX + hi + ":" + lo) == None
  {
    GroupCharacters(hi);
    GroupCharacters(lo);
    NoDottedTail(hi + ":" + lo);
    assert MAPPED_PREFIX + (hi + ":" + lo) == MAPPED_PREFIX + hi + ":" + lo;
  }

  /** Two hexadecimal groups after the IPv4-mapped prefix, in either case, spell the same address. */
  lemma MappedHex(prefix: string, hi: string, lo: string, text: string, value: int)
    requires Lower(prefix) == MAPPED_PREFIX && Group(Lower(hi)).Some? && Group(Lower(lo)).Some?
    requires Group(Lower(hi)).value * 65536 + Group(Lower(lo)).value == value
    requires text == prefix + hi + ":" + lo
    ensures Denotes(text, value)
  {
    var h, l := Lower(hi), Lower(lo);
    LowerGroups(prefix, hi, lo);
    HexDenotes(text, Lower(text), h, l, value);
  }

  lemma LowerGroups(prefix: string, hi: string, lo: string)
    requires Lower(prefix) == MAPPED_PREFIX
    ensures var text := prefix + hi + ":" + lo;
            Lower(text) == MAPPED_PREFIX + Lower(hi) + ":" + Lower(lo) && Ipv4(text) == None
  {
    hide Lower, Ipv4;
    assert Lower(":") == ":";
    var rest := hi + ":" + lo;
    assert prefix + hi + ":" + lo == prefix + rest;
    AfterPrefix(prefix, rest);
    LowerAcross(hi + ":", lo);
    LowerAcross(hi, ":");
    assert MAPPED_PREFIX + Lower(rest) == MAPPED_PREFIX + Lower(hi) + ":" + Lower(lo);
  }

  lemma MappedGroups(hi: nat, lo: nat)
    ensures GroupsValue(Zeros(5) + [0xffff, hi, lo]) == MAPPED + hi * 65536 + lo
  {
    var g6, g7 := Zeros(5) + [0xffff], Zeros(5) + [0xffff, hi];
    assert (Zeros(5) + [0xffff, hi, lo])[..7] == g7 && g7[..6] == g6 && g6[..5] == Zeros(5);
    ZerosValue(5);
    assert GroupsValue(g6) == 0xffff;
    assert GroupsValue(g7) == 0xffff * 65536 + hi;
  }

  lemma {:induction false} ZerosValue(n: nat)
    ensures GroupsValue(Zeros(n)) == 0
  {
    if n > 0 {
      assert Zeros(n)[..n - 1] == Zeros(n - 1);
      ZerosValue(n - 1);
    }
  }

  lemma {:induction false} GroupsValueInjective(a: seq<nat>, b: seq<nat>)
    requires Small(a) && Small(b) && |a| == |b| && GroupsValue(a) == GroupsValue(b)
    ensures a == b
  {
    if a != [] {
      var last := |a| - 1;
      SameDigits(GroupsValue(a[..last]), a[last], GroupsValue(b[..last]), b[last]);
      GroupsValueInjective(a[..last], b[..last]);
      assert a == a[..last] + [a[last]] && b == b[..last] + [b[last]];
    }
  }

  lemma SameDigits(a: nat, x: nat, b: nat, y: nat)
    requires x < 65536 && y < 65536 && a * 65536 + x == b * 65536 + y
    ensures a == b && x == y
  {
  }

  /** Eight groups that mean an IPv4-mapped address: five zeros, all ones, and the two halves of the address. */
  function MappedGroupsOf(value: nat): (groups: seq<nat>)
    ensures |groups| == 8
  {
    Zeros(5) + [0xffff, value / 65536, value % 65536]
  }

  lemma MappedGroupsMean(groups: seq<nat>, value: nat)
    requires Small(groups) && |groups| == 8 && value < WORD
    ensures GroupsValue(groups) == MAPPED + value <==> groups == MappedGroupsOf(value)
  {
    MappedGroups(value / 65536, value % 65536);
    assert Small(MappedGroupsOf(value));
    if GroupsValue(groups) == MAPPED + value {
      GroupsValueInjective(groups, MappedGroupsOf(value));
    }
  }

  /** Written with a dotted tail after the IPv4-mapped prefix, in either case. */
  ghost predicate MappedSpelling(text: string, value: nat) {
    MappedTail(Lower(text)).Some? && Ipv4(MappedTail(Lower(text)).value) == Some(value)
  }

  /** Written in hexadecimal groups, wherever they are abbreviated by a double colon and in either case. */
  ghost predicate GroupSpelling(text: string, value: nat) {
    MappedTail(Lower(text)) == None && EightGroups(Lower(text)) == Some(MappedGroupsOf(value))
  }

  lemma NotDottedDenotes(text: string, value: nat)
    requires Ipv4(text) == None && value < WORD
    ensures Denotes(text, value) <==> MappedSpelling(text, value) || GroupSpelling(text, value)
  {
    hide Lower, MappedTail, EightGroups, Ipv4, GroupsValue, MappedGroupsOf;
    var lower := Lower(text);
    if MappedTail(lower) == None && EightGroups(lower).Some? {
      EightGroupsSmall(lower);
      MappedGroupsMean(EightGroups(lower).value, value);
    }
  }

  lemma DottedIsOnlyDotted(text: string, value: nat)
    requires Ipv4(text).Some?
    ensures !MappedSpelling(text, value) && !GroupSpelling(text, value)
  {
    DottedCharacters(text);
    NoColonIsNotIpv6(text);
  }

  /** The usual spellings of one address: dotted, and after the IPv4-mapped prefix dotted or in two groups. */
  lemma CommonSpellings(prefix: string, dotted: string, mapped: string, hi: string, lo: string, hex: string, value: nat)
    requires Lower(prefix) == MAPPED_PREFIX && Ipv4(dotted) == Some(value)
    requires Group(Lower(hi)).Some? && Group(Lower(lo)).Some?
    requires Group(Lower(hi)).value * 65536 + Group(Lower(lo)).value == value
    requires mapped == prefix + dotted && hex == prefix + hi + ":" + lo
    ensures Denotes(dotted, value) && Denotes(mapped, value) && Denotes(hex, value)
  {
    DottedDenotes(dotted, value);
    MappedDotted(prefix, dotted, mapped, value);
    MappedHex(prefix, hi, lo, hex, value);
  }

  /**
   One IPv4 address, one value: a text has that value exactly when it spells the address in one of three ways, so
   no matcher can tell the spellings apart and no other text is taken for the address.
   */
  lemma OneValuePerAddress(text: string, value: nat)
    requires value < WORD
    ensures Denotes(text, value)
            <==> Ipv4(text) == Some(value) || MappedSpelling(text, value) || GroupSpelling(text, value)
  {
    hide MappedSpelling, GroupSpelling, Ipv4, Ipv6;
    if Ipv4(text).Some? {
      DottedIsOnlyDotted(text, value);
    } else {
      NotDottedDenotes(text, value);
    }
  }
}
