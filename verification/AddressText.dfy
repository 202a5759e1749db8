/** Addresses written out and read back: the parsers give a text's numbers the place values they were written with. */
module AddressText {
  import opened Wrappers
  import opened JsText
  import opened Cidr

  // ----- Numbers -----

  function Digit(d: nat): char
    requires d < 16
  {
    "0123456789abcdef"[d]
  }

  /** A number in base ten or sixteen, without leading zeros. */
  function Written(n: nat, base: nat): (text: string)
    requires 2 <= base <= 16
    ensures text != ""
  {
    (if n < base then "" else Written(n / base, base)) + [Digit(n % base)]
  }

  lemma DigitIs(d: nat)
    requires d < 16
    ensures IsHex(Digit(d)) && HexDigit(Digit(d)) == d && (d < 10 ==> IsDigit(Digit(d)))
  {
  }

  lemma OneMoreDecimal(text: string, c: char)
    requires (forall i | 0 <= i < |text| :: IsDigit(text[i])) && IsDigit(c)
    ensures forall i | 0 <= i < |text + [c]| :: IsDigit((text + [c])[i])
    ensures Decimal(text + [c]) == 10 * Decimal(text) + HexDigit(c)
  {
    assert (text + [c])[..|text|] == text;
  }

  lemma OneMoreHexadecimal(text: string, c: char)
    requires (forall i | 0 <= i < |text| :: IsHex(text[i])) && IsHex(c)
    ensures forall i | 0 <= i < |text + [c]| :: IsHex((text + [c])[i])
    ensures Hexadecimal(text + [c]) == 16 * Hexadecimal(text) + HexDigit(c)
  {
    assert (text + [c])[..|text|] == text;
  }

  lemma NoDigits()
    ensures Decimal("") == 0 && Hexadecimal("") == 0
  {
  }

  lemma {:induction false} DecimalWritten(n: nat)
    ensures var text := Written(n, 10);
            (forall i | 0 <= i < |text| :: IsDigit(text[i])) && Decimal(text) == n
  {
    hide Digit, Decimal, IsDigit, HexDigit;
    var front := if n < 10 then "" else Written(n / 10, 10);
    NoDigits();
    DigitIs(n % 10);
    if n >= 10 {
      DecimalWritten(n / 10);
    }
    OneMoreDecimal(front, Digit(n % 10));
  }

  lemma {:induction false} HexWritten(n: nat)
    ensures var text := Written(n, 16);
            (forall i | 0 <= i < |text| :: IsHex(text[i])) && Hexadecimal(text) == n
  {
    hide Digit, Hexadecimal, IsHex, HexDigit;
    var front := if n < 16 then "" else Written(n / 16, 16);
    NoDigits();
    DigitIs(n % 16);
    if n >= 16 {
      HexWritten(n / 16);
    }
    OneMoreHexadecimal(front, Digit(n % 16));
  }

  lemma WrittenLength(n: nat, base: nat)
    requires base in {10, 16}
    ensures n < base ==> |Written(n, base)| == 1
    ensures base <= n < base * base ==> |Written(n, base)| == 2
    ensures base * base <= n < base * base * base ==> |Written(n, base)| == 3
    ensures base * base * base <= n < base * base * base * base ==> |Written(n, base)| == 4
  {
  }

  lemma OctetWritten(n: nat)
    requires n < 256
    ensures Octet(Written(n, 10)) == Some(n) && '.' !in Written(n, 10)
  {
    DecimalWritten(n);
    WrittenLength(n, 10);
  }

  lemma GroupWritten(n: nat)
    requires n < 65536
    ensures Group(Written(n, 16)) == Some(n)
  {
    HexWritten(n);
    WrittenLength(n, 16);
  }

  // ----- Dotted addresses -----

  function Dotted(a: nat, b: nat, c: nat, d: nat): string {
    Written(a, 10) + "." + Written(b, 10) + "." + Written(c, 10) + "." + Written(d, 10)
  }

  lemma SplitFour(a: string, b: string, c: string, d: string)
    requires '.' !in a && '.' !in b && '.' !in c && '.' !in d
    ensures Split(a + "." + b + "." + c + "." + d, '.') == [a, b, c, d]
  {
    hide Split;
    SplitAcross(a + "." + b + "." + c, d, '.');
    SplitAcross(a + "." + b, c, '.');
    SplitAcross(a, b, '.');
    SplitOnce(a, '.');
    SplitOnce(b, '.');
    SplitOnce(c, '.');
    SplitOnce(d, '.');
  }

  lemma FourOctets(parts: seq<string>)
    requires |parts| == 4 && Octets(parts)
    ensures OctetsValue(parts)
            == Octet(parts[0]).value * 16_777_216 + Octet(parts[1]).value * 65_536 + Octet(parts[2]).value * 256
               + Octet(parts[3]).value
  {
    hide Octet;
    assert parts[..3][..2] == parts[..2] && parts[..2][..1] == parts[..1] && parts[..1][..0] == [];
    assert OctetsValue(parts[..1]) == Octet(parts[0]).value;
    assert OctetsValue(parts[..2]) == Octet(parts[0]).value * 256 + Octet(parts[1]).value;
    assert OctetsValue(parts[..3]) == OctetsValue(parts[..2]) * 256 + Octet(parts[2]).value;
  }

  /** Four octets written with dots are read as one number, the first octet counting most. */
  lemma DottedIsRead(a: nat, b: nat, c: nat, d: nat)
    requires a < 256 && b < 256 && c < 256 && d < 256
    ensures Ipv4(Dotted(a, b, c, d)) == Some(a * 16_777_216 + b * 65_536 + c * 256 + d)
  {
    hide Written, Octet, Split;
    OctetWritten(a);
    OctetWritten(b);
    OctetWritten(c);
    OctetWritten(d);
    SplitFour(Written(a, 10), Written(b, 10), Written(c, 10), Written(d, 10));
    FourOctets([Written(a, 10), Written(b, 10), Written(c, 10), Written(d, 10)]);
  }

  // ----- Groups -----

  function Texts(groups: seq<nat>): (texts: seq<string>)
    ensures |texts| == |groups| && forall i | 0 <= i < |groups| :: texts[i] == Written(groups[i], 16)
  {
    seq(|groups|, i requires 0 <= i < |groups| => Written(groups[i], 16))
  }

  /** The groups joined by colons. */
  function Colons(texts: seq<string>): string {
    if texts == [] then ""
    else if |texts| == 1 then texts[0]
    else texts[0] + ":" + Colons(texts[1..])
  }

  ghost predicate HexTexts(texts: seq<string>) {
    forall i | 0 <= i < |texts| :: texts[i] != "" && forall k | 0 <= k < |texts[i]| :: IsHex(texts[i][k])
  }

  lemma HexIsPlain(text: string)
    requires forall k | 0 <= k < |text| :: IsHex(text[k])
    ensures ':' !in text && '.' !in text
  {
  }

  lemma {:induction false} SplitColonsOf(texts: seq<string>)
    requires texts != [] && HexTexts(texts)
    ensures Split(Colons(texts), ':') == texts
  {
    hide Split, IsHex;
    HexIsPlain(texts[0]);
    SplitOnce(texts[0], ':');
    if |texts| > 1 {
      SplitColonsOf(texts[1..]);
      SplitAcross(texts[0], Colons(texts[1..]), ':');
    }
  }

  /** Single colons only, and none at either end. */
  ghost predicate SingleColons(text: string) {
    && (text != "" ==> text[0] != ':' && text[|text| - 1] != ':')
    && forall i | 0 <= i < |text| - 1 :: text[i] != ':' || text[i + 1] != ':'
  }

  lemma {:induction false} ColonsAreSingle(texts: seq<string>)
    requires HexTexts(texts)
    ensures SingleColons(Colons(texts)) && (texts != [] ==> Colons(texts) != "") && '.' !in Colons(texts)
  {
    hide IsHex;
    if texts != [] {
      HexIsPlain(texts[0]);
      if |texts| > 1 {
        ColonsAreSingle(texts[1..]);
        JoinedSingle(texts[0], Colons(texts[1..]));
      } else {
        PlainIsSingle(texts[0]);
      }
    }
  }

  lemma PlainIsSingle(text: string)
    requires ':' !in text
    ensures SingleColons(text)
  {
    forall i | 0 <= i < |text| ensures text[i] != ':' {
      assert text[i] in text;
    }
  }

  lemma JoinedSingle(first: string, rest: string)
    requires first != "" && ':' !in first && rest != "" && SingleColons(rest)
    ensures SingleColons(first + ":" + rest)
  {
    var text := first + ":" + rest;
    assert forall i | 0 <= i < |first| :: text[i] == first[i] && first[i] in first;
    assert forall i | |first| < i < |text| :: text[i] == rest[i - |first| - 1];
  }

  lemma {:induction false} SplitAtDouble(left: string, right: string)
    requires (left != "" ==> left[|left| - 1] != ':') && SingleColons(right)
    requires forall i | 0 <= i < |left| - 1 :: left[i] != ':' || left[i + 1] != ':'
    ensures SplitColons(left + "::" + right) == [left, right]
    decreases left
  {
    var text := left + "::" + right;
    if left == "" {
      assert text[2..] == right;
      SplitColonsOnce(right);
    } else {
      assert text[1..] == left[1..] + "::" + right && text[0] == left[0];
      assert left[0] == ':' ==> |left| > 1 && left[1] != ':';
      SplitAtDouble(left[1..], right);
      assert [left[0]] + left[1..] == left;
    }
  }

  lemma TextsAreHex(groups: seq<nat>)
    ensures HexTexts(Texts(groups))
  {
    hide Written, IsHex;
    forall i | 0 <= i < |groups|
      ensures Texts(groups)[i] != "" && forall k | 0 <= k < |Texts(groups)[i]| :: IsHex(Texts(groups)[i][k])
    {
      HexWritten(groups[i]);
    }
  }

  lemma ExpandWritten(groups: seq<nat>)
    requires Small(groups)
    ensures Expand(Colons(Texts(groups))) == Some(groups)
  {
    hide Written, Group, Colons;
    var texts := Texts(groups);
    TextsAreHex(groups);
    if groups == [] {
      NothingWritten(texts);
    } else {
      ColonsAreSingle(texts);
      SplitColonsOf(texts);
      forall i | 0 <= i < |groups| ensures Group(texts[i]) == Some(groups[i]) {
        GroupWritten(groups[i]);
      }
      assert Expand(Colons(texts)).value == groups;
    }
  }

  lemma NothingWritten(texts: seq<string>)
    requires texts == []
    ensures Colons(texts) == ""
  {
  }

  /** Eight groups written with colons are read as those groups. */
  lemma FullIsRead(groups: seq<nat>)
    requires |groups| == 8 && Small(groups)
    ensures EightGroups(Colons(Texts(groups))) == Some(groups)
  {
    hide Expand, Colons;
    TextsAreHex(groups);
    ColonsAreSingle(Texts(groups));
    SplitColonsOnce(Colons(Texts(groups)));
    ExpandWritten(groups);
    assert groups + Zeros(0) + [] == groups;
  }

  /** A double colon stands for as many zeros as are missing, between the groups on its left and those on its right. */
  lemma CompressedIsRead(left: seq<nat>, right: seq<nat>)
    requires |left| + |right| <= 8 && Small(left) && Small(right)
    ensures EightGroups(Colons(Texts(left)) + "::" + Colons(Texts(right)))
            == Some(left + Zeros(8 - |left| - |right|) + right)
  {
    hide Expand, Colons;
    TextsAreHex(left);
    TextsAreHex(right);
    ColonsAreSingle(Texts(left));
    ColonsAreSingle(Texts(right));
    SplitAtDouble(Colons(Texts(left)), Colons(Texts(right)));
    ExpandWritten(left);
    ExpandWritten(right);
  }

  ghost predicate LowerHex(text: string) {
    forall i | 0 <= i < |text| :: IsHex(text[i]) || text[i] == ':'
  }

  lemma LowerHexStays(text: string)
    requires LowerHex(text)
    ensures Lower(text) == text && '.' !in text
  {
    forall i | 0 <= i < |text| ensures LowerChar(text[i]) == text[i] && text[i] != '.' {
      assert IsHex(text[i]) || text[i] == ':';
    }
    assert Lower(text) == text;
  }

  lemma {:induction false} ColonsAreLowerHex(texts: seq<string>)
    requires HexTexts(texts)
    ensures LowerHex(Colons(texts))
  {
    hide IsHex;
    if |texts| > 1 {
      ColonsAreLowerHex(texts[1..]);
    }
  }

  lemma NoMappedTail(text: string)
    requires '.' !in text
    ensures MappedTail(text) == None
  {
    if |text| >= 7 {
      assert '.' !in text[7..];
      SplitOnce(text[7..], '.');
    }
  }

  lemma GroupsAreRead(text: string, groups: seq<nat>)
    requires LowerHex(text) && EightGroups(text) == Some(groups)
    ensures Ipv6(text) == Some(GroupsValue(groups))
  {
    hide EightGroups, LowerHex, MappedTail;
    LowerHexStays(text);
    NoMappedTail(text);
  }

  /** An address in groups, in full or with one double colon, has the value of its eight groups, the first counting most. */
  lemma GroupsHaveValue(left: seq<nat>, right: seq<nat>)
    requires |left| + |right| <= 8 && Small(left) && Small(right)
    ensures |left| == 8 ==> Ipv6(Colons(Texts(left))) == Some(GroupsValue(left))
    ensures Ipv6(Colons(Texts(left)) + "::" + Colons(Texts(right)))
            == Some(GroupsValue(left + Zeros(8 - |left| - |right|) + right))
  {
    hide EightGroups, Ipv6, IsHex, Colons;
    TextsAreHex(left);
    TextsAreHex(right);
    ColonsAreLowerHex(Texts(left));
    ColonsAreLowerHex(Texts(right));
    if |left| == 8 {
      FullIsRead(left);
      GroupsAreRead(Colons(Texts(left)), left);
    }
    CompressedIsRead(left, right);
    GroupsAreRead(Colons(Texts(left)) + "::" + Colons(Texts(right)), left + Zeros(8 - |left| - |right|) + right);
  }
}
