/** The text operations the address parsers use: splitting, trimming, lower case and digits. */
module JsText {

  /** The characters that trimming removes. */
  predicate IsSpace(c: char) {
    || '\t' <= c <= '\r' || c == ' ' || c == '\U{A0}' || c == '\U{1680}' || '\U{2000}' <= c <= '\U{200A}'
    || c == '\U{2028}' || c == '\U{2029}' || c == '\U{202F}' || c == '\U{205F}' || c == '\U{3000}' || c == '\U{FEFF}'
  }

  function Trim(text: string): (trimmed: string)
    ensures trimmed != "" ==> !IsSpace(trimmed[0]) && !IsSpace(trimmed[|trimmed| - 1])
    ensures |trimmed| <= |text|
    ensures text != "" && !IsSpace(text[0]) && !IsSpace(text[|text| - 1]) ==> trimmed == text
  {
    if text == "" then ""
    else if IsSpace(text[0]) then Trim(text[1..])
    else if IsSpace(text[|text| - 1]) then Trim(text[..|text| - 1])
    else text
  }

  /** Trimming does not depend on the end it starts from. */
  lemma {:induction false} TrimEnd(text: string)
    requires text != "" && IsSpace(text[|text| - 1])
    ensures Trim(text) == Trim(text[..|text| - 1])
  {
    var shorter := text[..|text| - 1];
    if IsSpace(text[0]) && |text| > 1 {
      TrimEnd(text[1..]);
      assert text[1..][..|text| - 2] == shorter[1..] && shorter[0] == text[0];
    }
  }

  /** Trimming takes away the space around a text and nothing else. */
  lemma {:induction false} TrimAround(lead: string, text: string, trail: string)
    requires text != "" && !IsSpace(text[0]) && !IsSpace(text[|text| - 1])
    requires (forall i | 0 <= i < |lead| :: IsSpace(lead[i])) && forall i | 0 <= i < |trail| :: IsSpace(trail[i])
    ensures Trim(lead + text + trail) == text
    decreases |lead| + |trail|
  {
    hide IsSpace;
    var all := lead + text + trail;
    if trail != "" {
      TrimAround(lead, text, trail[..|trail| - 1]);
      TrimEnd(all);
      assert all[..|all| - 1] == lead + text + trail[..|trail| - 1];
    } else if lead != "" {
      TrimAround(lead[1..], text, trail);
      assert all[1..] == lead[1..] + text + trail;
    } else {
      assert all == text;
    }
  }

  /** A text with a visible character put before it stays visible from that character on. */
  lemma {:induction false} TrimPrefixed(c: char, text: string)
    requires !IsSpace(c)
    ensures |Trim([c] + text)| > |Trim(text)| && Trim([c] + text)[0] == c
  {
    var all := [c] + text;
    if text != "" && IsSpace(text[|text| - 1]) {
      TrimEnd(text);
      TrimEnd(all);
      TrimPrefixed(c, text[..|text| - 1]);
      assert all[..|all| - 1] == [c] + text[..|text| - 1];
    } else {
      assert all[|all| - 1] == if text == "" then c else text[|text| - 1];
    }
  }

  /** The pieces between the separators; always at least one. */
  function Split(text: string, separator: char): (pieces: seq<string>)
    ensures |pieces| >= 1
  {
    if text == "" then [""]
    else
      var rest := Split(text[1..], separator);
      if text[0] == separator then [""] + rest else [[text[0]] + rest[0]] + rest[1..]
  }

  lemma {:induction false} SplitOnce(text: string, separator: char)
    requires separator !in text
    ensures Split(text, separator) == [text]
  {
    if text != "" {
      SplitOnce(text[1..], separator);
      assert [text[0]] + text[1..] == text;
    }
  }

  lemma {:induction false} SplitAcross(a: string, b: string, separator: char)
    ensures Split(a + [separator] + b, separator) == Split(a, separator) + Split(b, separator)
  {
    var all := a + [separator] + b;
    if a == "" {
      assert all[1..] == b;
    } else {
      assert all[1..] == a[1..] + [separator] + b;
      SplitAcross(a[1..], b, separator);
    }
  }

  /** Two lists of pieces with the last of one and the first of the other joined. */
  function Glue(left: seq<string>, right: seq<string>): (pieces: seq<string>)
    requires left != [] && right != []
    ensures |pieces| >= 1
  {
    left[..|left| - 1] + [left[|left| - 1] + right[0]] + right[1..]
  }

  lemma GlueAfterSeparator(rest: seq<string>, right: seq<string>)
    requires rest != [] && right != []
    ensures Glue([""] + rest, right) == [""] + Glue(rest, right)
  {
    assert ([""] + rest)[..|rest|] == [""] + rest[..|rest| - 1];
  }

  lemma GlueAfterCharacter(c: char, rest: seq<string>, right: seq<string>)
    requires rest != [] && right != []
    ensures Glue([[c] + rest[0]] + rest[1..], right) == [[c] + Glue(rest, right)[0]] + Glue(rest, right)[1..]
  {
    if |rest| == 1 {
      assert [c] + rest[0] + right[0] == [c] + (rest[0] + right[0]);
    } else {
      assert ([[c] + rest[0]] + rest[1..])[..|rest| - 1] == [[c] + rest[0]] + rest[1..|rest| - 1];
    }
  }

  /** What is put before a text joins its own last piece to the first piece of the text. */
  lemma {:induction false} SplitGlued(a: string, b: string, separator: char)
    ensures Split(a + b, separator) == Glue(Split(a, separator), Split(b, separator))
  {
    hide Glue;
    if a == "" {
      assert a + b == b;
      GlueNothing(Split(b, separator));
    } else {
      assert (a + b)[1..] == a[1..] + b && (a + b)[0] == a[0];
      SplitGlued(a[1..], b, separator);
      GlueAfterSeparator(Split(a[1..], separator), Split(b, separator));
      GlueAfterCharacter(a[0], Split(a[1..], separator), Split(b, separator));
    }
  }

  lemma GlueNothing(right: seq<string>)
    requires right != []
    ensures Glue([""], right) == right
  {
    assert "" + right[0] == right[0];
  }

  /** Every other character of a text is in one of its pieces. */
  lemma {:induction false} SplitKeeps(text: string, separator: char, c: char)
    requires c in text && c != separator
    ensures exists i | 0 <= i < |Split(text, separator)| :: c in Split(text, separator)[i]
  {
    var pieces, rest := Split(text, separator), Split(text[1..], separator);
    if text[0] == c {
      assert c in pieces[0];
    } else {
      SplitKeeps(text[1..], separator, c);
      var i :| 0 <= i < |rest| && c in rest[i];
      if text[0] == separator {
        assert c in pieces[i + 1];
      } else {
        assert c in pieces[i];
      }
    }
  }

  /** The pieces between double colons. */
  function SplitColons(text: string): (pieces: seq<string>)
    ensures |pieces| >= 1
  {
    if text == "" then [""]
    else if |text| > 1 && text[0] == ':' && text[1] == ':' then [""] + SplitColons(text[2..])
    else
      var rest := SplitColons(text[1..]);
      [[text[0]] + rest[0]] + rest[1..]
  }

  lemma {:induction false} SplitColonsOnce(text: string)
    requires forall i | 0 <= i < |text| - 1 :: text[i] != ':' || text[i + 1] != ':'
    ensures SplitColons(text) == [text]
  {
    if text != "" {
      SplitColonsOnce(text[1..]);
      assert [text[0]] + text[1..] == text;
    }
  }

  predicate IsDigit(c: char) {
    '0' <= c <= '9'
  }

  predicate IsHex(c: char) {
    IsDigit(c) || 'a' <= c <= 'f'
  }

  function LowerChar(c: char): char {
    if 'A' <= c <= 'Z' then (c as int + 32) as char else c
  }

  function Lower(text: string): (lower: string)
    ensures |lower| == |text| && forall i | 0 <= i < |text| :: lower[i] == LowerChar(text[i])
  {
    if text == "" then "" else [LowerChar(text[0])] + Lower(text[1..])
  }

  lemma {:induction false} LowerAcross(a: string, b: string)
    ensures Lower(a + b) == Lower(a) + Lower(b)
  {
  }

  function HexDigit(c: char): nat
    requires IsHex(c)
  {
    if IsDigit(c) then c as int - '0' as int else c as int - 'a' as int + 10
  }

  function Decimal(text: string): nat
    requires forall i | 0 <= i < |text| :: IsDigit(text[i])
  {
    if text == "" then 0 else 10 * Decimal(text[..|text| - 1]) + HexDigit(text[|text| - 1])
  }

  function Hexadecimal(text: string): nat
    requires forall i | 0 <= i < |text| :: IsHex(text[i])
  {
    if text == "" then 0 else 16 * Hexadecimal(text[..|text| - 1]) + HexDigit(text[|text| - 1])
  }
}
