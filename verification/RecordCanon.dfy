/**
 The converse of printing: a record has one text only, but for the escapes in its
 string. A text without escapes is accepted exactly if it is a printed record.
 */
module RecordCanon {
  import opened Wrappers
  import opened Decimal
  import opened Ports
  import opened RecordJson

  predicate Plain(s: string) {
    forall i :: 0 <= i < |s| ==> s[i] != BACKSLASH
  }

  lemma LitInverse(lit: string, s: string)
    requires Lit(lit, s).Some?
    ensures s == lit + Lit(lit, s).value
    ensures Plain(s) ==> Plain(Lit(lit, s).value)
  {
  }

  // Numbers

  lemma ValueIsPositive(s: string)
    requires s != "" && AllDigits(s) && s[0] != '0'
    ensures Value(s) > 0
    decreases |s|
  {
    if |s| > 1 {
      ValueIsPositive(s[..|s| - 1]);
    } else {
      assert s[..0] == "" && DigitValue(s[0]) > 0;
    }
  }

  /** Digits without leading zeros are the shortest text of their value. */
  lemma {:induction false} ShowInverse(s: string)
    requires s != "" && AllDigits(s) && (s[0] == '0' ==> |s| == 1)
    ensures Show(Value(s)) == s
    decreases |s|
  {
    var init, d := s[..|s| - 1], DigitValue(s[|s| - 1]);
    assert Digit(d) == s[|s| - 1];
    assert s == init + [s[|s| - 1]];
    if |s| > 1 {
      ValueIsPositive(init);
      ShowInverse(init);
      assert Value(s) / 10 == Value(init) && Value(s) % 10 == d;
    } else {
      assert init == "" && Value(s) == d;
    }
  }

  lemma NatInverse(s: string)
    requires ParseNat(s).Some?
    ensures var Parsed(n, rest) := ParseNat(s).value; s == Show(n) + rest && (Plain(s) ==> Plain(rest))
  {
    ShowInverse(s[..Span(s)]);
  }

  lemma IntInverse(s: string)
    requires ParseInt(s).Some?
    ensures var Parsed(n, rest) := ParseInt(s).value; s == IntText(n, rest) && (Plain(s) ==> Plain(rest))
  {
    if s != "" && s[0] == '-' {
      NatInverse(s[1..]);
      assert s == "-" + s[1..];
    } else {
      NatInverse(s);
    }
  }

  // Strings

  lemma {:induction false} CharsInverse(s: string)
    requires Plain(s) && ParseChars(s).Some?
    ensures var Parsed(t, rest) := ParseChars(s).value; s == CharsText(t, rest) && Plain(rest)
    decreases |s|
  {
    if s != "" && s[0] == QUOTE {
      assert s == [QUOTE] + s[1..];
    } else {
      CharsInverse(s[1..]);
      var Parsed(t, rest) := ParseChars(s[1..]).value;
      assert ([s[0]] + t)[1..] == t;
      assert s == [s[0]] + s[1..];
    }
  }

  lemma StringInverse(s: string)
    requires Plain(s) && ParseString(s).Some?
    ensures var Parsed(t, rest) := ParseString(s).value; s == StringText(t, rest) && Plain(rest)
  {
    LitInverse([QUOTE], s);
    CharsInverse(s[1..]);
  }

  // Ranges

  lemma RangeInverse(s: string)
    requires ParseRange(s).Some?
    ensures var Parsed(r, rest) := ParseRange(s).value; s == RangeText(r, rest) && (Plain(s) ==> Plain(rest))
  {
    LitInverse("{\"from\":", s);
    var s1 := Lit("{\"from\":", s).value;
    NatInverse(s1);
    var s2 := ParseNat(s1).value.rest;
    LitInverse(",\"to\":", s2);
    var s3 := Lit(",\"to\":", s2).value;
    NatInverse(s3);
    LitInverse("}", ParseNat(s3).value.rest);
  }

  lemma {:induction false} MoreInverse(s: string)
    requires ParseMore(s).Some?
    ensures
      var Parsed(rs, rest) := ParseMore(s).value;
      rs != [] && s == MoreText(rs, rest) && (Plain(s) ==> Plain(rest))
    decreases |s|
  {
    RangeInverse(s);
    var Parsed(first, s1) := ParseRange(s).value;
    if Lit(",", s1).Some? {
      LitInverse(",", s1);
      MoreInverse(Lit(",", s1).value);
      var Parsed(others, rest) := ParseMore(Lit(",", s1).value).value;
      assert ([first] + others)[1..] == others;
    } else {
      LitInverse("]", s1);
    }
  }

  lemma RangesInverse(s: string)
    requires ParseRanges(s).Some?
    ensures var Parsed(rs, rest) := ParseRanges(s).value; s == RangesText(rs, rest) && (Plain(s) ==> Plain(rest))
  {
    LitInverse("[", s);
    var s1 := Lit("[", s).value;
    if Lit("]", s1).Some? {
      LitInverse("]", s1);
    } else {
      MoreInverse(s1);
    }
  }

  // Records

  lemma RecordInverse(s: string)
    requires Plain(s) && ParseRecord(s).Some?
    ensures var Parsed(r, rest) := ParseRecord(s).value; s == RecordText(r, rest)
  {
    LitInverse("{\"interface\":{\"ipv4_network_address\":", s);
    var s1 := Lit("{\"interface\":{\"ipv4_network_address\":", s).value;
    StringInverse(s1);
    var s2 := ParseString(s1).value.rest;
    LitInverse(",\"mtu\":", s2);
    var s3 := Lit(",\"mtu\":", s2).value;
    IntInverse(s3);
    var s4 := ParseInt(s3).value.rest;
    LitInverse("},\"ports\":{\"ephemeral\":", s4);
    var s5 := Lit("},\"ports\":{\"ephemeral\":", s4).value;
    RangeInverse(s5);
    var s6 := ParseRange(s5).value.rest;
    LitInverse(",\"service\":", s6);
    var s7 := Lit(",\"service\":", s6).value;
    RangesInverse(s7);
    LitInverse("}}", ParseRanges(s7).value.rest);
  }

  /** Among the texts without escapes, exactly the printed records parse, each to its record. */
  lemma ParsesExactly(s: string, r: Record)
    requires Plain(s)
    ensures Parse(s) == Some(r) <==> s == Print(r)
  {
    if Parse(s) == Some(r) {
      RecordInverse(s);
    }
    if s == Print(r) {
      PrintParses(r);
    }
  }
}
