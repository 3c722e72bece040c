/**
 The bootstrap record as compact JSON (RFC 8259). A text function takes the text that
 comes after, so that each parser can be proved to undo the function of the same name.
 */
module RecordJson {
  import opened Wrappers
  import opened Decimal
  import opened Ports

  type Int32 = n: int | -0x8000_0000 <= n < 0x8000_0000

  datatype Record = Record(address: string, mtu: Int32, ephemeral: Range, service: seq<Range>)

  // Printing

  function HexDigit(d: nat): (c: char)
    requires d < 16
  {
    if d < 10 then Digit(d) else ('a' as int + d - 10) as char
  }

  const QUOTE := '\"'
  const BACKSLASH := '\\'

  /** One octet of a string (section 7 of RFC 8259). */
  function Escape(c: char): (s: string)
    ensures 1 <= |s|
  {
    if c == QUOTE then [BACKSLASH, QUOTE]
    else if c == BACKSLASH then [BACKSLASH, BACKSLASH]
    else if c as int == 8 then [BACKSLASH, 'b']
    else if c as int == 9 then [BACKSLASH, 't']
    else if c as int == 10 then [BACKSLASH, 'n']
    else if c as int == 12 then [BACKSLASH, 'f']
    else if c as int == 13 then [BACKSLASH, 'r']
    else if c as int < 0x20 then [BACKSLASH, 'u', '0', '0', HexDigit(c as int / 16), HexDigit(c as int % 16)]
    else [c]
  }

  function CharsText(t: string, after: string): string {
    if t == "" then [QUOTE] + after else Escape(t[0]) + CharsText(t[1..], after)
  }

  function StringText(t: string, after: string): string {
    [QUOTE] + CharsText(t, after)
  }

  function IntText(n: int, after: string): string {
    if n < 0 then "-" + (Show(0 - n) + after) else Show(n) + after
  }

  function RangeText(r: Range, after: string): string {
    "{\"from\":" + (Show(r.from) + (",\"to\":" + (Show(r.to) + ("}" + after))))
  }

  function MoreText(rs: seq<Range>, after: string): string
    requires rs != []
  {
    RangeText(rs[0], if |rs| == 1 then "]" + after else "," + MoreText(rs[1..], after))
  }

  function RangesText(rs: seq<Range>, after: string): string {
    "[" + (if rs == [] then "]" + after else MoreText(rs, after))
  }

  function RecordText(r: Record, after: string): string {
    "{\"interface\":{\"ipv4_network_address\":"
    + StringText(r.address,
                 ",\"mtu\":"
                 + IntText(r.mtu,
                           "},\"ports\":{\"ephemeral\":"
                           + RangeText(r.ephemeral,
                                       ",\"service\":" + RangesText(r.service, "}}" + after))))
  }

  /** `serde_json::to_string`. */
  function Print(r: Record): string {
    RecordText(r, "")
  }

  // One record in full: member names, their order, escapes, no space

  lemma {:induction false} StringExample(after: string)
    ensures StringText("a\n\"", after) == "\"a\\n\\\"\"" + after
  {
    assert "a\n\""[1..] == "\n\"" && "\n\""[1..] == "\"" && "\""[1..] == "";
    assert CharsText("\"", after) == [BACKSLASH, QUOTE] + ([QUOTE] + after);
    assert CharsText("\n\"", after) == [BACKSLASH, 'n'] + CharsText("\"", after);
    assert CharsText("a\n\"", after) == "a" + CharsText("\n\"", after);
  }

  lemma {:induction false} ShowDigit(d: nat)
    requires d < 10
    ensures Show(d) == [Digit(d)]
  {
  }

  lemma {:induction false} IntExample(after: string)
    ensures IntText(-9, after) == "-9" + after
  {
    ShowDigit(9);
    assert IntText(-9, after) == "-" + ("9" + after);
    assert "-" + ("9" + after) == "-9" + after;
  }

  lemma {:induction false} RangeExample(after: string)
    ensures RangeText(Range(1, 2), after) == "{\"from\":1,\"to\":2}" + after
    ensures RangeText(Range(7, 7), after) == "{\"from\":7,\"to\":7}" + after
  {
    ShowDigit(1);
    ShowDigit(2);
    ShowDigit(7);
  }

  lemma {:induction false} RangesExample(after: string)
    ensures RangesText([Range(7, 7), Range(1, 2)], after)
            == "[" + ("{\"from\":7,\"to\":7}" + ("," + ("{\"from\":1,\"to\":2}" + ("]" + after))))
  {
    var rs := [Range(7, 7), Range(1, 2)];
    assert rs[1..] == [Range(1, 2)];
    RangeExample("]" + after);
    assert MoreText(rs[1..], after) == "{\"from\":1,\"to\":2}" + ("]" + after);
    RangeExample("," + MoreText(rs[1..], after));
  }

  lemma {:induction false} PrintExample()
    ensures Print(Record("a\n\"", -9, Range(1, 2), [Range(7, 7), Range(1, 2)]))
            == "{\"interface\":{\"ipv4_network_address\":" + ("\"a\\n\\\"\"" + (",\"mtu\":" + ("-9" + (
               "},\"ports\":{\"ephemeral\":" + ("{\"from\":1,\"to\":2}" + (",\"service\":" + ("[" + (
               "{\"from\":7,\"to\":7}" + ("," + ("{\"from\":1,\"to\":2}" + ("]" + "}}")))))))))))
  {
    var service := RangesText([Range(7, 7), Range(1, 2)], "}}" + "");
    RangesExample("}}" + "");
    var ephemeral := RangeText(Range(1, 2), ",\"service\":" + service);
    RangeExample(",\"service\":" + service);
    var mtu := IntText(-9, "},\"ports\":{\"ephemeral\":" + ephemeral);
    IntExample("},\"ports\":{\"ephemeral\":" + ephemeral);
    StringExample(",\"mtu\":" + mtu);
    assert "}}" + "" == "}}";
  }

  // Parsing

  datatype Parsed<+T> = Parsed(value: T, rest: string)

  function Lit(lit: string, s: string): (r: Option<string>)
    ensures r.Some? ==> |r.value| == |s| - |lit|
  {
    if lit <= s then Some(s[|lit|..]) else None
  }

  /** How many digits `s` starts with. */
  function Span(s: string): (n: nat)
    ensures n <= |s| && AllDigits(s[..n])
    ensures n < |s| ==> !IsDigit(s[n])
  {
    if s == "" || !IsDigit(s[0]) then 0
    else
      var n := Span(s[1..]);
      assert forall i :: 0 < i <= n ==> s[i] == s[1..][..n][i - 1];
      1 + n
  }

  /** A number without sign, leading zeros, fraction or exponent. */
  function ParseNat(s: string): (r: Option<Parsed<nat>>)
    ensures r.Some? ==> |r.value.rest| < |s|
  {
    var n := Span(s);
    if n == 0 || (s[0] == '0' && n > 1) then None else Some(Parsed(Value(s[..n]), s[n..]))
  }

  function ParsePort(s: string): (r: Option<Parsed<Port>>)
    ensures r.Some? ==> |r.value.rest| < |s|
  {
    var Parsed(n, rest) :- ParseNat(s);
    if n < 0x1_0000 then Some(Parsed(n, rest)) else None
  }

  function ParseInt(s: string): (r: Option<Parsed<Int32>>)
    ensures r.Some? ==> |r.value.rest| < |s|
  {
    if s != "" && s[0] == '-' then
      var Parsed(n, rest) :- ParseNat(s[1..]);
      var negative: int := 0 - n;
      if -0x8000_0000 <= negative < 0 then Some(Parsed(negative, rest)) else None
    else
      var Parsed(n, rest) :- ParseNat(s);
      if n < 0x8000_0000 then Some(Parsed(n, rest)) else None
  }

  function HexValue(c: char): (r: Option<nat>)
    ensures r.Some? ==> r.value < 16
  {
    if IsDigit(c) then Some(DigitValue(c))
    else if 'a' <= c <= 'f' then Some(c as int - 'a' as int + 10)
    else if 'A' <= c <= 'F' then Some(c as int - 'A' as int + 10)
    else None
  }

  /** The octet after `\u`, which must be a code point of one octet. */
  function ParseHex(s: string): (r: Option<Parsed<char>>)
    ensures r.Some? ==> |r.value.rest| == |s| - 4
  {
    if |s| < 4 then None
    else
      var a :- HexValue(s[0]);
      var b :- HexValue(s[1]);
      var c :- HexValue(s[2]);
      var d :- HexValue(s[3]);
      var code := 4096 * a + 256 * b + 16 * c + d;
      if code < 0x80 then Some(Parsed(code as char, s[4..])) else None
  }

  /** What follows a backslash. */
  function ParseEscape(s: string): (r: Option<Parsed<char>>)
    ensures r.Some? ==> |r.value.rest| < |s|
  {
    if s == "" then None
    else if s[0] == QUOTE || s[0] == BACKSLASH || s[0] == '/' then Some(Parsed(s[0], s[1..]))
    else if s[0] == 'b' then Some(Parsed(8 as char, s[1..]))
    else if s[0] == 't' then Some(Parsed(9 as char, s[1..]))
    else if s[0] == 'n' then Some(Parsed(10 as char, s[1..]))
    else if s[0] == 'f' then Some(Parsed(12 as char, s[1..]))
    else if s[0] == 'r' then Some(Parsed(13 as char, s[1..]))
    else if s[0] == 'u' then ParseHex(s[1..])
    else None
  }

  /** One octet of a string that is not its closing quote. */
  function ParseChar(s: string): (r: Option<Parsed<char>>)
    ensures r.Some? ==> |r.value.rest| < |s|
  {
    if s == "" || s[0] == QUOTE || s[0] as int < 0x20 then None
    else if s[0] == BACKSLASH then ParseEscape(s[1..])
    else Some(Parsed(s[0], s[1..]))
  }

  function ParseChars(s: string): (r: Option<Parsed<string>>)
    ensures r.Some? ==> |r.value.rest| < |s|
    decreases |s|
  {
    if s != "" && s[0] == QUOTE then Some(Parsed("", s[1..]))
    else
      var Parsed(c, s1) :- ParseChar(s);
      var Parsed(t, rest) :- ParseChars(s1);
      Some(Parsed([c] + t, rest))
  }

  function ParseString(s: string): (r: Option<Parsed<string>>)
    ensures r.Some? ==> |r.value.rest| < |s|
  {
    var s1 :- Lit([QUOTE], s);
    ParseChars(s1)
  }

  function ParseRange(s: string): (r: Option<Parsed<Range>>)
    ensures r.Some? ==> |r.value.rest| < |s|
  {
    var s1 :- Lit("{\"from\":", s);
    var Parsed(from, s2) :- ParsePort(s1);
    var s3 :- Lit(",\"to\":", s2);
    var Parsed(to, s4) :- ParsePort(s3);
    var s5 :- Lit("}", s4);
    Some(Parsed(Range(from, to), s5))
  }

  function ParseMore(s: string): (r: Option<Parsed<seq<Range>>>)
    ensures r.Some? ==> |r.value.rest| < |s|
    decreases |s|
  {
    var Parsed(first, s1) :- ParseRange(s);
    var comma := Lit(",", s1);
    if comma.Some? then
      var Parsed(others, rest) :- ParseMore(comma.value);
      Some(Parsed([first] + others, rest))
    else
      var rest :- Lit("]", s1);
      Some(Parsed([first], rest))
  }

  function ParseRanges(s: string): (r: Option<Parsed<seq<Range>>>)
    ensures r.Some? ==> |r.value.rest| < |s|
  {
    var s1 :- Lit("[", s);
    var end := Lit("]", s1);
    if end.Some? then Some(Parsed([], end.value)) else ParseMore(s1)
  }

  function ParseRecord(s: string): Option<Parsed<Record>> {
    var s1 :- Lit("{\"interface\":{\"ipv4_network_address\":", s);
    var Parsed(address, s2) :- ParseString(s1);
    var s3 :- Lit(",\"mtu\":", s2);
    var Parsed(mtu, s4) :- ParseInt(s3);
    var s5 :- Lit("},\"ports\":{\"ephemeral\":", s4);
    var Parsed(ephemeral, s6) :- ParseRange(s5);
    var s7 :- Lit(",\"service\":", s6);
    var Parsed(service, s8) :- ParseRanges(s7);
    var s9 :- Lit("}}", s8);
    Some(Parsed(Record(address, mtu, ephemeral, service), s9))
  }

  /** `serde_json::from_slice`: the whole text is one record. */
  function Parse(s: string): Option<Record> {
    var Parsed(r, rest) :- ParseRecord(s);
    if rest == "" then Some(r) else None
  }

  // Parsing undoes printing

  lemma LitText(lit: string, after: string)
    ensures Lit(lit, lit + after) == Some(after)
  {
  }

  /** `after` does not continue a number. */
  predicate Delimits(after: string) {
    after == "" || !IsDigit(after[0])
  }

  lemma {:induction false} SpanText(digits: string, after: string)
    requires AllDigits(digits) && Delimits(after)
    ensures Span(digits + after) == |digits|
    decreases |digits|
  {
    if digits == "" {
      assert digits + after == after;
    } else {
      SpanText(digits[1..], after);
      assert (digits + after)[1..] == digits[1..] + after;
    }
  }

  lemma NatText(n: nat, after: string)
    requires Delimits(after)
    ensures ParseNat(Show(n) + after) == Some(Parsed(n, after))
  {
    SpanText(Show(n), after);
    assert (Show(n) + after)[..|Show(n)|] == Show(n);
    assert (Show(n) + after)[|Show(n)|..] == after;
  }

  lemma IntTextParses(n: Int32, after: string)
    requires Delimits(after)
    ensures ParseInt(IntText(n, after)) == Some(Parsed(n, after))
  {
    var digits: string := Show(if n < 0 then 0 - n else n) + after;
    NatText(if n < 0 then 0 - n else n, after);
    if n < 0 {
      assert IntText(n, after) == "-" + digits;
      assert ("-" + digits)[1..] == digits;
    } else {
      assert IsDigit(digits[0]);
    }
  }

  lemma HexParses(d: nat)
    requires d < 16
    ensures HexValue(HexDigit(d)) == Some(d)
  {
  }

  lemma CharParses(c: char, after: string)
    ensures Escape(c) + after != "" && (Escape(c) + after)[0] != QUOTE
    ensures ParseChar(Escape(c) + after) == Some(Parsed(c, after))
  {
    var s := Escape(c) + after;
    assert s[|Escape(c)|..] == after;
    if c as int < 0x20 && |Escape(c)| == 6 {
      HexParses(c as int / 16);
      HexParses(c as int % 16);
      assert s[1..][1..] == s[2..];
      assert s[2..][4..] == after;
      assert HexValue('0') == Some(0);
    } else if |Escape(c)| == 2 {
      assert s[1..][1..] == after;
    }
  }

  lemma {:induction false} CharsTextParses(t: string, after: string)
    ensures ParseChars(CharsText(t, after)) == Some(Parsed(t, after))
    decreases |t|
  {
    if t != "" {
      CharParses(t[0], CharsText(t[1..], after));
      CharsTextParses(t[1..], after);
      assert [t[0]] + t[1..] == t;
    }
  }

  lemma StringTextParses(t: string, after: string)
    ensures ParseString(StringText(t, after)) == Some(Parsed(t, after))
  {
    LitText([QUOTE], CharsText(t, after));
    CharsTextParses(t, after);
  }

  lemma RangeTextParses(r: Range, after: string)
    ensures ParseRange(RangeText(r, after)) == Some(Parsed(r, after))
  {
    var s4 := "}" + after;
    var s3 := Show(r.to) + s4;
    var s2 := ",\"to\":" + s3;
    LitText("{\"from\":", Show(r.from) + s2);
    NatText(r.from, s2);
    LitText(",\"to\":", s3);
    NatText(r.to, s4);
    LitText("}", after);
  }

  lemma MoreStep(first: Range, t: string, others: seq<Range>, after: string)
    requires ParseMore(t) == Some(Parsed(others, after))
    ensures ParseMore(RangeText(first, "," + t)) == Some(Parsed([first] + others, after))
  {
    RangeTextParses(first, "," + t);
    LitText(",", t);
  }

  lemma LastStep(first: Range, after: string)
    ensures ParseMore(RangeText(first, "]" + after)) == Some(Parsed([first], after))
  {
    RangeTextParses(first, "]" + after);
    LitText("]", after);
    assert Lit(",", "]" + after).None?;
  }

  /** The text `t` of the ranges `rs` is understood. */
  predicate MoreParses(t: string, rs: seq<Range>, after: string) {
    ParseMore(t) == Some(Parsed(rs, after))
  }

  lemma MoreTextOne(rs: seq<Range>, after: string)
    requires |rs| == 1
    ensures MoreText(rs, after) == RangeText(rs[0], "]" + after) && rs == [rs[0]]
  {
  }

  lemma MoreTextCons(rs: seq<Range>, after: string)
    requires |rs| > 1
    ensures MoreText(rs, after) == RangeText(rs[0], "," + MoreText(rs[1..], after))
    ensures [rs[0]] + rs[1..] == rs
  {
  }

  lemma {:induction false} MoreTextParses(rs: seq<Range>, after: string)
    requires rs != []
    ensures MoreParses(MoreText(rs, after), rs, after)
    decreases |rs|
  {
    if |rs| == 1 {
      MoreTextOne(rs, after);
      LastStep(rs[0], after);
    } else {
      MoreTextCons(rs, after);
      MoreTextParses(rs[1..], after);
      MoreStep(rs[0], MoreText(rs[1..], after), rs[1..], after);
    }
  }

  lemma RangesTextParses(rs: seq<Range>, after: string)
    ensures ParseRanges(RangesText(rs, after)) == Some(Parsed(rs, after))
  {
    if rs == [] {
      LitText("[", "]" + after);
      LitText("]", after);
    } else {
      LitText("[", MoreText(rs, after));
      MoreTextParses(rs, after);
      assert MoreText(rs, after)[0] == '{';
    }
  }

  lemma RecordTextParses(r: Record, after: string)
    ensures ParseRecord(RecordText(r, after)) == Some(Parsed(r, after))
  {
    var s8 := "}}" + after;
    var s7 := RangesText(r.service, s8);
    var s6 := ",\"service\":" + s7;
    var s5 := RangeText(r.ephemeral, s6);
    var s4 := "},\"ports\":{\"ephemeral\":" + s5;
    var s3 := IntText(r.mtu, s4);
    var s2 := ",\"mtu\":" + s3;
    LitText("{\"interface\":{\"ipv4_network_address\":", StringText(r.address, s2));
    StringTextParses(r.address, s2);
    LitText(",\"mtu\":", s3);
    IntTextParses(r.mtu, s4);
    LitText("},\"ports\":{\"ephemeral\":", s5);
    RangeTextParses(r.ephemeral, s6);
    LitText(",\"service\":", s7);
    RangesTextParses(r.service, s8);
    LitText("}}", after);
  }

  /** A printed record parses to itself. */
  lemma PrintParses(r: Record)
    ensures Parse(Print(r)) == Some(r)
  {
    RecordTextParses(r, "");
  }

  // Text that is cut short does not parse

  /** A successful parse is not disturbed by more text at the end. */
  ghost predicate Extends<T>(a: Option<Parsed<T>>, b: Option<Parsed<T>>, more: string) {
    a.Some? ==> b == Some(Parsed(a.value.value, a.value.rest + more))
  }

  lemma LitMore(lit: string, s: string, more: string)
    ensures Lit(lit, s).Some? ==> Lit(lit, s + more) == Some(Lit(lit, s).value + more)
    ensures |lit| == 1 && s != "" ==> (Lit(lit, s + more).Some? <==> Lit(lit, s).Some?)
  {
    if lit <= s {
      assert (s + more)[|lit|..] == s[|lit|..] + more;
    }
  }

  lemma {:induction false} SpanMore(s: string, more: string)
    requires Span(s) < |s|
    ensures Span(s + more) == Span(s)
    decreases |s|
  {
    if IsDigit(s[0]) {
      SpanMore(s[1..], more);
      assert (s + more)[1..] == s[1..] + more;
    }
  }

  /** A number must be seen to end before it is known. */
  lemma NatMore(s: string, more: string)
    requires ParseNat(s).Some? && ParseNat(s).value.rest != ""
    ensures Extends(ParseNat(s), ParseNat(s + more), more)
  {
    var n := Span(s);
    SpanMore(s, more);
    assert (s + more)[..n] == s[..n];
    assert (s + more)[n..] == s[n..] + more;
  }

  lemma PortMore(s: string, more: string)
    requires ParsePort(s).Some? && ParsePort(s).value.rest != ""
    ensures Extends(ParsePort(s), ParsePort(s + more), more)
  {
    NatMore(s, more);
  }

  lemma IntMore(s: string, more: string)
    requires ParseInt(s).Some? && ParseInt(s).value.rest != ""
    ensures Extends(ParseInt(s), ParseInt(s + more), more)
  {
    if s[0] == '-' {
      NatMore(s[1..], more);
      assert (s + more)[1..] == s[1..] + more;
    } else {
      NatMore(s, more);
    }
  }

  lemma HexMore(s: string, more: string)
    ensures Extends(ParseHex(s), ParseHex(s + more), more)
  {
    if |s| >= 4 {
      assert (s + more)[4..] == s[4..] + more;
    }
  }

  lemma CharMore(s: string, more: string)
    ensures Extends(ParseChar(s), ParseChar(s + more), more)
  {
    if s != "" {
      assert (s + more)[1..] == s[1..] + more;
      if |s| > 1 {
        assert (s[1..] + more)[1..] == s[1..][1..] + more;
        HexMore(s[1..][1..], more);
      }
    }
  }

  lemma {:induction false} CharsMore(s: string, more: string)
    ensures Extends(ParseChars(s), ParseChars(s + more), more)
    decreases |s|
  {
    if ParseChars(s).Some? {
      if s[0] == QUOTE {
        assert (s + more)[1..] == s[1..] + more;
      } else {
        CharMore(s, more);
        CharsMore(ParseChar(s).value.rest, more);
      }
    }
  }

  lemma StringMore(s: string, more: string)
    ensures Extends(ParseString(s), ParseString(s + more), more)
  {
    LitMore([QUOTE], s, more);
    if Lit([QUOTE], s).Some? {
      CharsMore(Lit([QUOTE], s).value, more);
    }
  }

  lemma RangeMore(s: string, more: string)
    ensures Extends(ParseRange(s), ParseRange(s + more), more)
  {
    if ParseRange(s).Some? {
      var s1 := Lit("{\"from\":", s).value;
      var s2 := ParsePort(s1).value.rest;
      var s3 := Lit(",\"to\":", s2).value;
      var s4 := ParsePort(s3).value.rest;
      LitMore("{\"from\":", s, more);
      PortMore(s1, more);
      LitMore(",\"to\":", s2, more);
      PortMore(s3, more);
      LitMore("}", s4, more);
    }
  }

  lemma MoreMoreStep(s: string, more: string)
    requires ParseMore(s).Some?
    requires
      var comma := Lit(",", ParseRange(s).value.rest);
      comma.Some? ==> Extends(ParseMore(comma.value), ParseMore(comma.value + more), more)
    ensures Extends(ParseMore(s), ParseMore(s + more), more)
  {
    var s1 := ParseRange(s).value.rest;
    RangeMore(s, more);
    LitMore(",", s1, more);
    LitMore("]", s1, more);
  }

  lemma {:induction false} MoreMore(s: string, more: string)
    ensures Extends(ParseMore(s), ParseMore(s + more), more)
    decreases |s|
  {
    if ParseMore(s).Some? {
      var comma := Lit(",", ParseRange(s).value.rest);
      if comma.Some? {
        MoreMore(comma.value, more);
      }
      MoreMoreStep(s, more);
    }
  }

  lemma RangesMore(s: string, more: string)
    ensures Extends(ParseRanges(s), ParseRanges(s + more), more)
  {
    LitMore("[", s, more);
    if ParseRanges(s).Some? {
      var s1 := Lit("[", s).value;
      LitMore("]", s1, more);
      if Lit("]", s1).None? {
        MoreMore(s1, more);
      }
    }
  }

  lemma RecordMore(s: string, more: string)
    ensures Extends(ParseRecord(s), ParseRecord(s + more), more)
  {
    if ParseRecord(s).Some? {
      var s1 := Lit("{\"interface\":{\"ipv4_network_address\":", s).value;
      var s2 := ParseString(s1).value.rest;
      var s3 := Lit(",\"mtu\":", s2).value;
      var s4 := ParseInt(s3).value.rest;
      var s5 := Lit("},\"ports\":{\"ephemeral\":", s4).value;
      var s6 := ParseRange(s5).value.rest;
      var s7 := Lit(",\"service\":", s6).value;
      var s8 := ParseRanges(s7).value.rest;
      LitMore("{\"interface\":{\"ipv4_network_address\":", s, more);
      StringMore(s1, more);
      LitMore(",\"mtu\":", s2, more);
      IntMore(s3, more);
      LitMore("},\"ports\":{\"ephemeral\":", s4, more);
      RangeMore(s5, more);
      LitMore(",\"service\":", s6, more);
      RangesMore(s7, more);
      LitMore("}}", s8, more);
    }
  }

  /** The record is all of the text. */
  predicate Whole(p: Option<Parsed<Record>>) {
    p.Some? && p.value.rest == ""
  }

  lemma ParseIsWhole(s: string)
    ensures Parse(s).Some? <==> Whole(ParseRecord(s))
  {
  }

  lemma WholeOnce(a: Option<Parsed<Record>>, b: Option<Parsed<Record>>, more: string)
    requires Extends(a, b, more) && more != "" && Whole(b)
    ensures !Whole(a)
  {
  }

  /** No proper prefix of a text that parses does parse. */
  lemma {:induction false} PrefixIsRejected(text: string, n: nat)
    requires Parse(text).Some? && n < |text|
    ensures Parse(text[..n]).None?
  {
    var part, more := text[..n], text[n..];
    ParseIsWhole(part);
    ParseIsWhole(text);
    RecordMore(part, more);
    assert part + more == text;
    WholeOnce(ParseRecord(part), ParseRecord(text), more);
  }
}
