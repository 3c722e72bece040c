/** The command line's port ranges and vsock addresses. */
module Parsers {
  import opened Wrappers
  import opened Decimal
  import opened Ports

  // Splitting

  /** `split`: the parts between all occurrences of a separator. */
  function Split(s: string, sep: char): (parts: seq<string>)
    ensures parts != []
  {
    if s == "" then [""]
    else
      var rest := Split(s[1..], sep);
      if s[0] == sep then [""] + rest else [[s[0]] + rest[0]] + rest[1..]
  }

  function Join(parts: seq<string>, sep: char): string
    requires parts != []
  {
    if |parts| == 1 then parts[0] else parts[0] + [sep] + Join(parts[1..], sep)
  }

  predicate Without(s: string, sep: char) {
    forall i :: 0 <= i < |s| ==> s[i] != sep
  }

  /** Splitting is undone by joining, and no part holds a separator. */
  lemma {:induction false} SplitJoins(s: string, sep: char)
    ensures Join(Split(s, sep), sep) == s
    ensures forall i :: 0 <= i < |Split(s, sep)| ==> Without(Split(s, sep)[i], sep)
  {
    if s != "" {
      SplitJoins(s[1..], sep);
      var rest := Split(s[1..], sep);
      if s[0] == sep {
        assert ([""] + rest)[1..] == rest;
      } else if |rest| > 1 {
        assert ([[s[0]] + rest[0]] + rest[1..])[1..] == rest[1..];
      }
    }
  }

  lemma {:induction false} SplitWithout(s: string, sep: char)
    requires Without(s, sep)
    ensures Split(s, sep) == [s]
  {
    if s != "" {
      SplitWithout(s[1..], sep);
      assert [s[0]] + s[1..] == s;
    }
  }

  lemma {:induction false} SplitTwo(a: string, b: string, sep: char)
    requires Without(a, sep) && Without(b, sep)
    ensures Split(a + [sep] + b, sep) == [a, b]
  {
    var s := a + [sep] + b;
    if a == "" {
      assert s[1..] == b;
      SplitWithout(b, sep);
    } else {
      assert s[1..] == a[1..] + [sep] + b;
      SplitTwo(a[1..], b, sep);
      assert [s[0]] + a[1..] == a;
    }
  }

  // PortRangeParser

  /** A port, or two ports in either order. */
  function ParsePortRange(value: string): (r: Option<Range>)
    ensures r.Some? ==> Normalised(r.value)
  {
    var parts := Split(value, '-');
    if |parts| > 2 then None
    else if |parts| == 1 then
      var port :- ParseUnsigned(parts[0], 0x1_0000);
      Some(Range(port, port))
    else
      var port0 :- ParseUnsigned(parts[0], 0x1_0000);
      var port1 :- ParseUnsigned(parts[1], 0x1_0000);
      if port0 < port1 then Some(Range(port0, port1)) else Some(Range(port1, port0))
  }

  /** `min` and `max` of two ports, as a range. */
  function Between(a: Port, b: Port): Range {
    if a <= b then Range(a, b) else Range(b, a)
  }

  /** The text is a port, or two ports with one hyphen between them; ports have no sign but plus. */
  ghost predicate DenotesRange(value: string, r: Range) {
    || (ParseUnsigned(value, 0x1_0000) == Some(r.from) && r.to == r.from)
    || (exists a: string, b: string ::
          && value == a + "-" + b
          && ParseUnsigned(a, 0x1_0000).Some? && ParseUnsigned(b, 0x1_0000).Some?
          && r == Between(ParseUnsigned(a, 0x1_0000).value, ParseUnsigned(b, 0x1_0000).value))
  }

  lemma NumbersHaveNoHyphen(s: string)
    requires ParseUnsigned(s, 0x1_0000).Some?
    ensures Without(s, '-')
  {
    if s[0] == '+' {
      assert forall i :: 0 < i < |s| ==> s[i] == s[1..][i - 1];
    }
  }

  lemma JoinTwo(parts: seq<string>, sep: char)
    requires |parts| == 2
    ensures Join(parts, sep) == parts[0] + [sep] + parts[1]
  {
    assert parts[1..] == [parts[1]];
  }

  lemma OnePortParses(value: string, port: Port)
    requires ParseUnsigned(value, 0x1_0000) == Some(port)
    ensures ParsePortRange(value) == Some(Range(port, port))
  {
    NumbersHaveNoHyphen(value);
    SplitWithout(value, '-');
  }

  lemma TwoPortsParse(a: string, b: string, p: Port, q: Port)
    requires ParseUnsigned(a, 0x1_0000) == Some(p) && ParseUnsigned(b, 0x1_0000) == Some(q)
    ensures ParsePortRange(a + "-" + b) == Some(Between(p, q))
  {
    NumbersHaveNoHyphen(a);
    NumbersHaveNoHyphen(b);
    SplitTwo(a, b, '-');
  }

  lemma DenotedIsParsed(value: string, r: Range)
    requires DenotesRange(value, r)
    ensures ParsePortRange(value) == Some(r)
  {
    if ParseUnsigned(value, 0x1_0000) == Some(r.from) && r.to == r.from {
      OnePortParses(value, r.from);
    } else {
      var a: string, b: string :|
        && value == a + "-" + b
        && ParseUnsigned(a, 0x1_0000).Some? && ParseUnsigned(b, 0x1_0000).Some?
        && r == Between(ParseUnsigned(a, 0x1_0000).value, ParseUnsigned(b, 0x1_0000).value);
      TwoPortsParse(a, b, ParseUnsigned(a, 0x1_0000).value, ParseUnsigned(b, 0x1_0000).value);
    }
  }

  lemma ParsedIsDenoted(value: string)
    requires ParsePortRange(value).Some?
    ensures DenotesRange(value, ParsePortRange(value).value)
  {
    SplitJoins(value, '-');
    if |Split(value, '-')| == 2 {
      JoinTwo(Split(value, '-'), '-');
    }
  }

  /** A text is accepted as a range exactly if it denotes that range. */
  lemma PortRangeExactly(value: string, r: Range)
    ensures ParsePortRange(value) == Some(r) <==> DenotesRange(value, r)
  {
    if DenotesRange(value, r) {
      DenotedIsParsed(value, r);
    }
    if ParsePortRange(value).Some? {
      ParsedIsDenoted(value);
    }
  }

  /** Every pair of ports can be written, and it does not matter in which order. */
  lemma PortRangeOfText(a: Port, b: Port)
    ensures ParsePortRange(Show(a)) == Some(Range(a, a))
    ensures ParsePortRange(Show(a) + "-" + Show(b)) == Some(Between(a, b))
  {
    ParseShown(a, 0x1_0000);
    ParseShown(b, 0x1_0000);
    OnePortParses(Show(a), a);
    TwoPortsParse(Show(a), Show(b), a, b);
  }

  // SocketAddressParser and display_sock_addr

  const VMADDR_CID_ANY := 0xFFFF_FFFF

  datatype VsockAddress = VsockAddress(cid: nat, port: nat)

  /** Both parts are `u32`. */
  predicate IsAddress(a: VsockAddress) {
    a.cid < 0x1_0000_0000 && a.port < 0x1_0000_0000
  }

  /** `split_once`: the parts before and after the first separator. */
  function SplitOnce(s: string, sep: char): Option<(string, string)> {
    if s == "" then None
    else if s[0] == sep then Some(("", s[1..]))
    else
      var (before, after) :- SplitOnce(s[1..], sep);
      Some(([s[0]] + before, after))
  }

  lemma {:induction false} SplitOnceAt(a: string, b: string, sep: char)
    requires Without(a, sep)
    ensures SplitOnce(a + [sep] + b, sep) == Some((a, b))
  {
    var s := a + [sep] + b;
    if a == "" {
      assert s[1..] == b;
    } else {
      assert s[1..] == a[1..] + [sep] + b;
      SplitOnceAt(a[1..], b, sep);
      assert [s[0]] + a[1..] == a;
    }
  }

  function ParseAddress(value: string): (r: Option<VsockAddress>)
    ensures r.Some? ==> IsAddress(r.value) && r.value.cid != 0
  {
    var (cid, port) :- SplitOnce(value, ':');
    var cid :- ParseUnsigned(cid, 0x1_0000_0000);
    var port :- ParseUnsigned(port, 0x1_0000_0000);
    Some(VsockAddress(if cid == 0 then VMADDR_CID_ANY else cid, port))
  }

  function DisplayAddress(a: VsockAddress): string {
    Show(if a.cid == VMADDR_CID_ANY then 0 else a.cid) + ":" + Show(a.port)
  }

  /** A displayed address is read back exactly if its cid is not 0. */
  lemma DisplayedAddressParses(a: VsockAddress)
    requires IsAddress(a)
    ensures ParseAddress(DisplayAddress(a)) == Some(a) <==> a.cid != 0
  {
    var cid := if a.cid == VMADDR_CID_ANY then 0 else a.cid;
    SplitOnceAt(Show(cid), Show(a.port), ':');
    ParseShown(cid, 0x1_0000_0000);
    ParseShown(a.port, 0x1_0000_0000);
  }

  /** The text is two numbers around a colon, of which the first may be 0 for any cid. */
  ghost predicate DenotesAddress(value: string, a: VsockAddress) {
    exists cid: string, port: string, n: nat ::
      && value == cid + ":" + port
      && ParseUnsigned(cid, 0x1_0000_0000) == Some(n)
      && ParseUnsigned(port, 0x1_0000_0000) == Some(a.port)
      && a.cid == (if n == 0 then 0xFFFF_FFFF else n)
  }

  lemma NumbersHaveNoColon(s: string)
    requires ParseUnsigned(s, 0x1_0000_0000).Some?
    ensures Without(s, ':')
  {
    if s[0] == '+' {
      assert forall i :: 0 < i < |s| ==> s[i] == s[1..][i - 1];
    }
  }

  lemma {:induction false} SplitOnceJoins(s: string, sep: char)
    requires SplitOnce(s, sep).Some?
    ensures SplitOnce(s, sep).value.0 + [sep] + SplitOnce(s, sep).value.1 == s
  {
    if s[0] == sep {
      assert "" + [sep] + s[1..] == s;
    } else {
      SplitOnceJoins(s[1..], sep);
      assert [s[0]] + s[1..] == s;
    }
  }

  /** A text is accepted as an address exactly if it denotes that address. */
  lemma AddressExactly(value: string, a: VsockAddress)
    ensures ParseAddress(value) == Some(a) <==> DenotesAddress(value, a)
  {
    if DenotesAddress(value, a) {
      var cid: string, port: string, n: nat :|
        && value == cid + ":" + port
        && ParseUnsigned(cid, 0x1_0000_0000) == Some(n)
        && ParseUnsigned(port, 0x1_0000_0000) == Some(a.port)
        && a.cid == (if n == 0 then 0xFFFF_FFFF else n);
      NumbersHaveNoColon(cid);
      SplitOnceAt(cid, port, ':');
    }
    if ParseAddress(value) == Some(a) {
      SplitOnceJoins(value, ':');
    }
  }

  /** Displaying and reading back an accepted text changes nothing, alias or not. */
  lemma DisplayIsStable(value: string)
    requires ParseAddress(value).Some?
    ensures ParseAddress(DisplayAddress(ParseAddress(value).value)) == ParseAddress(value)
  {
    DisplayedAddressParses(ParseAddress(value).value);
  }
}
