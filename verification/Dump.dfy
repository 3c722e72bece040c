/**
 The trace rendering of packets: which fields are read from which bytes. Text is kept
 as a value per message, so that what is printed can be compared with what was encoded.
 */
module Dump {
  import opened Wrappers
  import opened Octets
  import Ipv4

  const IPV4_MIN_HEADER_LEN := 20
  const TCP_MIN_HEADER_LEN := 20
  const UDP_HEADER_LEN := 8

  // TCP options (sections 3.1 and 3.2 of RFC 9293)

  const TCPOPT_EOL: Byte := 0
  const TCPOPT_NOP: Byte := 1
  const TCPOPT_MSS: Byte := 2
  const TCPOPT_WSCALE: Byte := 3
  const TCPOPT_SACK_PERMITTED: Byte := 4
  const TCPOPT_SACK: Byte := 5
  const TCPOPT_TIMESTAMP: Byte := 8

  datatype Block = Block(left: nat, right: nat)

  datatype Item =
    | Eol
    | Nop
    | Mss(value: nat)
    | Wscale(shift: Byte)
    | SackOk
    | Sack(blocks: seq<Block>)
    | Timestamp(value: nat, echo: nat)
    | Unknown(kind: Byte, len: nat)
    | Malformed(kind: Byte)

  /** An option, the bytes it was read from, and whether reading ends with it. */
  datatype Visit = Visit(item: Item, bytes: seq<Byte>, last: bool)

  /** The blocks of a SACK option (section 3 of RFC 2018). */
  function Blocks(data: seq<Byte>): seq<Block> {
    if |data| < 8 then []
    else [Block(U32(data[0], data[1], data[2], data[3]), U32(data[4], data[5], data[6], data[7]))]
         + Blocks(data[8..])
  }

  /** What the data of an option of some kind says. */
  function ItemOf(kind: Byte, data: seq<Byte>): Item {
    if kind == TCPOPT_MSS && |data| == 2 then Mss(U16(data[0], data[1]))
    else if kind == TCPOPT_WSCALE && |data| == 1 then Wscale(data[0])
    else if kind == TCPOPT_SACK_PERMITTED && data == [] then SackOk
    else if kind == TCPOPT_SACK && |data| % 8 == 0 then Sack(Blocks(data))
    else if kind == TCPOPT_TIMESTAMP && |data| == 8 then
      Timestamp(U32(data[0], data[1], data[2], data[3]), U32(data[4], data[5], data[6], data[7]))
    else Unknown(kind, 2 + |data|)
  }

  function VisitFirst(options: seq<Byte>): (v: Visit)
    requires options != []
    ensures v.bytes <= options
    ensures !v.last ==> v.bytes != []
  {
    var kind := options[0];
    if kind == TCPOPT_EOL then Visit(Eol, options[..1], true)
    else if kind == TCPOPT_NOP then Visit(Nop, options[..1], false)
    else if |options| < 2 || options[1] < 2 || |options| < options[1] then Visit(Malformed(kind), [], true)
    else Visit(ItemOf(kind, options[2..options[1]]), options[..options[1]], false)
  }

  datatype Walk = Walk(items: seq<Item>, bytes: seq<seq<Byte>>, tail: seq<Byte>)

  /** All options, in order, and the bytes that are not looked at. */
  function WalkOptions(options: seq<Byte>): Walk
    decreases |options|
  {
    if options == [] then Walk([], [], [])
    else
      var v := VisitFirst(options);
      var rest := options[|v.bytes|..];
      if v.last then Walk([v.item], [v.bytes], rest)
      else
        var w := WalkOptions(rest);
        Walk([v.item] + w.items, [v.bytes] + w.bytes, w.tail)
  }

  /** The options visited and the tail make up the input, byte for byte. */
  lemma {:induction false} WalkPartitions(options: seq<Byte>)
    ensures Flatten(WalkOptions(options).bytes) + WalkOptions(options).tail == options
    ensures |WalkOptions(options).bytes| == |WalkOptions(options).items|
    decreases |options|
  {
    if options != [] {
      var v := VisitFirst(options);
      var rest := options[|v.bytes|..];
      assert v.bytes + rest == options;
      if v.last {
        FlattenCons(v.bytes, []);
        assert [v.bytes] + [] == [v.bytes];
      } else {
        WalkPartitions(rest);
        FlattenCons(v.bytes, WalkOptions(rest).bytes);
        Associative(v.bytes, Flatten(WalkOptions(rest).bytes), WalkOptions(rest).tail);
      }
    }
  }

  // Encoding

  /** The option is one that a sender can encode, other than the end of the list. */
  predicate Encodable(i: Item) {
    match i
    case Nop => true
    case Mss(v) => v < 0x1_0000
    case Wscale(_) => true
    case SackOk => true
    case Sack(blocks) =>
      |blocks| <= 31 && forall k :: 0 <= k < |blocks| ==> IsBlock(blocks[k])
    case Timestamp(v, e) => v < 0x1_0000_0000 && e < 0x1_0000_0000
    case _ => false
  }

  predicate IsBlock(b: Block) {
    b.left < 0x1_0000_0000 && b.right < 0x1_0000_0000
  }

  function EncodeBlocks(blocks: seq<Block>): (data: seq<Byte>)
    requires forall k :: 0 <= k < |blocks| ==> IsBlock(blocks[k])
    ensures |data| == 8 * |blocks|
  {
    if blocks == [] then []
    else
      assert IsBlock(blocks[0]);
      BigEndian32(blocks[0].left) + BigEndian32(blocks[0].right) + EncodeBlocks(blocks[1..])
  }

  function EncodeData(i: Item): (data: seq<Byte>)
    requires Encodable(i) && !i.Nop?
    ensures |data| <= 253
  {
    match i
    case Mss(v) => BigEndian(v)
    case Wscale(shift) => [shift]
    case SackOk => []
    case Sack(blocks) => EncodeBlocks(blocks)
    case Timestamp(v, e) => BigEndian32(v) + BigEndian32(e)
  }

  function KindOf(i: Item): Byte
    requires Encodable(i)
  {
    match i
    case Nop => TCPOPT_NOP
    case Mss(_) => TCPOPT_MSS
    case Wscale(_) => TCPOPT_WSCALE
    case SackOk => TCPOPT_SACK_PERMITTED
    case Sack(_) => TCPOPT_SACK
    case Timestamp(_, _) => TCPOPT_TIMESTAMP
  }

  function Encode(i: Item): (bytes: seq<Byte>)
    requires Encodable(i)
    ensures bytes != []
  {
    if i.Nop? then [TCPOPT_NOP] else [KindOf(i), 2 + |EncodeData(i)|] + EncodeData(i)
  }

  predicate AllEncodable(items: seq<Item>) {
    forall k :: 0 <= k < |items| ==> Encodable(items[k])
  }

  function EncodeAll(items: seq<Item>): seq<Byte>
    requires AllEncodable(items)
  {
    if items == [] then [] else Encode(items[0]) + EncodeAll(items[1..])
  }

  lemma {:induction false} BlocksOfEncoding(blocks: seq<Block>)
    requires forall k :: 0 <= k < |blocks| ==> IsBlock(blocks[k])
    ensures Blocks(EncodeBlocks(blocks)) == blocks
  {
    if blocks != [] {
      assert IsBlock(blocks[0]);
      var data := EncodeBlocks(blocks);
      assert data[..4] == BigEndian32(blocks[0].left);
      assert data[4..8] == BigEndian32(blocks[0].right);
      assert data[8..] == EncodeBlocks(blocks[1..]);
      BlocksOfEncoding(blocks[1..]);
    }
  }

  lemma ItemOfEncoding(i: Item)
    requires Encodable(i) && !i.Nop?
    ensures ItemOf(KindOf(i), EncodeData(i)) == i
  {
    match i
    case Sack(blocks) => BlocksOfEncoding(blocks);
    case Timestamp(v, e) =>
      assert EncodeData(i)[..4] == BigEndian32(v);
      assert EncodeData(i)[4..8] == BigEndian32(e);
    case _ =>
  }

  lemma VisitEncoding(i: Item, rest: seq<Byte>)
    requires Encodable(i)
    ensures VisitFirst(Encode(i) + rest) == Visit(i, Encode(i), false)
  {
    var options := Encode(i) + rest;
    assert options[..|Encode(i)|] == Encode(i);
    if !i.Nop? {
      ItemOfEncoding(i);
      assert options[2..options[1]] == EncodeData(i);
    }
  }

  /** The walk shows these items and goes on with the rest. */
  predicate Continues(options: seq<Byte>, items: seq<Item>, rest: seq<Byte>) {
    && WalkOptions(options).items == items + WalkOptions(rest).items
    && WalkOptions(options).tail == WalkOptions(rest).tail
  }

  lemma WalkStep(i: Item, more: seq<Byte>)
    requires Encodable(i)
    ensures Continues(Encode(i) + more, [i], more)
  {
    VisitEncoding(i, more);
    assert (Encode(i) + more)[|Encode(i)|..] == more;
  }

  lemma ContinuesMore(options: seq<Byte>, i: Item, more: seq<Byte>, items: seq<Item>, rest: seq<Byte>)
    requires Continues(options, [i], more) && Continues(more, items, rest)
    ensures Continues(options, [i] + items, rest)
  {
    Associative([i], items, WalkOptions(rest).items);
  }

  /**
   Reading what was encoded gives back the options, SACK blocks included, and goes on with
   what follows: nothing, or the end of the list and padding.
   */
  lemma {:induction false} WalkOfEncoding(items: seq<Item>, rest: seq<Byte>)
    requires AllEncodable(items)
    ensures Continues(EncodeAll(items) + rest, items, rest)
  {
    if items == [] {
      assert EncodeAll(items) + rest == rest;
    } else {
      var more := EncodeAll(items[1..]) + rest;
      WalkOfEncoding(items[1..], rest);
      WalkStep(items[0], more);
      ContinuesMore(Encode(items[0]) + more, items[0], more, items[1..], rest);
      Associative(Encode(items[0]), EncodeAll(items[1..]), rest);
      assert [items[0]] + items[1..] == items;
    }
  }

  /** The layout of each option, as in section 3.2 of RFC 9293, RFC 7323 and RFC 2018. */
  lemma OptionLayout(i: Item)
    requires Encodable(i)
    ensures
      match i
      case Nop => Encode(i) == [1]
      case Mss(v) => Encode(i) == [2, 4] + BigEndian(v)
      case Wscale(shift) => Encode(i) == [3, 3] + [shift]
      case SackOk => Encode(i) == [4, 2] + []
      case Sack(blocks) => Encode(i) == [5, 2 + 8 * |blocks|] + EncodeBlocks(blocks)
      case Timestamp(v, e) => Encode(i) == [8, 10] + (BigEndian32(v) + BigEndian32(e))
      case _ => true
  {
    if !i.Nop? {
      assert Encode(i) == [KindOf(i), 2 + |EncodeData(i)|] + EncodeData(i);
    }
  }

  lemma {:induction false} EncodingOfBlocks(data: seq<Byte>)
    requires |data| % 8 == 0
    ensures |Blocks(data)| == |data| / 8
    ensures forall k :: 0 <= k < |Blocks(data)| ==> IsBlock(Blocks(data)[k])
    ensures EncodeBlocks(Blocks(data)) == data
    decreases |data|
  {
    if data != [] {
      EncodingOfBlocks(data[8..]);
      var bs := Blocks(data);
      assert bs[1..] == Blocks(data[8..]);
      BigEndian32OfU32(data[0], data[1], data[2], data[3]);
      BigEndian32OfU32(data[4], data[5], data[6], data[7]);
      assert data == data[..4] + data[4..8] + data[8..];
    }
  }

  /** The data has the length that options of this kind have. */
  predicate Known(kind: Byte, len: nat) {
    || (kind == 2 && len == 2)
    || (kind == 3 && len == 1)
    || (kind == 4 && len == 0)
    || (kind == 5 && len % 8 == 0)
    || (kind == 8 && len == 8)
  }

  /** An option of a known kind and length is shown as what encodes to its bytes, any other as unknown. */
  lemma ItemExactly(kind: Byte, data: seq<Byte>)
    requires kind > 1 && |data| <= 253
    ensures
      var i := ItemOf(kind, data);
      if Known(kind, |data|) then Encodable(i) && Encode(i) == [kind, 2 + |data|] + data
      else i == Unknown(kind, 2 + |data|)
  {
    if kind == 2 && |data| == 2 {
      BigEndianOfU16(data[0], data[1]);
    } else if kind == 5 && |data| % 8 == 0 {
      EncodingOfBlocks(data);
    } else if kind == 8 && |data| == 8 {
      BigEndian32OfU32(data[0], data[1], data[2], data[3]);
      BigEndian32OfU32(data[4], data[5], data[6], data[7]);
    }
  }

  /** Any option with a valid length is shown, and the walk goes on behind it. */
  lemma WalkOfOption(kind: Byte, data: seq<Byte>, rest: seq<Byte>)
    requires kind > 1 && |data| <= 253
    ensures Continues([kind, 2 + |data|] + data + rest, [ItemOf(kind, data)], rest)
  {
    var options := [kind, 2 + |data|] + data + rest;
    assert options[2..options[1]] == data;
    assert options[..options[1]] == [kind, 2 + |data|] + data;
    assert options[options[1]..] == rest;
  }

  /** The end of the list ends the walk, whatever follows. */
  lemma WalkOfEnd(rest: seq<Byte>)
    ensures WalkOptions([0] + rest).items == [Eol] && WalkOptions([0] + rest).tail == rest
  {
    assert ([0] + rest)[..1] == [0];
  }

  /** A length that is missing, below 2 or beyond the end makes the option malformed and ends the walk. */
  lemma WalkOfMalformed(kind: Byte, rest: seq<Byte>)
    requires kind > 1
    requires rest == [] || rest[0] < 2 || 1 + |rest| < rest[0]
    ensures WalkOptions([kind] + rest).items == [Malformed(kind)] && WalkOptions([kind] + rest).tail == [kind] + rest
  {
    assert ([kind] + rest)[..0] == [];
  }

  /** What the formatter is given. */
  datatype Piece = Comma | Text(item: Item)

  function Listed(items: seq<Item>): seq<Piece> {
    if items == [] then []
    else if |items| == 1 then [Text(items[0])]
    else Listed(items[..|items| - 1]) + [Comma, Text(items[|items| - 1])]
  }

  lemma ListedSnoc(items: seq<Item>, i: Item)
    ensures Listed(items + [i]) == Listed(items) + (if items == [] then [Text(i)] else [Comma, Text(i)])
  {
    assert (items + [i])[..|items|] == items;
  }

  /** Every item is printed, in order, with a comma between each two. */
  lemma {:induction false} ListedAlternates(items: seq<Item>)
    requires items != []
    ensures |Listed(items)| == 2 * |items| - 1
    ensures forall k :: 0 <= k < |items| ==> Listed(items)[2 * k] == Text(items[k])
    ensures forall k :: 0 <= k < |items| - 1 ==> Listed(items)[2 * k + 1] == Comma
    decreases |items|
  {
    if |items| > 1 {
      ListedAlternates(items[..|items| - 1]);
    }
  }

  /** The inner loop, over the chunks of a SACK option. */
  method SackBlocks(data: seq<Byte>) returns (blocks: seq<Block>)
    requires |data| % 8 == 0
    ensures blocks == Blocks(data)
  {
    blocks := [];
    var rest := data;
    ghost var left := |data| / 8;
    while rest != []
      invariant |rest| == 8 * left
      invariant BlocksSoFar(data, blocks, rest)
      decreases left
    {
      var chunk := rest[..8];
      var block := Block(U32(chunk[0], chunk[1], chunk[2], chunk[3]), U32(chunk[4], chunk[5], chunk[6], chunk[7]));
      NextBlock(data, blocks, rest);
      blocks := blocks + [block];
      rest := rest[8..];
      left := left - 1;
    }
  }

  predicate BlocksSoFar(data: seq<Byte>, blocks: seq<Block>, rest: seq<Byte>) {
    Blocks(data) == blocks + Blocks(rest)
  }

  lemma NextBlock(data: seq<Byte>, blocks: seq<Block>, rest: seq<Byte>)
    requires |rest| >= 8 && BlocksSoFar(data, blocks, rest)
    ensures
      var block := Block(U32(rest[0], rest[1], rest[2], rest[3]), U32(rest[4], rest[5], rest[6], rest[7]));
      BlocksSoFar(data, blocks + [block], rest[8..])
  {
    var block := Block(U32(rest[0], rest[1], rest[2], rest[3]), U32(rest[4], rest[5], rest[6], rest[7]));
    Associative(blocks, [block], Blocks(rest[8..]));
  }

  /** The branches of `TcpOptions::fmt`, for the option at the front. */
  method RenderOption(options: seq<Byte>) returns (item: Item, used: nat, last: bool)
    requires options != []
    ensures used <= |options| && VisitFirst(options) == Visit(item, options[..used], last)
  {
    var kind := options[0];
    if kind == TCPOPT_EOL { return Eol, 1, true; }
    if kind == TCPOPT_NOP { return Nop, 1, false; }
    if |options| < 2 { return Malformed(kind), 0, true; }
    var len := options[1];
    if len < 2 || |options| < len { return Malformed(kind), 0, true; }
    var data := options[2..len];
    if kind == TCPOPT_SACK && |data| % 8 == 0 {
      var blocks := SackBlocks(data);
      return Sack(blocks), len, false;
    }
    return ItemOf(kind, data), len, false;
  }

  /** `seen` has been rendered of `bytes`, and `options` is what remains. */
  predicate Rendered(bytes: seq<Byte>, seen: seq<Item>, options: seq<Byte>) {
    WalkOptions(bytes).items == seen + WalkOptions(options).items
  }

  lemma RenderedStarts(bytes: seq<Byte>)
    ensures Rendered(bytes, [], bytes)
  {
  }

  lemma RenderedNext(bytes: seq<Byte>, seen: seq<Item>, options: seq<Byte>)
    requires options != [] && Rendered(bytes, seen, options)
    ensures
      var v := VisitFirst(options);
      Rendered(bytes, seen + [v.item], if v.last then [] else options[|v.bytes|..])
  {
    var v := VisitFirst(options);
    var more := if v.last then [] else WalkOptions(options[|v.bytes|..]).items;
    assert WalkOptions(options).items == [v.item] + more;
    Associative(seen, [v.item], more);
  }

  lemma RenderedEnds(bytes: seq<Byte>, seen: seq<Item>)
    requires Rendered(bytes, seen, [])
    ensures seen == WalkOptions(bytes).items
  {
  }

  /** `TcpOptions::fmt`. */
  method TcpOptions(bytes: seq<Byte>) returns (out: seq<Piece>)
    ensures out == Listed(WalkOptions(bytes).items)
  {
    out := [];
    var first := true;
    var options := bytes;
    ghost var seen := [];
    RenderedStarts(bytes);
    while options != []
      invariant Rendered(bytes, seen, options)
      invariant out == Listed(seen)
      invariant first <==> seen == []
      decreases |options|
    {
      if !first { out := out + [Comma]; }
      first := false;
      var item, used, last := RenderOption(options);
      out := out + [Text(item)];
      RenderedNext(bytes, seen, options);
      ListedSnoc(seen, item);
      seen := seen + [item];
      if last {
        RenderedEnds(bytes, seen);
        return;
      }
      options := options[used..];
    }
    RenderedEnds(bytes, seen);
  }

  // TCP flags

  const FLAGS: seq<(Byte, char)> :=
    [(0x01, 'F'), (0x02, 'S'), (0x04, 'R'), (0x08, 'P'), (0x10, '.'), (0x20, 'U'), (0x40, 'E'), (0x80, 'W')]

  /** `flags & bit != 0`, for a power of two. */
  predicate IsSet(flags: Byte, bit: Byte)
    requires bit > 0
  {
    flags / bit % 2 == 1
  }

  function Labels(flags: Byte, n: nat): string
    requires n <= |FLAGS|
  {
    if n == 0 then ""
    else Labels(flags, n - 1) + (if IsSet(flags, FLAGS[n - 1].0) then [FLAGS[n - 1].1] else "")
  }

  /** `TcpFlags::fmt`. */
  method TcpFlags(flags: Byte) returns (out: string)
    ensures out == if flags == 0 then "none" else Labels(flags, 8)
  {
    out := "";
    var rendered := false;
    for n := 0 to |FLAGS|
      invariant out == Labels(flags, n)
      invariant rendered <==> out != ""
    {
      if IsSet(flags, FLAGS[n].0) {
        out := out + [FLAGS[n].1];
        rendered := true;
      }
    }
    NoLabels(flags);
    if !rendered { out := "none"; }
  }

  /** All labels, each with its bit, in the order in which they are printed. */
  lemma LabelsInFull(flags: Byte)
    ensures Labels(flags, 8)
            == (if IsSet(flags, 1) then "F" else "") + (if IsSet(flags, 2) then "S" else "")
               + (if IsSet(flags, 4) then "R" else "") + (if IsSet(flags, 8) then "P" else "")
               + (if IsSet(flags, 16) then "." else "") + (if IsSet(flags, 32) then "U" else "")
               + (if IsSet(flags, 64) then "E" else "") + (if IsSet(flags, 128) then "W" else "")
  {
    assert Labels(flags, 1) == if IsSet(flags, 1) then "F" else "";
    assert Labels(flags, 2) == Labels(flags, 1) + (if IsSet(flags, 2) then "S" else "");
    assert Labels(flags, 3) == Labels(flags, 2) + (if IsSet(flags, 4) then "R" else "");
    assert Labels(flags, 4) == Labels(flags, 3) + (if IsSet(flags, 8) then "P" else "");
    assert Labels(flags, 5) == Labels(flags, 4) + (if IsSet(flags, 16) then "." else "");
    assert Labels(flags, 6) == Labels(flags, 5) + (if IsSet(flags, 32) then "U" else "");
    assert Labels(flags, 7) == Labels(flags, 6) + (if IsSet(flags, 64) then "E" else "");
  }

  /** A label is printed exactly if its bit is set. */
  lemma {:induction false} LabelsTell(flags: Byte, n: nat)
    requires n <= |FLAGS|
    ensures forall k :: 0 <= k < n ==> (FLAGS[k].1 in Labels(flags, n) <==> IsSet(flags, FLAGS[k].0))
    ensures forall k :: n <= k < |FLAGS| ==> FLAGS[k].1 !in Labels(flags, n)
  {
    if n > 0 {
      LabelsTell(flags, n - 1);
    }
  }

  lemma Halves(a: Byte)
    ensures a / 2 / 2 == a / 4 && a / 4 / 2 == a / 8 && a / 8 / 2 == a / 16 && a / 16 / 2 == a / 32
    ensures a / 32 / 2 == a / 64 && a / 64 / 2 == a / 128 && a / 128 / 2 == 0
  {
  }

  lemma BitsMakeUp(a: Byte)
    ensures a == a % 2 + 2 * (a / 2 % 2) + 4 * (a / 4 % 2) + 8 * (a / 8 % 2) + 16 * (a / 16 % 2)
                 + 32 * (a / 32 % 2) + 64 * (a / 64 % 2) + 128 * (a / 128 % 2)
  {
    Halves(a);
    var a2, a4, a8, a16, a32, a64, a128 := a / 2, a / 4, a / 8, a / 16, a / 32, a / 64, a / 128;
    assert a == 2 * a2 + a % 2 && a2 == 2 * a4 + a2 % 2 && a4 == 2 * a8 + a4 % 2;
    assert a8 == 2 * a16 + a8 % 2 && a16 == 2 * a32 + a16 % 2 && a32 == 2 * a64 + a32 % 2;
    assert a64 == 2 * a128 + a64 % 2 && a128 == a128 % 2;
  }

  lemma SameBitsSameByte(a: Byte, b: Byte)
    requires a % 2 == b % 2 && a / 2 % 2 == b / 2 % 2 && a / 4 % 2 == b / 4 % 2 && a / 8 % 2 == b / 8 % 2
    requires a / 16 % 2 == b / 16 % 2 && a / 32 % 2 == b / 32 % 2
    requires a / 64 % 2 == b / 64 % 2 && a / 128 % 2 == b / 128 % 2
    ensures a == b
  {
    BitsMakeUp(a);
    BitsMakeUp(b);
  }

  lemma BitTells(a: Byte, b: Byte, bit: Byte)
    requires bit > 0 && (IsSet(a, bit) <==> IsSet(b, bit))
    ensures a / bit % 2 == b / bit % 2
  {
  }

  lemma BitsTell(a: Byte, b: Byte)
    requires forall k :: 0 <= k < |FLAGS| ==> (IsSet(a, FLAGS[k].0) <==> IsSet(b, FLAGS[k].0))
    ensures a == b
  {
    BitTells(a, b, FLAGS[0].0);
    BitTells(a, b, FLAGS[1].0);
    BitTells(a, b, FLAGS[2].0);
    BitTells(a, b, FLAGS[3].0);
    BitTells(a, b, FLAGS[4].0);
    BitTells(a, b, FLAGS[5].0);
    BitTells(a, b, FLAGS[6].0);
    BitTells(a, b, FLAGS[7].0);
    assert FLAGS[0].0 == 1 && a / 1 == a && b / 1 == b;
    SameBitsSameByte(a, b);
  }

  lemma ZeroHasNoBits(bit: Byte)
    requires bit > 0
    ensures !IsSet(0, bit)
  {
  }

  lemma NoBitsIsZero(flags: Byte)
    requires forall k :: 0 <= k < |FLAGS| ==> !IsSet(flags, FLAGS[k].0)
    ensures flags == 0
  {
    forall k | 0 <= k < |FLAGS| ensures !IsSet(0, FLAGS[k].0) {
      ZeroHasNoBits(FLAGS[k].0);
    }
    BitsTell(flags, 0);
  }

  lemma NoLabels(flags: Byte)
    ensures Labels(flags, 8) == "" <==> flags == 0
  {
    if Labels(flags, 8) == "" {
      LabelsTell(flags, 8);
      NoBitsIsZero(flags);
    } else {
      LabelsComeFromBits(flags, 8, Labels(flags, 8)[0]);
      var k :| 0 <= k < |FLAGS| && IsSet(flags, FLAGS[k].0);
      ZeroHasNoBits(FLAGS[k].0);
    }
  }

  lemma {:induction false} LabelsComeFromBits(flags: Byte, n: nat, c: char)
    requires n <= |FLAGS| && c in Labels(flags, n)
    ensures exists k :: 0 <= k < n && IsSet(flags, FLAGS[k].0)
  {
    if c in Labels(flags, n - 1) {
      LabelsComeFromBits(flags, n - 1, c);
    } else {
      assert IsSet(flags, FLAGS[n - 1].0);
    }
  }

  /** Different flags are rendered differently. */
  lemma FlagsAreDistinguished(a: Byte, b: Byte)
    requires Labels(a, 8) == Labels(b, 8)
    ensures a == b
  {
    LabelsTell(a, 8);
    LabelsTell(b, 8);
    BitsTell(a, b);
  }

  // Packets

  datatype Header = Header(
    version: Byte,
    headerLen: nat,
    totalLen: nat,
    protocol: Byte,
    src: seq<Byte>,
    dst: seq<Byte>)

  /** `Ipv4Packet::parse`. */
  function ParseHeader(packet: seq<Byte>): (h: Option<Header>)
    ensures h.Some? ==> IPV4_MIN_HEADER_LEN <= h.value.headerLen <= |packet|
  {
    if |packet| < IPV4_MIN_HEADER_LEN then None
    else
      var headerLen := 4 * (packet[0] % 16);
      if headerLen < IPV4_MIN_HEADER_LEN || |packet| < headerLen then None
      else Some(Header(packet[0] / 16, headerLen, U16(packet[2], packet[3]), packet[9], packet[12..16], packet[16..20]))
  }

  datatype Segment =
    | TcpTruncated(len: nat)
    | Tcp(srcPort: nat, dstPort: nat, flags: Byte, sequence: Option<(nat, nat)>, ack: Option<nat>, window: nat,
          urgent: Option<nat>, options: seq<Item>, dataLen: nat)
    | UdpTruncated(len: nat)
    | Udp(srcPort: nat, dstPort: nat, dataLen: nat)
    | Other(protocol: Byte, len: nat)

  datatype Rendering =
    | IpTruncated(len: nat)
    | OtherVersion(version: Byte, len: nat)
    | InvalidTotalLength(src: seq<Byte>, dst: seq<Byte>, totalLen: nat)
    | TruncatedIp(src: seq<Byte>, dst: seq<Byte>, missing: nat)
    | Ip(src: seq<Byte>, dst: seq<Byte>, segment: Segment)

  /** The flags with which an empty segment takes part in the sequence space or resets it. */
  predicate Notable(flags: Byte) {
    IsSet(flags, 0x01) || IsSet(flags, 0x02) || IsSet(flags, 0x04)
  }

  /** The sequence range wraps at 2^32. */
  function SequenceShown(sequence: nat, flags: Byte, dataLen: nat): Option<(nat, nat)> {
    if dataLen > 0 then Some((sequence, (sequence + dataLen) % 0x1_0000_0000))
    else if Notable(flags) then Some((sequence, sequence))
    else None
  }

  function TcpHeaderLen(payload: seq<Byte>): nat
    requires |payload| >= TCP_MIN_HEADER_LEN
  {
    4 * (payload[12] / 16)
  }

  /** `write_tcp`. */
  function RenderTcp(payload: seq<Byte>): (s: Segment)
    ensures s.TcpTruncated? || s.Tcp?
  {
    if |payload| < TCP_MIN_HEADER_LEN then TcpTruncated(|payload|)
    else
      var headerLen := TcpHeaderLen(payload);
      if headerLen < TCP_MIN_HEADER_LEN || |payload| < headerLen then TcpTruncated(|payload|)
      else
        var flags := payload[13];
        var dataLen := |payload| - headerLen;
        Tcp(U16(payload[0], payload[1]),
            U16(payload[2], payload[3]),
            flags,
            SequenceShown(U32(payload[4], payload[5], payload[6], payload[7]), flags, dataLen),
            if IsSet(flags, 0x10) then Some(U32(payload[8], payload[9], payload[10], payload[11])) else None,
            U16(payload[14], payload[15]),
            if IsSet(flags, 0x20) then Some(U16(payload[18], payload[19])) else None,
            WalkOptions(payload[TCP_MIN_HEADER_LEN..headerLen]).items,
            dataLen)
  }

  datatype TcpHeader = TcpHeader(
    srcPort: nat,
    dstPort: nat,
    sequence: nat,
    acknowledged: nat,
    flags: Byte,
    window: nat,
    checksum: nat,
    urgent: nat)

  predicate IsTcpHeader(h: TcpHeader) {
    && h.srcPort < 0x1_0000 && h.dstPort < 0x1_0000
    && h.sequence < 0x1_0000_0000 && h.acknowledged < 0x1_0000_0000
    && h.window < 0x1_0000 && h.checksum < 0x1_0000 && h.urgent < 0x1_0000
  }

  /** The fixed part of a header with so many words of options, as in section 3.1 of RFC 9293. */
  function FixedTcp(h: TcpHeader, words: nat): (bytes: seq<Byte>)
    requires IsTcpHeader(h) && words <= 10
    ensures |bytes| == TCP_MIN_HEADER_LEN
  {
    BigEndian(h.srcPort) + BigEndian(h.dstPort) + BigEndian32(h.sequence) + BigEndian32(h.acknowledged)
    + [16 * (5 + words), h.flags] + BigEndian(h.window) + BigEndian(h.checksum) + BigEndian(h.urgent)
  }

  function EncodeTcp(h: TcpHeader, options: seq<Byte>, data: seq<Byte>): seq<Byte>
    requires IsTcpHeader(h) && |options| % 4 == 0 && |options| <= 40
  {
    FixedTcp(h, |options| / 4) + options + data
  }

  /** Where the fields are. */
  predicate HasFields(p: seq<Byte>, h: TcpHeader, words: nat)
    requires |p| >= TCP_MIN_HEADER_LEN
  {
    && U16(p[0], p[1]) == h.srcPort && U16(p[2], p[3]) == h.dstPort
    && U32(p[4], p[5], p[6], p[7]) == h.sequence && U32(p[8], p[9], p[10], p[11]) == h.acknowledged
    && p[12] == 16 * (5 + words) && p[13] == h.flags
    && U16(p[14], p[15]) == h.window && U16(p[18], p[19]) == h.urgent
  }

  lemma FixedTcpHasFields(h: TcpHeader, words: nat)
    requires IsTcpHeader(h) && words <= 10
    ensures HasFields(FixedTcp(h, words), h, words)
  {
  }

  lemma EncodingHasFields(h: TcpHeader, options: seq<Byte>, data: seq<Byte>)
    requires IsTcpHeader(h) && |options| % 4 == 0 && |options| <= 40
    ensures
      var p := EncodeTcp(h, options, data);
      && |p| == TCP_MIN_HEADER_LEN + |options| + |data|
      && HasFields(p, h, |options| / 4)
      && p[TCP_MIN_HEADER_LEN..TCP_MIN_HEADER_LEN + |options|] == options
  {
    var fixed := FixedTcp(h, |options| / 4);
    var p := EncodeTcp(h, options, data);
    FixedTcpHasFields(h, |options| / 4);
    assert p[..TCP_MIN_HEADER_LEN] == fixed;
    assert forall i :: 0 <= i < TCP_MIN_HEADER_LEN ==> p[i] == p[..TCP_MIN_HEADER_LEN][i];
  }

  /**
   Every field that is printed is the one of the header; sequence, acknowledgement and
   urgent pointer are printed exactly when they are meaningful.
   */
  predicate Shows(s: Segment, h: TcpHeader, options: seq<Byte>, dataLen: nat) {
    && s.Tcp?
    && s.srcPort == h.srcPort && s.dstPort == h.dstPort && s.flags == h.flags && s.window == h.window
    && (s.sequence.Some? <==> dataLen > 0 || Notable(h.flags))
    && (s.sequence.Some? ==> s.sequence.value == (h.sequence, (h.sequence + dataLen) % 0x1_0000_0000))
    && s.ack == (if IsSet(h.flags, 0x10) then Some(h.acknowledged) else None)
    && s.urgent == (if IsSet(h.flags, 0x20) then Some(h.urgent) else None)
    && s.options == WalkOptions(options).items
    && s.dataLen == dataLen
  }

  lemma ShowsSequence(sequence: nat, flags: Byte, dataLen: nat)
    requires sequence < 0x1_0000_0000
    ensures
      var shown := SequenceShown(sequence, flags, dataLen);
      && (shown.Some? <==> dataLen > 0 || Notable(flags))
      && (shown.Some? ==> shown.value == (sequence, (sequence + dataLen) % 0x1_0000_0000))
  {
  }

  lemma HeaderLenOfWords(p: seq<Byte>, words: nat)
    requires |p| >= TCP_MIN_HEADER_LEN && p[12] == 16 * (5 + words)
    ensures TcpHeaderLen(p) == TCP_MIN_HEADER_LEN + 4 * words
  {
  }

  lemma ShowsFields(p: seq<Byte>, h: TcpHeader, options: seq<Byte>, dataLen: nat)
    requires IsTcpHeader(h) && |options| % 4 == 0 && |options| <= 40
    requires |p| == TCP_MIN_HEADER_LEN + |options| + dataLen && HasFields(p, h, |options| / 4)
    requires p[TCP_MIN_HEADER_LEN..TCP_MIN_HEADER_LEN + |options|] == options
    ensures Shows(RenderTcp(p), h, options, dataLen)
  {
    HeaderLenOfWords(p, |options| / 4);
    ShowsSequence(h.sequence, h.flags, dataLen);
    assert TcpHeaderLen(p) == TCP_MIN_HEADER_LEN + |options|;
  }

  /** Rendering an encoded segment shows what was encoded. */
  lemma RenderTcpOfEncoding(h: TcpHeader, options: seq<Byte>, data: seq<Byte>)
    requires IsTcpHeader(h) && |options| % 4 == 0 && |options| <= 40
    ensures Shows(RenderTcp(EncodeTcp(h, options, data)), h, options, |data|)
  {
    EncodingHasFields(h, options, data);
    ShowsFields(EncodeTcp(h, options, data), h, options, |data|);
  }

  /** `write_udp`; the length saturates at 0. */
  function RenderUdp(payload: seq<Byte>): (s: Segment)
    ensures s.UdpTruncated? || s.Udp?
  {
    if |payload| < UDP_HEADER_LEN then UdpTruncated(|payload|)
    else
      var length := U16(payload[4], payload[5]);
      Udp(U16(payload[0], payload[1]), U16(payload[2], payload[3]),
          if length < UDP_HEADER_LEN then 0 else length - UDP_HEADER_LEN)
  }

  function RenderSegment(protocol: Byte, payload: seq<Byte>): Segment {
    if protocol == Ipv4.PROTOCOL_TCP then RenderTcp(payload)
    else if protocol == Ipv4.PROTOCOL_UDP then RenderUdp(payload)
    else Other(protocol, |payload|)
  }

  /** `DumpPayload::fmt`, on every byte string. */
  function Render(packet: seq<Byte>): Rendering {
    var header := ParseHeader(packet);
    if header.None? then IpTruncated(|packet|)
    else
      var h := header.value;
      if h.version != 4 then OtherVersion(h.version, |packet|)
      else if h.totalLen < h.headerLen then InvalidTotalLength(h.src, h.dst, h.totalLen)
      else if |packet| < h.totalLen then TruncatedIp(h.src, h.dst, h.totalLen - |packet|)
      else Ip(h.src, h.dst, RenderSegment(h.protocol, packet[h.headerLen..h.totalLen]))
  }

  /**
   A byte string is rendered without complaint about its IP header exactly if the receiver
   would accept its first 20 bytes and has all of the packet that they announce.
   */
  lemma RendersExactlyWholePackets(packet: seq<Byte>)
    ensures Render(packet).Ip? <==> Ipv4.Inspect(packet).Whole?
    ensures Ipv4.WellFormed(packet) ==>
              && Render(packet).Ip?
              && Render(packet).src == packet[12..16] && Render(packet).dst == packet[16..20]
              && Render(packet).segment
                 == RenderSegment(Ipv4.ProtocolOf(packet), packet[4 * (packet[0] % 16)..])
  {
    if |packet| >= Ipv4.HEADER_LEN {
      assert packet[..Ipv4.HEADER_LEN][0] == packet[0];
      assert packet[..Ipv4.HEADER_LEN][2] == packet[2] && packet[..Ipv4.HEADER_LEN][3] == packet[3];
      if Ipv4.WellFormed(packet) {
        assert packet[4 * (packet[0] % 16)..|packet|] == packet[4 * (packet[0] % 16)..];
      }
    }
  }

  // What is printed of a packet, by its protocol

  /** The bytes behind the IPv4 header. */
  function PayloadOf(packet: seq<Byte>): seq<Byte>
    requires Ipv4.WellFormed(packet)
  {
    Ipv4.WellFormedFields(packet);
    packet[4 * (packet[0] % 16)..]
  }

  /** A packet of protocol 6 that carries a TCP segment is shown with the fields of that segment. */
  lemma RendersTcp(packet: seq<Byte>, h: TcpHeader, options: seq<Byte>, data: seq<Byte>)
    requires Ipv4.WellFormed(packet) && packet[9] == 6
    requires IsTcpHeader(h) && |options| % 4 == 0 && |options| <= 40
    requires PayloadOf(packet) == EncodeTcp(h, options, data)
    ensures Render(packet).Ip?
    ensures Render(packet).src == packet[12..16] && Render(packet).dst == packet[16..20]
    ensures Shows(Render(packet).segment, h, options, |data|)
  {
    RendersExactlyWholePackets(packet);
    RenderTcpOfEncoding(h, options, data);
  }

  /** A segment cut off before its options end is reported with its length. */
  lemma RendersCutTcp(packet: seq<Byte>, h: TcpHeader, options: seq<Byte>, data: seq<Byte>, n: nat)
    requires Ipv4.WellFormed(packet) && packet[9] == 6
    requires IsTcpHeader(h) && |options| % 4 == 0 && |options| <= 40
    requires n < TCP_MIN_HEADER_LEN + |options|
    requires PayloadOf(packet) == EncodeTcp(h, options, data)[..n]
    ensures Render(packet) == Ip(packet[12..16], packet[16..20], TcpTruncated(n))
  {
    RendersExactlyWholePackets(packet);
    EncodingHasFields(h, options, data);
    if n >= TCP_MIN_HEADER_LEN {
      HeaderLenOfWords(PayloadOf(packet), |options| / 4);
    }
  }

  /** A UDP datagram; its length may say what it wants. */
  function EncodeUdp(srcPort: nat, dstPort: nat, length: nat, checksum: nat, data: seq<Byte>): seq<Byte>
    requires srcPort < 0x1_0000 && dstPort < 0x1_0000 && length < 0x1_0000 && checksum < 0x1_0000
  {
    BigEndian(srcPort) + BigEndian(dstPort) + BigEndian(length) + BigEndian(checksum) + data
  }

  lemma RenderUdpOfEncoding(srcPort: nat, dstPort: nat, length: nat, checksum: nat, data: seq<Byte>)
    requires srcPort < 0x1_0000 && dstPort < 0x1_0000 && length < 0x1_0000 && checksum < 0x1_0000
    ensures RenderUdp(EncodeUdp(srcPort, dstPort, length, checksum, data))
            == Udp(srcPort, dstPort, if length >= 8 then length - 8 else 0)
  {
    var p := EncodeUdp(srcPort, dstPort, length, checksum, data);
    assert p[0..2] == BigEndian(srcPort) && p[2..4] == BigEndian(dstPort) && p[4..6] == BigEndian(length);
  }

  /** A packet of protocol 17 is shown with the ports, and the length that the datagram claims. */
  lemma RendersUdp(packet: seq<Byte>, srcPort: nat, dstPort: nat, length: nat, checksum: nat, data: seq<Byte>)
    requires Ipv4.WellFormed(packet) && packet[9] == 17
    requires srcPort < 0x1_0000 && dstPort < 0x1_0000 && length < 0x1_0000 && checksum < 0x1_0000
    requires PayloadOf(packet) == EncodeUdp(srcPort, dstPort, length, checksum, data)
    ensures Render(packet)
            == Ip(packet[12..16], packet[16..20], Udp(srcPort, dstPort, if length >= 8 then length - 8 else 0))
  {
    RendersExactlyWholePackets(packet);
    RenderUdpOfEncoding(srcPort, dstPort, length, checksum, data);
  }

  /** A datagram without room for its header is reported; any other protocol is shown by its number. */
  lemma RendersOthers(packet: seq<Byte>)
    requires Ipv4.WellFormed(packet)
    ensures packet[9] == 17 && |PayloadOf(packet)| < 8 ==>
              Render(packet) == Ip(packet[12..16], packet[16..20], UdpTruncated(|PayloadOf(packet)|))
    ensures packet[9] != 6 && packet[9] != 17 ==>
              Render(packet) == Ip(packet[12..16], packet[16..20], Other(packet[9], |PayloadOf(packet)|))
  {
    RendersExactlyWholePackets(packet);
  }

  /** What is printed of a packet of which only the first `n` bytes are there. */
  lemma RendersCutPacket(packet: seq<Byte>, n: nat)
    requires Ipv4.WellFormed(packet) && n < |packet|
    ensures Render(packet[..n])
            == if n < 4 * (packet[0] % 16) then IpTruncated(n)
               else TruncatedIp(packet[12..16], packet[16..20], |packet| - n)
  {
    Ipv4.WellFormedFields(packet);
    var cut := packet[..n];
    if n >= IPV4_MIN_HEADER_LEN {
      assert cut[12..16] == packet[12..16] && cut[16..20] == packet[16..20];
    }
  }

  /** What is printed of a packet whose version is overwritten. */
  lemma RendersOtherVersion(packet: seq<Byte>, version: nat)
    requires Ipv4.WellFormed(packet) && version < 16 && version != 4
    ensures Render(packet[0 := 16 * version + packet[0] % 16]) == OtherVersion(version, |packet|)
  {
    Ipv4.WellFormedFields(packet);
    var words := packet[0] % 16;
    assert (16 * version + words) / 16 == version && (16 * version + words) % 16 == words;
  }

  /** What is printed of a packet whose total length is overwritten with less than its header's. */
  lemma RendersShortTotal(packet: seq<Byte>, total: nat)
    requires Ipv4.WellFormed(packet) && total < 4 * (packet[0] % 16)
    ensures Render(packet[2 := total / 256][3 := total % 256])
            == InvalidTotalLength(packet[12..16], packet[16..20], total)
  {
    Ipv4.WellFormedFields(packet);
    var short := packet[2 := total / 256][3 := total % 256];
    assert short[12..16] == packet[12..16] && short[16..20] == packet[16..20];
  }
}
