/**
 RLP as Appendix B of the Ethereum Yellow Paper defines it: the recursive
 encoding of an item tree, the decoder the repository builds on `readKind`,
 and the proof that the two are inverse to each other.
 */
module RlpSpec {
  import opened Machine

  type Byte = b: int | 0 <= b < 256

  /** An RLP item: a byte string or a list of items. */
  datatype Item = Str(bytes: seq<Byte>) | List(items: seq<Item>)

  // ---------- big-endian numbers ----------

  /** The shortest big-endian representation of n; empty for zero. */
  function BE(n: nat): seq<Byte> {
    if n == 0 then [] else BE(n / 256) + [n % 256]
  }

  function FromBE(b: seq<Byte>): nat {
    if b == [] then 0 else FromBE(b[..|b| - 1]) * 256 + b[|b| - 1]
  }

  function Pow256(k: nat): nat {
    if k == 0 then 1 else 256 * Pow256(k - 1)
  }

  lemma {:induction false} FromBEInvertsBE(n: nat)
    ensures FromBE(BE(n)) == n
  {
    if n != 0 {
      FromBEInvertsBE(n / 256);
      assert BE(n)[..|BE(n)| - 1] == BE(n / 256);
    }
  }

  lemma {:induction false} BEInvertsFromBE(b: seq<Byte>)
    requires b != [] ==> b[0] != 0
    ensures BE(FromBE(b)) == b
    ensures b != [] ==> FromBE(b) != 0
  {
    if b != [] {
      var front := b[..|b| - 1];
      BEInvertsFromBE(front);
      assert front == [] ==> FromBE(front) == 0;
      assert (FromBE(front) * 256 + b[|b| - 1]) / 256 == FromBE(front);
      assert b == front + [b[|b| - 1]];
    }
  }

  /** The length of the shortest representation is decided by the powers of 256. */
  lemma {:induction false} BELength(n: nat, k: nat)
    ensures |BE(n)| <= k <==> n < Pow256(k)
    ensures n != 0 ==> |BE(n)| > 0 && BE(n)[0] != 0
  {
    if n != 0 {
      BELength(n / 256, if k == 0 then 0 else k - 1);
      if k > 0 {
        assert n < 256 * Pow256(k - 1) <==> n / 256 < Pow256(k - 1);
      }
    }
    PowPositive(k);
  }

  lemma {:induction false} PowPositive(k: nat)
    ensures Pow256(k) > 0
  {
    if k > 0 { PowPositive(k - 1); }
  }

  lemma Pow256Eight()
    ensures Pow256(8) == TWO64
  {
    assert Pow256(4) == 0x1_0000_0000;
    assert Pow256(6) == 0x1_0000_0000_0000;
  }

  // ---------- the encoding ----------

  /**
   The header of a string (small 0x80, large 0xB7) or list (0xC0, 0xF7) whose
   payload has the given size. The tag is reduced to a byte as the repository
   does; for sizes below 2^64 the reduction does nothing, and for larger ones
   Appendix B leaves the encoding undefined.
   */
  function Head(small: Byte, large: Byte, size: nat): (h: seq<Byte>)
    ensures |h| >= 1
  {
    if size < 56 then [(small + size) % 256]
    else [(large + |BE(size)|) % 256] + BE(size)
  }

  function StrHead(size: nat): seq<Byte> { Head(0x80, 0xB7, size) }

  function ListHead(size: nat): seq<Byte> { Head(0xC0, 0xF7, size) }

  function Encode(item: Item): seq<Byte> {
    match item
    case Str(b) =>
      if |b| == 1 && b[0] < 0x80 then b else StrHead(|b|) + b
    case List(items) =>
      ListHead(|EncodeAll(items)|) + EncodeAll(items)
  }

  function EncodeAll(items: seq<Item>): seq<Byte> {
    if items == [] then [] else Encode(items[0]) + EncodeAll(items[1..])
  }

  lemma {:induction false} EncodeAllConcat(xs: seq<Item>, ys: seq<Item>)
    ensures EncodeAll(xs + ys) == EncodeAll(xs) + EncodeAll(ys)
  {
    if xs == [] {
      assert xs + ys == ys;
    } else {
      EncodeAllConcat(xs[1..], ys);
      assert (xs + ys)[1..] == xs[1..] + ys;
      assert Encode(xs[0]) + (EncodeAll(xs[1..]) + EncodeAll(ys))
          == (Encode(xs[0]) + EncodeAll(xs[1..])) + EncodeAll(ys);
    }
  }

  /** The encodings of a list's elements follow each other inside its payload. */
  lemma EncodeAllSplit(items: seq<Item>, i: nat)
    requires i < |items|
    ensures EncodeAll(items[..i + 1]) == EncodeAll(items[..i]) + Encode(items[i])
    ensures |EncodeAll(items[..i])| + |Encode(items[i])| <= |EncodeAll(items)|
  {
    EncodeAllConcat(items[..i], [items[i]]);
    EncodeAllConcat(items[..i + 1], items[i + 1..]);
    assert EncodeAll([items[i]]) == Encode(items[i]) + EncodeAll([]);
    assert items[..i + 1] == items[..i] + [items[i]];
    assert items == items[..i + 1] + items[i + 1..];
  }

  // ---------- the decoder ----------

  datatype Kind = KByte | KString | KList

  datatype DecodeError = UnexpectedEOF | CanonSize | ValueTooLarge

  datatype Result<+T> = Ok(value: T) | Err(error: DecodeError)

  datatype Split = Split(kind: Kind, tagSize: nat, contentSize: nat)

  datatype Decoded = Decoded(item: Item, rest: seq<Byte>)

  /** Reads a big-endian size of slen bytes, rejecting non-canonical ones. */
  function ReadSize(b: seq<Byte>, slen: nat): Result<nat>
    requires 1 <= slen
  {
    if slen > |b| then Err(UnexpectedEOF)
    else
      var s := FromBE(b[..slen]);
      if s < 56 || b[0] == 0 then Err(CanonSize) else Ok(s)
  }

  /** The kind, tag size and content size of the first value in buf. */
  function ReadKind(buf: seq<Byte>): (r: Result<Split>)
    ensures r.Ok? ==> 0 < r.value.tagSize + r.value.contentSize <= |buf|
    ensures r.Ok? && r.value.kind == KList ==> r.value.tagSize > 0
  {
    if buf == [] then Err(UnexpectedEOF)
    else
      var b := buf[0];
      if b < 0x80 then Ok(Split(KByte, 0, 1))
      else if b < 0xB8 then
        if b == 0x81 && |buf| > 1 && buf[1] < 0x80 then Err(CanonSize)
        else Bounded(buf, Split(KString, 1, b - 0x80))
      else if b < 0xC0 then LongKind(buf, KString, b - 0xB7)
      else if b < 0xF8 then Bounded(buf, Split(KList, 1, b - 0xC0))
      else LongKind(buf, KList, b - 0xF7)
  }

  /** A value whose size is given by the slen bytes after the tag. */
  function LongKind(buf: seq<Byte>, kind: Kind, slen: nat): Result<Split>
    requires buf != [] && 1 <= slen
  {
    match ReadSize(buf[1..], slen)
    case Err(e) => Err(e)
    case Ok(s) => Bounded(buf, Split(kind, slen + 1, s))
  }

  /** Rejects values larger than the input. */
  function Bounded(buf: seq<Byte>, s: Split): Result<Split> {
    if s.contentSize + s.tagSize > |buf| then Err(ValueTooLarge) else Ok(s)
  }

  /** Decodes the first item of b and returns what follows it. */
  function Decode(b: seq<Byte>): (r: Result<Decoded>)
    ensures r.Ok? ==> |r.value.rest| < |b|
    decreases |b|, 0
  {
    match ReadKind(b)
    case Err(e) => Err(e)
    case Ok(s) =>
      var content := b[s.tagSize..s.tagSize + s.contentSize];
      var rest := b[s.tagSize + s.contentSize..];
      if s.kind != KList then Ok(Decoded(Str(content), rest))
      else
        match DecodeAll(content)
        case Err(e) => Err(e)
        case Ok(items) => Ok(Decoded(List(items), rest))
  }

  /** Decodes a list payload: items up to the end of b. */
  function DecodeAll(b: seq<Byte>): Result<seq<Item>>
    decreases |b|, 1
  {
    if b == [] then Ok([])
    else
      match Decode(b)
      case Err(e) => Err(e)
      case Ok(d) =>
        match DecodeAll(d.rest)
        case Err(e) => Err(e)
        case Ok(items) => Ok([d.item] + items)
  }

  // ---------- encoder and decoder are inverse ----------

  /** The size field of a long header reads back as the payload size. */
  lemma SizeReadsBack(size: nat, rest: seq<Byte>)
    requires 56 <= size < TWO64
    ensures 1 <= |BE(size)| <= 8
    ensures ReadSize(BE(size) + rest, |BE(size)|) == Ok(size)
  {
    Pow256Eight();
    BELength(size, 8);
    FromBEInvertsBE(size);
    assert (BE(size) + rest)[..|BE(size)|] == BE(size);
  }

  /** A long header followed by its payload reads back. */
  lemma LongKindReadsBack(tag: Byte, kind: Kind, payload: seq<Byte>, rest: seq<Byte>)
    requires 56 <= |payload| < TWO64
    ensures 1 <= |BE(|payload|)| <= 8
    ensures LongKind((([tag] + BE(|payload|)) + payload) + rest, kind, |BE(|payload|)|)
            == Ok(Split(kind, |BE(|payload|)| + 1, |payload|))
  {
    SizeReadsBack(|payload|, payload + rest);
    var b := (([tag] + BE(|payload|)) + payload) + rest;
    assert b[1..] == BE(|payload|) + (payload + rest);
  }

  /** readKind on a canonical string header followed by its payload finds exactly that header. */
  lemma KindOfStr(b: seq<Byte>, rest: seq<Byte>)
    requires |b| < TWO64 && (|b| == 1 ==> b[0] >= 0x80)
    ensures ReadKind((StrHead(|b|) + b) + rest) == Ok(Split(KString, |StrHead(|b|)|, |b|))
  {
    hide BE, FromBE;
    var buf := (StrHead(|b|) + b) + rest;
    if |b| < 56 {
      assert buf[0] == 0x80 + |b|;
      assert |b| == 1 ==> buf[1] == b[0];
    } else {
      LongKindReadsBack(StrHead(|b|)[0], KString, b, rest);
    }
  }

  /** The same for lists. */
  lemma KindOfList(p: seq<Byte>, rest: seq<Byte>)
    requires |p| < TWO64
    ensures ReadKind((ListHead(|p|) + p) + rest) == Ok(Split(KList, |ListHead(|p|)|, |p|))
  {
    hide BE, FromBE;
    var buf := (ListHead(|p|) + p) + rest;
    if |p| < 56 {
      assert buf[0] == 0xC0 + |p|;
    } else {
      LongKindReadsBack(ListHead(|p|)[0], KList, p, rest);
    }
  }

  /** The decoder inverts the encoder, whatever bytes follow. */
  lemma {:induction false} DecodeInvertsEncode(item: Item, rest: seq<Byte>)
    requires |Encode(item)| < TWO64
    ensures Decode(Encode(item) + rest) == Ok(Decoded(item, rest))
    decreases item
  {
    match item
    case Str(b) =>
      if |b| == 1 && b[0] < 0x80 {
        assert (b + rest)[0..1] == b && (b + rest)[1..] == rest;
      } else {
        KindOfStr(b, rest);
        SliceMiddle(StrHead(|b|), b, rest);
      }
    case List(items) =>
      KindOfList(EncodeAll(items), rest);
      SliceMiddle(ListHead(|EncodeAll(items)|), EncodeAll(items), rest);
      DecodeAllInvertsEncodeAll(items);
  }

  lemma SliceMiddle(h: seq<Byte>, b: seq<Byte>, rest: seq<Byte>)
    ensures ((h + b) + rest)[|h|..|h| + |b|] == b
    ensures ((h + b) + rest)[|h| + |b|..] == rest
  {
  }

  lemma {:induction false} DecodeAllInvertsEncodeAll(items: seq<Item>)
    requires |EncodeAll(items)| < TWO64
    ensures DecodeAll(EncodeAll(items)) == Ok(items)
    decreases items
  {
    if items != [] {
      DecodeInvertsEncode(items[0], EncodeAll(items[1..]));
      DecodeAllInvertsEncodeAll(items[1..]);
      assert items == [items[0]] + items[1..];
    }
  }

  /** An accepted long size field is the shortest one for the size it gives. */
  lemma SizeIsCanonical(b: seq<Byte>, slen: nat)
    requires 1 <= slen <= 8
    requires ReadSize(b, slen).Ok?
    ensures slen <= |b| && BE(ReadSize(b, slen).value) == b[..slen]
  {
    BEInvertsFromBE(b[..slen]);
  }

  /** An accepted long header is the canonical one for the content size it announces. */
  lemma LongHeadIsCanonical(b: seq<Byte>, small: Byte, large: Byte)
    requires b != [] && large < b[0] <= large + 8 && large + 8 < 256
    requires ReadSize(b[1..], b[0] - large).Ok?
    ensures var n := b[0] - large + 1;
            n <= |b| && b[..n] == Head(small, large, ReadSize(b[1..], b[0] - large).value)
  {
    SizeIsCanonical(b[1..], b[0] - large);
    assert b[..b[0] - large + 1] == [b[0]] + b[1..][..b[0] - large];
  }

  /** What readKind accepts starts with the canonical header of the content it announces. */
  lemma KindHeadIsCanonical(b: seq<Byte>)
    requires ReadKind(b).Ok?
    ensures var s := ReadKind(b).value;
            match s.kind
            case KByte => s.tagSize == 0 && s.contentSize == 1 && b[0] < 0x80
            case KString => b[..s.tagSize] == StrHead(s.contentSize)
                            && (s.contentSize == 1 ==> s.tagSize == 1 && b[1] >= 0x80)
            case KList => b[..s.tagSize] == ListHead(s.contentSize)
  {
    if 0xB8 <= b[0] < 0xC0 {
      LongHeadIsCanonical(b, 0x80, 0xB7);
    } else if b[0] >= 0xF8 {
      LongHeadIsCanonical(b, 0xC0, 0xF7);
    }
  }

  /** Hence an accepted value is the encoding of its content. */
  lemma KindIsCanonical(b: seq<Byte>)
    requires ReadKind(b).Ok?
    ensures var s := ReadKind(b).value;
            var content := b[s.tagSize..s.tagSize + s.contentSize];
            b[..s.tagSize + s.contentSize] ==
            if s.kind == KList then ListHead(|content|) + content else Encode(Str(content))
  {
    KindHeadIsCanonical(b);
    var s := ReadKind(b).value;
    var content := b[s.tagSize..s.tagSize + s.contentSize];
    assert b[..s.tagSize + s.contentSize] == b[..s.tagSize] + content;
    assert s.contentSize > 0 ==> content[0] == b[s.tagSize];
  }

  /** The decoder accepts nothing but encodings: it is a partial inverse, not a lenient one. */
  lemma {:induction false} EncodeInvertsDecode(b: seq<Byte>)
    requires Decode(b).Ok?
    ensures b == Encode(Decode(b).value.item) + Decode(b).value.rest
    decreases |b|, 0
  {
    var s := ReadKind(b).value;
    var content := b[s.tagSize..s.tagSize + s.contentSize];
    KindIsCanonical(b);
    assert b == b[..s.tagSize + s.contentSize] + b[s.tagSize + s.contentSize..];
    if s.kind == KList {
      EncodeAllInvertsDecodeAll(content);
    }
  }

  lemma {:induction false} EncodeAllInvertsDecodeAll(b: seq<Byte>)
    requires DecodeAll(b).Ok?
    ensures EncodeAll(DecodeAll(b).value) == b
    decreases |b|, 1
  {
    if b != [] {
      EncodeInvertsDecode(b);
      var d := Decode(b).value;
      EncodeAllInvertsDecodeAll(d.rest);
      assert DecodeAll(b).value[1..] == DecodeAll(d.rest).value;
    }
  }

  /** Decoding succeeds with an item exactly on that item's encoding. */
  lemma DecodeExactly(b: seq<Byte>, item: Item, rest: seq<Byte>)
    requires |Encode(item)| < TWO64
    ensures Decode(b) == Ok(Decoded(item, rest)) <==> b == Encode(item) + rest
  {
    DecodeInvertsEncode(item, rest);
    if Decode(b).Ok? {
      EncodeInvertsDecode(b);
    }
  }

  /** No encoding is a prefix of another item's encoding; in particular Encode is injective. */
  lemma PrefixFree(x: Item, y: Item)
    requires |Encode(x)| < TWO64 && |Encode(y)| < TWO64
    requires Encode(x) <= Encode(y)
    ensures x == y
  {
    var rest := Encode(y)[|Encode(x)|..];
    DecodeInvertsEncode(x, rest);
    DecodeInvertsEncode(y, []);
    assert Encode(y) == Encode(x) + rest == Encode(y) + [];
  }
}
