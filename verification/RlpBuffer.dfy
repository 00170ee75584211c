/**
 The encoder buffer. Everything except list headers goes into one flat string;
 list headers are kept aside with the string offset they belong to, get their
 size when the list ends, and are spliced into the output at the very end.
 */
module RlpBuffer {
  import opened Machine
  import opened RlpSpec
  import opened RlpInts

  /** A list header kept aside: where it goes, and the size of its payload. */
  datatype Listhead = Listhead(offset: nat, size: nat)

  /** The value of an encoder buffer. */
  datatype Snap = Snap(str: seq<Byte>, lheads: seq<Listhead>, lhsize: nat)

  function SizeOf(s: Snap): nat { |s.str| + s.lhsize }

  // ---------- splicing ----------

  /** From index i on, header offsets ascend from `from` and stay inside a string of length len. */
  ghost predicate Ordered(heads: seq<Listhead>, i: nat, from: nat, len: nat)
    decreases |heads| - i
  {
    if i >= |heads| then from <= len
    else from <= heads[i].offset <= len && Ordered(heads, i + 1, heads[i].offset, len)
  }

  /** The output from header i and string position `from` on: string data with the headers put in. */
  ghost function Splice(str: seq<Byte>, heads: seq<Listhead>, i: nat, from: nat): seq<Byte>
    requires Ordered(heads, i, from, |str|)
    decreases |heads| - i
  {
    if i >= |heads| then str[from..]
    else
      str[from..heads[i].offset] + ListHead(heads[i].size) + Splice(str, heads, i + 1, heads[i].offset)
  }

  lemma {:induction false} OrderedBounds(heads: seq<Listhead>, i: nat, from: nat, len: nat)
    requires Ordered(heads, i, from, len)
    ensures from <= len
    decreases |heads| - i
  {
    if i < |heads| { OrderedBounds(heads, i + 1, heads[i].offset, len); }
  }

  lemma Regroup(a: seq<Byte>, b: seq<Byte>, c: seq<Byte>, d: seq<Byte>)
    ensures ((a + b) + c) + d == a + ((b + c) + d)
  {
  }

  /** Splicing from an earlier position puts the data in between in front. */
  lemma SpliceEarlier(str: seq<Byte>, heads: seq<Listhead>, i: nat, from: nat, to: nat)
    requires from <= to && Ordered(heads, i, to, |str|)
    ensures to <= |str| && Ordered(heads, i, from, |str|)
    ensures Splice(str, heads, i, from) == str[from..to] + Splice(str, heads, i, to)
  {
    OrderedBounds(heads, i, to, |str|);
    if i >= |heads| {
      assert str[from..] == str[from..to] + str[to..];
    } else {
      var at := heads[i].offset;
      assert str[from..at] == str[from..to] + str[to..at];
      Regroup(str[from..to], str[to..at], ListHead(heads[i].size), Splice(str, heads, i + 1, at));
    }
  }

  /** Data and headers added behind a buffer come out behind its output. */
  lemma {:induction false} SpliceAppend(s: Snap, t: Snap, i: nat, from: nat)
    requires s.str <= t.str && s.lheads <= t.lheads && i <= |s.lheads|
    requires Ordered(s.lheads, i, from, |s.str|)
    requires Ordered(t.lheads, |s.lheads|, |s.str|, |t.str|)
    ensures Ordered(t.lheads, i, from, |t.str|)
    ensures Splice(t.str, t.lheads, i, from)
            == Splice(s.str, s.lheads, i, from) + Splice(t.str, t.lheads, |s.lheads|, |s.str|)
    decreases |s.lheads| - i
  {
    var added := Splice(t.str, t.lheads, |s.lheads|, |s.str|);
    if i == |s.lheads| {
      SpliceEarlier(t.str, t.lheads, i, from, |s.str|);
      assert t.str[from..|s.str|] == s.str[from..];
    } else {
      var head := s.lheads[i];
      assert t.lheads[i] == head;
      SpliceAppend(s, t, i + 1, head.offset);
      assert t.str[from..head.offset] == s.str[from..head.offset];
      Associate(s.str[from..head.offset] + ListHead(head.size),
                Splice(s.str, s.lheads, i + 1, head.offset), added);
    }
  }

  lemma Halves(a: seq<Byte>, b: seq<Byte>)
    ensures (a + b)[..|a|] == a && (a + b)[|a|..] == b
  {
  }

  lemma Associate(a: seq<Byte>, b: seq<Byte>, c: seq<Byte>)
    ensures (a + b) + c == a + (b + c)
  {
  }

  /**
   t is s with the bytes e written behind it: the string and the header list grew
   at the end only, the new part splices to e, and the size counts all of e,
   inner headers included.
   */
  ghost predicate Wrote(s: Snap, t: Snap, e: seq<Byte>) {
    && s.str <= t.str && s.lheads <= t.lheads
    && Ordered(t.lheads, |s.lheads|, |s.str|, |t.str|)
    && Splice(t.str, t.lheads, |s.lheads|, |s.str|) == e
    && SizeOf(t) == SizeOf(s) + |e|
  }

  lemma WroteNothing(s: Snap)
    ensures Wrote(s, s, [])
  {
  }

  lemma WroteString(s: Snap, b: seq<Byte>)
    ensures Wrote(s, s.(str := s.str + b), b)
  {
  }

  lemma WroteBoth(s: Snap, t: Snap, u: Snap, e: seq<Byte>, f: seq<Byte>)
    requires Wrote(s, t, e) && Wrote(t, u, f)
    ensures Wrote(s, u, e + f)
  {
    SpliceAppend(t, u, |s.lheads|, |s.str|);
  }

  /** What is written behind a buffer comes out behind its output. */
  lemma WroteBehind(s: Snap, t: Snap, e: seq<Byte>)
    requires Ordered(s.lheads, 0, 0, |s.str|) && Wrote(s, t, e)
    ensures Ordered(t.lheads, 0, 0, |t.str|)
    ensures Splice(t.str, t.lheads, 0, 0) == Splice(s.str, s.lheads, 0, 0) + e
  {
    SpliceAppend(s, t, 0, 0);
  }

  /** The buffer right after a list is opened. */
  function Opened(s: Snap): Snap {
    s.(lheads := s.lheads + [Listhead(|s.str|, s.lhsize)])
  }

  lemma OpenedOrdered(s: Snap)
    requires Ordered(s.lheads, 0, 0, |s.str|)
    ensures Ordered(Opened(s).lheads, 0, 0, |s.str|)
  {
    SpliceAppend(s, Opened(s), 0, 0);
  }

  /** The buffer after the header at index is given its size. */
  function Ended(s: Snap, index: nat): Snap
    requires index < |s.lheads|
    requires SizeOf(s) >= s.lheads[index].offset + s.lheads[index].size
  {
    var lh := s.lheads[index];
    var size := SizeOf(s) - lh.offset - lh.size;
    s.(lheads := s.lheads[index := lh.(size := size)], lhsize := s.lhsize + |ListHead(size)|)
  }

  /**
   Opening a list, writing p, and ending the list writes the list encoding of p:
   the size stored by list() makes listEnd compute exactly |p|, and lhsize comes to
   count the new header too.
   */
  lemma ListWrote(s: Snap, t: Snap, p: seq<Byte>)
    requires Wrote(Opened(s), t, p)
    ensures SizeOf(t) >= t.lheads[|s.lheads|].offset + t.lheads[|s.lheads|].size
    ensures Ended(t, |s.lheads|).lheads[|s.lheads|].size == |p|
    ensures Wrote(s, Ended(t, |s.lheads|), ListHead(|p|) + p)
  {
    var n := |s.lheads|;
    assert t.lheads[n] == Opened(s).lheads[n];
    var u := Ended(t, n);
    SpliceSame(t.str, t.lheads, u.lheads, n + 1, |s.str|);
    assert t.str[|s.str|..|s.str|] == [];
  }

  /** Changing a header does not change the splice of the headers after it. */
  lemma {:induction false} SpliceSame(str: seq<Byte>, heads: seq<Listhead>, heads': seq<Listhead>, i: nat, from: nat)
    requires |heads| == |heads'| && i <= |heads|
    requires forall k :: i <= k < |heads| ==> heads[k] == heads'[k]
    requires Ordered(heads, i, from, |str|)
    ensures Ordered(heads', i, from, |str|)
    ensures Splice(str, heads', i, from) == Splice(str, heads, i, from)
    decreases |heads| - i
  {
    if i < |heads| { SpliceSame(str, heads, heads', i + 1, heads[i].offset); }
  }

  // ---------- values to encode ----------

  /** What the typed writers are driven over. */
  datatype Value =
    | Bool(flag: bool)
    | Uint(u: Word)
    | Big(n: nat)
    | Bytes(b: seq<Byte>)
    | Slice(elems: seq<Value>)
    | Struct(fields: seq<Value>)

  /** The RLP item a value stands for: numbers are their shortest big-endian strings. */
  function ToItem(v: Value): Item {
    match v
    case Bool(flag) => Str(BE(if flag then 1 else 0))
    case Uint(u) => Str(BE(u))
    case Big(n) => Str(BE(n))
    case Bytes(b) => Str(b)
    case Slice(vs) => List(seq(|vs|, i requires 0 <= i < |vs| => ToItem(vs[i])))
    case Struct(vs) => List(seq(|vs|, i requires 0 <= i < |vs| => ToItem(vs[i])))
  }

  lemma ShortBE(n: nat)
    requires n < 256
    ensures BE(n) == if n == 0 then [] else [n]
  {
    if n > 0 { assert BE(n) == BE(0) + [n]; }
  }

  /** Encodings of numbers, case by case as the writers produce them. */
  lemma EncodeNumber(n: nat)
    ensures n == 0 ==> Encode(Str(BE(n))) == [0x80]
    ensures 0 < n < 128 ==> Encode(Str(BE(n))) == [n]
    ensures n >= 128 ==> Encode(Str(BE(n))) == StrHead(|BE(n)|) + BE(n)
    ensures 128 <= n < TWO64 ==>
              |BE(n)| <= 8 && Encode(Str(BE(n))) == [0x80 + |BE(n)|] + BE(n)
  {
    if n < 256 { ShortBE(n); }
    Pow256Eight();
    BELength(n, 1);
    BELength(n, 8);
    assert Pow256(1) == 256;
  }

  /** The bytes read back as this number, and do not start with a zero. */
  ghost predicate ShortestFor(bytes: seq<Byte>, n: nat) {
    FromBE(bytes) == n && (bytes != [] ==> bytes[0] != 0)
  }

  /** What the item of a value holds: a flag as one byte, a number in its shortest form, a list the items in order. */
  lemma ToItemMeans(v: Value)
    ensures match v
            case Bool(flag) => Encode(ToItem(v)) == [if flag then 0x01 else 0x80]
            case Uint(u) => ToItem(v).Str? && ShortestFor(ToItem(v).bytes, u)
            case Big(n) => ToItem(v).Str? && ShortestFor(ToItem(v).bytes, n)
            case Bytes(b) => ToItem(v) == Str(b)
            case Slice(vs) => ToItem(v).List? && |ToItem(v).items| == |vs|
                              && forall i :: 0 <= i < |vs| ==> ToItem(v).items[i] == ToItem(vs[i])
            case Struct(vs) => ToItem(v).List? && |ToItem(v).items| == |vs|
                               && forall i :: 0 <= i < |vs| ==> ToItem(v).items[i] == ToItem(vs[i])
  {
    hide BE, FromBE, Encode;
    EncodeNumber(0);
    EncodeNumber(1);
    if v.Uint? {
      ShortestIs(v.u);
    } else if v.Big? {
      ShortestIs(v.n);
    }
  }

  lemma ShortestIs(n: nat)
    ensures ShortestFor(BE(n), n)
  {
    FromBEInvertsBE(n);
    BELength(n, 0);
    if n == 0 {
      ShortBE(0);
    }
  }

  // ---------- the buffer ----------

  class EncBuffer {
    var str: seq<Byte>          // string data, contains everything except list headers
    var lheads: seq<Listhead>   // all list headers
    var lhsize: nat             // sum of sizes of all encoded list headers
    const sizebuf: array<Byte>  // auxiliary buffer for uint encoding

    constructor ()
      ensures Valid() && State() == Snap([], [], 0) && fresh(sizebuf)
    {
      str, lheads, lhsize := [], [], 0;
      sizebuf := new Byte[9](_ => 0);
    }

    ghost predicate Valid()
      reads this
    {
      && sizebuf.Length == 9
      && Ordered(lheads, 0, 0, |str|)
      && SizeOf(State()) < TWO64
      && forall h :: h in lheads ==> h.size < TWO64
    }

    function State(): Snap
      reads this
    {
      Snap(str, lheads, lhsize)
    }

    /** What the buffer holds: string data with all headers put in. */
    ghost function Output(): seq<Byte>
      requires Valid()
      reads this
    {
      Splice(str, lheads, 0, 0)
    }

    /** Every list that was opened has been ended: the size is the output's length. */
    ghost predicate Closed()
      requires Valid()
      reads this
    {
      SizeOf(State()) == |Output()|
    }

    method Reset()
      modifies this
      ensures State() == Snap([], [], 0)
    {
      lhsize, str, lheads := 0, [], [];
    }

    method Size() returns (n: nat)
      requires Valid()
      ensures n == SizeOf(State())
      ensures Closed() ==> n == |Output()|
    {
      n := |str| + lhsize;
    }

    method WriteBool(b: bool)
      modifies this
      ensures Wrote(old(State()), State(), Encode(ToItem(Bool(b))))
      ensures State() == old(State()).(str := old(str) + [if b then 0x01 else 0x80])
    {
      EncodeNumber(0);
      EncodeNumber(1);
      WroteString(State(), Encode(ToItem(Bool(b))));
      if b {
        str := str + [0x01];
      } else {
        str := str + [0x80];
      }
    }

    /** Puts a tag and the bytes of i into sizebuf; the tag is base plus their number. */
    method TagInt(base: Byte, i: nat) returns (t: seq<Byte>)
      requires 0 < i < TWO64 && sizebuf.Length == 9 && base <= 247
      modifies sizebuf
      ensures t == [base + |BE(i)|] + BE(i)
    {
      Pow256Eight();
      BELength(i, 8);
      var s := PutInt(sizebuf, 1, i);
      sizebuf[0] := base + s;
      TagBefore(old(sizebuf[..]), 0, base + s, BE(i));
      OverwriteParts(old(sizebuf[..]), 0, [base + s] + BE(i));
      t := sizebuf[..s + 1];
      assert t == sizebuf[..][0..s + 1];
    }

    method WriteUint64(i: nat)
      requires i < TWO64 && sizebuf.Length == 9
      modifies this, sizebuf
      ensures Wrote(old(State()), State(), Encode(Str(BE(i))))
      ensures State() == old(State()).(str := str)
    {
      EncodeNumber(i);
      WroteString(State(), Encode(Str(BE(i))));
      if i == 0 {
        str := str + [0x80];
      } else if i < 128 {
        // fits single byte
        str := str + [i];
      } else {
        var t := TagInt(0x80, i);
        str := str + t;
      }
    }

    method EncodeStringHeader(size: nat)
      requires size < TWO64 && sizebuf.Length == 9
      modifies this, sizebuf
      ensures State() == old(State()).(str := old(str) + StrHead(size))
    {
      if size < 56 {
        str := str + [0x80 + size];
      } else {
        Pow256Eight();
        BELength(size, 8);
        var t := TagInt(0xB7, size);
        str := str + t;
      }
    }

    method WriteBytes(b: seq<Byte>)
      requires |b| < TWO64 && sizebuf.Length == 9
      modifies this, sizebuf
      ensures Wrote(old(State()), State(), Encode(Str(b)))
      ensures State() == old(State()).(str := str)
    {
      WroteString(State(), Encode(Str(b)));
      if |b| == 1 && b[0] <= 0x7F {
        // fits single byte, no string header
        str := str + [b[0]];
        assert str == old(str) + b;
      } else {
        EncodeStringHeader(|b|);
        str := str + b;
        Associate(old(str), StrHead(|b|), b);
      }
    }

    /**
     Writes i as an integer. Beyond 64 bits the bytes are taken off the words of i,
     least significant first, and stored from the end of the string backwards.
     */
    method WriteBigInt(i: nat)
      requires |BE(i)| < TWO64 && sizebuf.Length == 9
      modifies this, sizebuf
      ensures Wrote(old(State()), State(), Encode(Str(BE(i))))
      ensures State() == old(State()).(str := str)
    {
      var bitlen := BitLen(i);
      BitLenBytes(i);
      if bitlen <= 64 {
        WriteUint64(i);
        return;
      }
      EncodeNumber(i);
      WroteString(State(), Encode(Str(BE(i))));
      var length := (bitlen + 7) / 8;
      EncodeStringHeader(length);
      var start := |str|;
      ghost var header := str;
      str := str + seq(length, _ => 0);
      Halves(header, str[start..]);
      var buf := StoreWords(str[start..], i);
      assert str[..start] == header;
      str := str[..start] + buf;
      Associate(old(str), StrHead(length), BE(i));
    }

    /** Opens a list; ListEnd is called with the returned index after its content. */
    method List() returns (index: nat)
      modifies this
      ensures index == |old(lheads)| && State() == Opened(old(State()))
    {
      lheads := lheads + [Listhead(|str|, lhsize)];
      return |lheads| - 1;
    }

    method ListEnd(index: nat)
      requires index < |lheads|
      requires SizeOf(State()) >= lheads[index].offset + lheads[index].size
      requires SizeOf(State()) < TWO64
      modifies this
      ensures State() == Ended(old(State()), index)
    {
      var lh := lheads[index];
      var size := |str| + lhsize - lh.offset - lh.size;
      lheads := lheads[index := lh.(size := size)];
      if size < 56 {
        lhsize := lhsize + 1; // length encoded into kind tag
      } else {
        var n := IntSize(size);
        lhsize := lhsize + 1 + n;
      }
    }

    /** Drives list, the writers and listEnd over a value. */
    method EncodeValue(v: Value)
      requires Valid() && SizeOf(State()) + |Encode(ToItem(v))| < TWO64
      modifies this, sizebuf
      ensures Valid()
      ensures Wrote(old(State()), State(), Encode(ToItem(v)))
      decreases v
    {
      match v {
        case Bool(flag) => WriteBool(flag);
        case Uint(u) => WriteUint64(u);
        case Big(n) =>
          assert |BE(n)| < TWO64;
          WriteBigInt(n);
        case Bytes(b) => WriteBytes(b);
        case Slice(vs) =>
          if |vs| == 0 {
            WroteString(State(), [0xC0]);
            str := str + [0xC0];
            assert ToItem(v) == RlpSpec.List([]);
          } else {
            EncodeList(v, vs);
          }
        case Struct(vs) => EncodeList(v, vs);
      }
      WroteBehind(old(State()), State(), Encode(ToItem(v)));
    }

    /** The list writer: header, elements in order, end of list. */
    method EncodeList(v: Value, vs: seq<Value>)
      requires v == Slice(vs) || v == Struct(vs)
      requires Valid() && SizeOf(State()) + |Encode(ToItem(v))| < TWO64
      modifies this, sizebuf
      ensures forall h :: h in lheads ==> h.size < TWO64
      ensures Wrote(old(State()), State(), Encode(ToItem(v)))
      decreases v, 0
    {
      ghost var items := ToItem(v).items;
      ghost var before := State();
      var index := List();
      ghost var start := State();
      WroteNothing(start);
      assert items[..0] == [];
      OpenedOrdered(before);
      for i := 0 to |vs|
        invariant Valid()
        invariant Wrote(start, State(), EncodeAll(items[..i]))
      {
        EncodeAllSplit(items, i);
        ghost var t := State();
        EncodeValue(vs[i]);
        WroteBoth(start, t, State(), EncodeAll(items[..i]), Encode(items[i]));
      }
      assert items[..|vs|] == items;
      ListWrote(before, State(), EncodeAll(items));
      ListEnd(index);
    }
  }
}
