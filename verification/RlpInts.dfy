/**
 The integer helpers of the encoder: putint, intsize and puthead write and
 measure big-endian numbers, and big integers are cut into 64-bit words.
 */
module RlpInts {
  import opened Machine
  import opened RlpSpec

  // ---------- putint, intsize, puthead ----------

  /** What putint promises: the shortest form, except that zero still takes a byte. */
  function IntBytes(i: nat): seq<Byte> { if i == 0 then [0] else BE(i) }

  /** What putint writes, one size class per case. */
  function PutIntBytes(i: nat): seq<Byte> {
    if i < 0x100 then
      [i]
    else if i < 0x1_0000 then
      [i / 0x100 % 256, i % 256]
    else if i < 0x100_0000 then
      [i / 0x1_0000 % 256, i / 0x100 % 256, i % 256]
    else if i < 0x1_0000_0000 then
      [i / 0x100_0000 % 256, i / 0x1_0000 % 256, i / 0x100 % 256, i % 256]
    else if i < 0x100_0000_0000 then
      [i / 0x1_0000_0000 % 256, i / 0x100_0000 % 256, i / 0x1_0000 % 256, i / 0x100 % 256, i % 256]
    else if i < 0x1_0000_0000_0000 then
      [i / 0x100_0000_0000 % 256, i / 0x1_0000_0000 % 256, i / 0x100_0000 % 256,
       i / 0x1_0000 % 256, i / 0x100 % 256, i % 256]
    else if i < 0x100_0000_0000_0000 then
      [i / 0x1_0000_0000_0000 % 256, i / 0x100_0000_0000 % 256, i / 0x1_0000_0000 % 256,
       i / 0x100_0000 % 256, i / 0x1_0000 % 256, i / 0x100 % 256, i % 256]
    else
      [i / 0x100_0000_0000_0000 % 256, i / 0x1_0000_0000_0000 % 256, i / 0x100_0000_0000 % 256,
       i / 0x1_0000_0000 % 256, i / 0x100_0000 % 256, i / 0x1_0000 % 256, i / 0x100 % 256, i % 256]
  }

  /** Each size class is the one below it with a byte appended. */
  lemma PutIntStep(i: nat)
    requires 0x100 <= i < TWO64
    ensures PutIntBytes(i) == PutIntBytes(i / 256) + [i % 256]
  {
    var j := i / 256;
    assert j / 0x100 == i / 0x1_0000 && j / 0x1_0000 == i / 0x100_0000;
    assert j / 0x100_0000 == i / 0x1_0000_0000 && j / 0x1_0000_0000 == i / 0x100_0000_0000;
    assert j / 0x100_0000_0000 == i / 0x1_0000_0000_0000;
    assert j / 0x1_0000_0000_0000 == i / 0x100_0000_0000_0000;
  }

  /** The unrolled cases of putint write the shortest big-endian form. */
  lemma {:induction false} PutIntIsBE(i: nat)
    requires i < TWO64
    ensures PutIntBytes(i) == IntBytes(i)
  {
    if 0x100 <= i {
      PutIntIsBE(i / 256);
      PutIntStep(i);
    } else if i > 0 {
      assert BE(i) == BE(0) + [i];
    }
  }

  /** s with b written over it at position `at`. */
  function Overwrite(s: seq<Byte>, at: nat, b: seq<Byte>): (r: seq<Byte>)
    requires at + |b| <= |s|
    ensures |r| == |s|
  {
    s[..at] + b + s[at + |b|..]
  }

  lemma OverwriteNothing(s: seq<Byte>, at: nat)
    requires at <= |s|
    ensures Overwrite(s, at, []) == s
  {
  }

  /** Writing a and then b right behind it is writing a + b. */
  lemma OverwriteBehind(s: seq<Byte>, at: nat, a: seq<Byte>, b: seq<Byte>)
    requires at + |a| + |b| <= |s|
    ensures Overwrite(Overwrite(s, at, a), at + |a|, b) == Overwrite(s, at, a + b)
  {
  }

  /** The part that was written, and the parts that were not. */
  lemma OverwriteParts(s: seq<Byte>, at: nat, b: seq<Byte>)
    requires at + |b| <= |s|
    ensures var r := Overwrite(s, at, b);
            r[..at] == s[..at] && r[at..at + |b|] == b && r[at + |b|..] == s[at + |b|..]
  {
  }

  /** Copies as much of src as fits into dst[pos..]; the number of bytes copied is returned. */
  method Copy(dst: array<Byte>, pos: nat, src: seq<Byte>) returns (n: nat)
    requires pos <= dst.Length
    modifies dst
    ensures n == if |src| <= dst.Length - pos then |src| else dst.Length - pos
    ensures dst[..] == Overwrite(old(dst[..]), pos, src[..n])
  {
    n := if |src| <= dst.Length - pos then |src| else dst.Length - pos;
    forall k | 0 <= k < n {
      dst[pos + k] := src[k];
    }
  }

  /** Writes i big-endian at the beginning of b[off..], in the least number of bytes. */
  method PutInt(b: array<Byte>, off: nat, i: nat) returns (size: nat)
    requires i < TWO64 && off + |IntBytes(i)| <= b.Length
    modifies b
    ensures size == |IntBytes(i)| && b[..] == Overwrite(old(b[..]), off, IntBytes(i))
  {
    PutIntIsBE(i);
    size := Copy(b, off, PutIntBytes(i));
    assert PutIntBytes(i)[..size] == IntBytes(i);
  }

  /** The minimum number of bytes required to store i. */
  method IntSize(i: nat) returns (size: nat)
    requires i < TWO64
    ensures size == |IntBytes(i)|
  {
    var rest: nat := i;
    size := 1;
    while true
      invariant size >= 1
      invariant rest == 0 ==> i == 0 && size == 1
      invariant rest > 0 ==> size - 1 + |BE(rest)| == |BE(i)|
      decreases rest
    {
      rest := rest / 256;
      if rest == 0 {
        return;
      }
      size := size + 1;
    }
  }

  /** Writes a string or list header at b[off..] and returns its length. */
  method PutHead(b: array<Byte>, off: nat, small: Byte, large: Byte, size: nat) returns (n: nat)
    requires size < TWO64 && off + |Head(small, large, size)| <= b.Length
    modifies b
    ensures n == |Head(small, large, size)|
    ensures b[..] == Overwrite(old(b[..]), off, Head(small, large, size))
  {
    hide Overwrite, BE;
    ghost var orig := b[..];
    if size < 56 {
      TagAlone(orig, off, (small + size) % 256);
      b[off] := (small + size) % 256;
      n := 1;
    } else {
      TagBefore(orig, off, (large + |BE(size)|) % 256, BE(size));
      var sizesize := PutInt(b, off + 1, size);
      b[off] := (large + sizesize) % 256;
      n := sizesize + 1;
    }
  }

  lemma TagAlone(s: seq<Byte>, off: nat, tag: Byte)
    requires off < |s|
    ensures Overwrite(s, off, [tag]) == s[off := tag]
  {
  }

  lemma TagBefore(s: seq<Byte>, off: nat, tag: Byte, b: seq<Byte>)
    requires off + 1 + |b| <= |s|
    ensures Overwrite(s, off + 1, b)[off := tag] == Overwrite(s, off, [tag] + b)
  {
  }

  // ---------- big integers ----------

  const WORD_BYTES: nat := 8

  /** The number of bits of n without leading zeros. */
  function BitLen(n: nat): nat {
    if n == 0 then 0 else 1 + BitLen(n / 2)
  }

  /** Bit lengths in steps of eight are byte lengths. */
  lemma {:induction false} BitLenBytes(n: nat)
    ensures (BitLen(n) + 7) / 8 == |BE(n)|
    ensures BitLen(n) <= 64 <==> n < TWO64
  {
    if n < 256 {
      BitLenByte(n);
      assert n != 0 ==> BE(n) == [n];
    } else {
      BitLenStep(n);
      BitLenBytes(n / 256);
    }
    Pow256Eight();
    BELength(n, 8);
  }

  lemma BitLenStep(n: nat)
    requires n >= 256
    ensures BitLen(n) == 8 + BitLen(n / 256)
  {
    var a := n / 2; var b := a / 2; var c := b / 2; var d := c / 2;
    var e := d / 2; var f := e / 2; var g := f / 2; var h := g / 2;
    assert BitLen(n) == 1 + BitLen(a) && BitLen(a) == 1 + BitLen(b);
    assert BitLen(b) == 1 + BitLen(c) && BitLen(c) == 1 + BitLen(d);
    assert BitLen(d) == 1 + BitLen(e) && BitLen(e) == 1 + BitLen(f);
    assert BitLen(f) == 1 + BitLen(g) && BitLen(g) == 1 + BitLen(h);
    assert h == n / 256;
  }

  lemma BitLenByte(n: nat)
    requires n < 256
    ensures BitLen(n) <= 8 && (n != 0 ==> BitLen(n) >= 1)
  {
    var a := n / 2; var b := a / 2; var c := b / 2; var d := c / 2;
    var e := d / 2; var f := e / 2; var g := f / 2; var h := g / 2;
    assert h == 0 && BitLen(h) == 0;
    assert BitLen(g) <= 1 && BitLen(f) <= 2 && BitLen(e) <= 3 && BitLen(d) <= 4;
    assert BitLen(c) <= 5 && BitLen(b) <= 6 && BitLen(a) <= 7;
  }

  /** The little-endian 64-bit words of n, without leading zero words. */
  function Words(n: nat): (w: seq<nat>) {
    if n == 0 then [] else [n % TWO64] + Words(n / TWO64)
  }

  function FromWords(w: seq<nat>): nat {
    if w == [] then 0 else w[0] + TWO64 * FromWords(w[1..])
  }

  lemma {:induction false} WordsValue(n: nat)
    ensures FromWords(Words(n)) == n
    ensures forall i :: 0 <= i < |Words(n)| ==> Words(n)[i] < TWO64
  {
    if n != 0 {
      WordsValue(n / TWO64);
      assert Words(n)[1..] == Words(n / TWO64);
    }
  }

  /** n shifted right by k bytes. */
  function Shr(n: nat, k: nat): nat {
    if k == 0 then n else Shr(n, k - 1) / 256
  }

  lemma {:induction false} ShrShift(n: nat, k: nat)
    ensures Shr(n / 256, k) == Shr(n, k + 1)
  {
    if k > 0 { ShrShift(n, k - 1); }
  }

  /** The bytes of BE(n), last first, are the low bytes of the successive shifts of n. */
  lemma {:induction false} ShrDigit(n: nat, j: nat)
    requires j < |BE(n)|
    ensures BE(n)[|BE(n)| - 1 - j] == Shr(n, j) % 256
  {
    if j > 0 {
      ShrDigit(n / 256, j - 1);
      ShrShift(n, j - 1);
    }
  }

  lemma {:induction false} ShrNonZero(n: nat, j: nat)
    requires j < |BE(n)|
    ensures Shr(n, j) != 0
  {
    if j > 0 {
      ShrNonZero(n / 256, j - 1);
      ShrShift(n, j - 1);
    }
  }

  /** Taking one byte off a word with `room` bytes left, above which `high` waits. */
  lemma ByteOffWord(d: nat, room: nat, high: nat)
    requires room > 0 && d < Pow256(room)
    ensures (d + Pow256(room) * high) % 256 == d % 256
    ensures (d + Pow256(room) * high) / 256 == d / 256 + Pow256(room - 1) * high
    ensures d / 256 < Pow256(room - 1)
  {
    var m := Pow256(room - 1) * high;
    assert Pow256(room) * high == 256 * m by {
      assert Pow256(room) == 256 * Pow256(room - 1);
    }
    assert (d + 256 * m) % 256 == d % 256 && (d + 256 * m) / 256 == d / 256 + m;
  }

  /** The bytes of buf from index on are the low bytes of i, in place. */
  ghost predicate Stored(buf: seq<Byte>, index: nat, i: nat) {
    forall k :: index <= k < |buf| ==> buf[k] == Shr(i, |buf| - 1 - k) % 256
  }

  /**
   The double loop over the words of i: bytes are taken off each word, least
   significant first, and stored from the end of buf backwards.
   */
  method StoreWords(zeroed: seq<Byte>, i: nat) returns (buf: seq<Byte>)
    requires |zeroed| == |BE(i)|
    ensures buf == BE(i)
  {
    buf := zeroed;
    var words := Words(i);
    WordsValue(i);
    var index: nat := |buf|;
    assert words[0..] == words;
    for w := 0 to |words|
      invariant index <= |buf| == |BE(i)|
      invariant index == 0 || Shr(i, |buf| - index) == FromWords(words[w..])
      invariant Stored(buf, index, i)
    {
      assert words[w..][1..] == words[w + 1..];
      buf, index := StoreWord(buf, i, index, words[w], FromWords(words[w + 1..]));
    }
    if index > 0 {
      assert words[|words|..] == [];
      ShrNonZero(i, |buf| - index);
    }
    forall k | 0 <= k < |buf|
      ensures buf[k] == BE(i)[k]
    {
      ShrDigit(i, |buf| - 1 - k);
    }
  }

  /** The inner loop: the bytes of one word, as long as there is room. */
  method StoreWord(from: seq<Byte>, i: nat, start: nat, word: nat, ghost high: nat)
    returns (buf: seq<Byte>, index: nat)
    requires start <= |from| && word < TWO64
    requires start == 0 || Shr(i, |from| - start) == word + TWO64 * high
    requires Stored(from, start, i)
    ensures |buf| == |from| && index <= |buf|
    ensures index == 0 || Shr(i, |buf| - index) == high
    ensures Stored(buf, index, i)
  {
    var d: nat := word;
    buf, index := from, start;
    var j := 0;
    Pow256Eight();
    while j < WORD_BYTES && index > 0
      invariant j <= WORD_BYTES && |buf| == |from| && index <= |buf|
      invariant d < Pow256(8 - j)
      invariant index == 0 || Shr(i, |buf| - index) == d + Pow256(8 - j) * high
      invariant Stored(buf, index, i)
    {
      ByteOffWord(d, 8 - j, high);
      StoredStep(buf, index, i);
      index := index - 1;
      buf := buf[index := d % 256];
      d := d / 256;
      j := j + 1;
    }
    assert index == 0 || j == 8;
    assert Pow256(0) == 1;
  }

  lemma StoredStep(buf: seq<Byte>, index: nat, i: nat)
    requires 0 < index <= |buf| && Stored(buf, index, i)
    ensures Stored(buf[index - 1 := Shr(i, |buf| - index) % 256], index - 1, i)
    ensures Shr(i, |buf| - index + 1) == Shr(i, |buf| - index) / 256
  {
  }
}
