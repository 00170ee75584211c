/**
 The three ways the encoder's output leaves the buffer: copied into a byte
 slice, written to a writer, or handed out piece by piece by a reader.
 */
module RlpOutput {
  import opened Machine
  import opened RlpSpec
  import opened RlpInts
  import opened RlpBuffer

  /**
   Of total, `done` has been delivered; header i and the string data from `from` on are
   what comes next.
   */
  ghost predicate Delivered(done: seq<Byte>, str: seq<Byte>, heads: seq<Listhead>, i: nat, from: nat,
                            total: seq<Byte>)
  {
    Ordered(heads, i, from, |str|) && total == done + Splice(str, heads, i, from)
  }

  lemma DeliveredStart(done: seq<Byte>, str: seq<Byte>, heads: seq<Listhead>)
    requires Ordered(heads, 0, 0, |str|)
    ensures Delivered(done, str, heads, 0, 0, done + Splice(str, heads, 0, 0))
    ensures [] + Splice(str, heads, 0, 0) == Splice(str, heads, 0, 0)
  {
  }

  /** Advancing over one header delivers the data before it and the header. */
  lemma DeliveredHead(done: seq<Byte>, str: seq<Byte>, heads: seq<Listhead>, i: nat, from: nat, total: seq<Byte>)
    requires i < |heads| && Delivered(done, str, heads, i, from, total)
    ensures from <= heads[i].offset <= |str|
    ensures var piece := str[from..heads[i].offset] + ListHead(heads[i].size);
            done + piece <= total
            && Delivered(done + piece, str, heads, i + 1, heads[i].offset, total)
  {
    Associate(done, str[from..heads[i].offset] + ListHead(heads[i].size),
              Splice(str, heads, i + 1, heads[i].offset));
  }

  /** After the last header only string data is left. */
  lemma DeliveredEnd(done: seq<Byte>, str: seq<Byte>, heads: seq<Listhead>, from: nat, total: seq<Byte>)
    requires Delivered(done, str, heads, |heads|, from, total)
    ensures from <= |str| && total == done + str[from..]
  {
  }

  // ---------- copyTo and its callers ----------

  /** Copies the output to dst[at..]. */
  method CopyTo(w: EncBuffer, dst: array<Byte>, at: nat)
    requires w.Valid() && w.Closed()
    requires at + SizeOf(w.State()) <= dst.Length
    modifies dst
    ensures dst[..] == Overwrite(old(dst[..]), at, w.Output())
  {
    hide Overwrite, Splice, Ordered, Delivered, Head;
    ghost var orig, done, output := dst[..], [], w.Output();
    OverwriteNothing(orig, at);
    DeliveredStart([], w.str, w.lheads);
    var strpos: nat := 0;
    var pos := at;
    for i := 0 to |w.lheads|
      invariant pos == at + |done| && |done| <= |output|
      invariant Delivered(done, w.str, w.lheads, i, strpos, output)
      invariant dst[..] == Overwrite(orig, at, done)
    {
      DeliveredHead(done, w.str, w.lheads, i, strpos, output);
      var head := w.lheads[i];
      ghost var piece := w.str[strpos..head.offset] + ListHead(head.size);
      OverwriteBehind(orig, at, done, piece);
      var n, m := CopyHead(dst, pos, w.str[strpos..head.offset], head.size);
      pos := pos + n + m;
      strpos := strpos + n;
      done := done + piece;
    }
    // copy string data after the last list header
    DeliveredEnd(done, w.str, w.lheads, strpos, output);
    OverwriteBehind(orig, at, done, w.str[strpos..]);
    var n := CopyAll(dst, pos, w.str[strpos..]);
  }

  /** One round of the loop of CopyTo: the data before a header, then the header. */
  method CopyHead(dst: array<Byte>, pos: nat, data: seq<Byte>, size: nat) returns (n: nat, m: nat)
    requires size < TWO64 && pos + |data + ListHead(size)| <= dst.Length
    modifies dst
    ensures n == |data| && m == |ListHead(size)|
    ensures dst[..] == Overwrite(old(dst[..]), pos, data + ListHead(size))
  {
    hide Overwrite, Head;
    OverwriteBehind(dst[..], pos, data, ListHead(size));
    // write string data before header
    n := CopyAll(dst, pos, data);
    // write the header
    m := PutHead(dst, pos + n, 0xC0, 0xF7, size);
  }

  /** A list header encoded at the beginning of b. */
  method PutHeadInto(b: array<Byte>, size: nat) returns (n: nat)
    requires size < TWO64 && |ListHead(size)| <= b.Length
    modifies b
    ensures n == |ListHead(size)| && b[0..n] == ListHead(size)
  {
    OverwriteParts(b[..], 0, ListHead(size));
    n := PutHead(b, 0, 0xC0, 0xF7, size);
    assert b[0..n] == b[..][0..n];
  }

  /** Copy where everything fits. */
  method CopyAll(dst: array<Byte>, pos: nat, src: seq<Byte>) returns (n: nat)
    requires pos + |src| <= dst.Length
    modifies dst
    ensures n == |src| && dst[..] == Overwrite(old(dst[..]), pos, src)
  {
    n := Copy(dst, pos, src);
    assert src[..n] == src;
  }

  /** Creates the encoder output. */
  method MakeBytes(w: EncBuffer) returns (out: array<Byte>)
    requires w.Valid() && w.Closed()
    ensures fresh(out) && out[..] == w.Output()
  {
    var n := w.Size();
    out := new Byte[n](_ => 0);
    ghost var zeros := out[..];
    CopyTo(w, out, 0);
    OverwriteParts(zeros, 0, w.Output());
    assert out[..] == out[..][0..n];
  }

  /** Appends the encoded bytes to dst. */
  method AppendToBytes(w: EncBuffer, dst: seq<Byte>) returns (out: array<Byte>)
    requires w.Valid() && w.Closed()
    ensures fresh(out) && out[..] == dst + w.Output()
  {
    var size := w.Size();
    out := new Byte[|dst| + size](i => if 0 <= i < |dst| then dst[i] else 0);
    ghost var extended := out[..];
    CopyTo(w, out, |dst|);
    assert extended[..|dst|] == dst;
  }

  /** Encoding a value into a fresh buffer yields its RLP encoding. */
  method EncodeToBytes(v: Value) returns (out: array<Byte>)
    requires |Encode(ToItem(v))| < TWO64
    ensures fresh(out) && out[..] == Encode(ToItem(v))
  {
    var buf := new EncBuffer();
    ghost var empty := buf.State();
    buf.EncodeValue(v);
    WroteBehind(empty, buf.State(), Encode(ToItem(v)));
    out := MakeBytes(buf);
  }

  // ---------- writeTo ----------

  lemma EmptyBefore(s: seq<Byte>)
    ensures [] + s == s
  {
  }

  /** A writer that may fail at any call, having accepted part of the data. */
  class Writer {
    var out: seq<Byte>

    method Write(p: seq<Byte>) returns (n: nat, failed: bool)
      modifies this
      ensures n <= |p| && out == old(out) + p[..n]
      ensures n < |p| ==> failed
    {
      n :| n <= |p|;
      failed :| n < |p| ==> failed;
      out := out + p[..n];
    }
  }

  lemma TakePart(piece: seq<Byte>, n: nat, rest: seq<Byte>)
    requires n <= |piece|
    ensures piece + rest == piece[..n] + (piece[n..] + rest)
    ensures [] + rest == rest
    ensures n == |piece| ==> piece[n..] == []
  {
  }

  /** Part of a piece that fits behind done still fits. */
  lemma PartFits(done: seq<Byte>, a: seq<Byte>, b: seq<Byte>, total: seq<Byte>)
    requires done + (a + b) <= total
    ensures forall n :: 0 <= n <= |a| ==> done + a[..n] <= total
    ensures forall n :: 0 <= n <= |b| ==> (done + a) + b[..n] <= total
    ensures (done + a) + b == done + (a + b)
  {
  }

  /** Writes the encoder output to w, stopping at the first failure. */
  method WriteTo(buf: EncBuffer, w: Writer) returns (failed: bool)
    requires buf.Valid()
    modifies w, buf.sizebuf
    ensures old(w.out) <= w.out <= old(w.out) + buf.Output()
    ensures !failed ==> w.out == old(w.out) + buf.Output()
  {
    hide Splice, Ordered, Delivered;
    ghost var total := w.out + buf.Output();
    DeliveredStart(w.out, buf.str, buf.lheads);
    var strpos: nat := 0;
    for i := 0 to |buf.lheads|
      invariant old(w.out) <= w.out
      invariant Delivered(w.out, buf.str, buf.lheads, i, strpos, total)
    {
      strpos, failed := WriteHead(buf, w, i, strpos, total);
      if failed {
        return;
      }
    }
    DeliveredEnd(w.out, buf.str, buf.lheads, strpos, total);
    failed := false;
    if strpos < |buf.str| {
      // write string data after the last list header
      var _, err := w.Write(buf.str[strpos..]);
      failed := err;
    }
  }

  /** One round of the loop of WriteTo: the data before a header, then the header. */
  method WriteHead(buf: EncBuffer, w: Writer, i: nat, from: nat, ghost total: seq<Byte>)
    returns (strpos: nat, failed: bool)
    requires buf.Valid() && i < |buf.lheads|
    requires Delivered(w.out, buf.str, buf.lheads, i, from, total)
    modifies w, buf.sizebuf
    ensures old(w.out) <= w.out <= total
    ensures !failed ==> Delivered(w.out, buf.str, buf.lheads, i + 1, strpos, total)
  {
    hide Splice, Ordered, Delivered, Head;
    DeliveredHead(w.out, buf.str, buf.lheads, i, from, total);
    var head := buf.lheads[i];
    ghost var data, h := buf.str[from..head.offset], ListHead(head.size);
    PartFits(w.out, data, h, total);
    HeadFits(head.size);
    strpos := from;
    // write string data before header
    if head.offset - strpos > 0 {
      var n;
      n, failed := w.Write(buf.str[strpos..head.offset]);
      strpos := strpos + n;
      if failed {
        return;
      }
    }
    assert w.out == old(w.out) + data;
    // write the header
    var m := PutHeadInto(buf.sizebuf, head.size);
    var k;
    k, failed := w.Write(buf.sizebuf[0..m]);
    assert !failed ==> h[..k] == h;
  }

  lemma HeadFits(size: nat)
    requires size < TWO64
    ensures |ListHead(size)| <= 9
  {
    Pow256Eight();
    BELength(size, 8);
  }

  // ---------- encReader ----------

  /** At a header's own offset the splice continues with that header. */
  lemma NextIsHead(str: seq<Byte>, heads: seq<Listhead>, i: nat, from: nat)
    requires i < |heads| && Ordered(heads, i, from, |str|)
    ensures from <= heads[i].offset <= |str|
    ensures Ordered(heads, i, heads[i].offset, |str|)
    ensures Ordered(heads, i + 1, heads[i].offset, |str|)
    ensures Splice(str, heads, i, heads[i].offset)
            == ListHead(heads[i].size) + Splice(str, heads, i + 1, heads[i].offset)
  {
    assert str[heads[i].offset..heads[i].offset] == [];
  }

  lemma EmptyAround(str: seq<Byte>, from: nat)
    requires from <= |str|
    ensures [] + str[from..] == str[from..|str|] + str[|str|..]
  {
  }

  /** The piece a reader is in the middle of: a slice of the string data or of sizebuf. */
  datatype Piece = NoPiece | InStr(lo: nat, hi: nat) | InSizebuf(lo: nat, hi: nat)

  /** Hands out the buffer's output; buf is null once the end has been reached. */
  class EncReader {
    var buf: EncBuffer?
    var lhpos: nat   // index of list header that we're reading
    var strpos: nat  // current position in string buffer
    var piece: Piece // next piece to be read

    constructor (b: EncBuffer)
      requires b.Valid()
      ensures buf == b && Valid() && Remaining() == b.Output()
    {
      buf, lhpos, strpos, piece := b, 0, 0, NoPiece;
    }

    ghost predicate Valid()
      reads this, buf
    {
      buf != null ==>
        && buf.Valid()
        && lhpos <= |buf.lheads|
        && Ordered(buf.lheads, lhpos, strpos, |buf.str|)
        && match piece
           case NoPiece => true
           case InStr(lo, hi) => lo < hi <= |buf.str|
           case InSizebuf(lo, hi) => lo < hi <= 9
    }

    /** The bytes of a slice; a slice of sizebuf sees later changes to it. */
    ghost function PieceBytes(): seq<Byte>
      requires buf != null && Valid()
      reads this, buf, if buf == null then {} else {buf.sizebuf}
    {
      match piece
      case NoPiece => []
      case InStr(lo, hi) => buf.str[lo..hi]
      case InSizebuf(lo, hi) => buf.sizebuf[lo..hi]
    }

    /** What the reader has still to deliver. */
    ghost function Remaining(): seq<Byte>
      requires Valid()
      reads this, buf, if buf == null then {} else {buf.sizebuf}
    {
      if buf == null then []
      else PieceBytes() + Splice(buf.str, buf.lheads, lhpos, strpos)
    }

    /** Makes piece the next piece of data to be read; NoPiece at the end. */
    method Next()
      requires Valid()
      modifies `lhpos, `strpos, `piece, if buf == null then {} else {buf.sizebuf}
      ensures Valid() && Remaining() == old(Remaining())
      ensures buf != null && piece == NoPiece ==> Remaining() == []
    {
      if buf == null {
        piece := NoPiece;
      } else if piece != NoPiece {
        // There is still data available for reading.
      } else if lhpos < |buf.lheads| {
        // We're before the last list header.
        NextIsHead(buf.str, buf.lheads, lhpos, strpos);
        if buf.lheads[lhpos].offset - strpos > 0 {
          NextData();
        } else {
          NextHeader();
        }
      } else if strpos < |buf.str| {
        // String data at the end, after all list headers.
        EmptyAround(buf.str, strpos);
        piece := InStr(strpos, |buf.str|);
        strpos := |buf.str|;
      }
    }

    /** The string data before the next list header. */
    method NextData()
      requires Valid() && buf != null && piece == NoPiece && lhpos < |buf.lheads|
      requires strpos < buf.lheads[lhpos].offset
      modifies `strpos, `piece
      ensures Valid() && piece != NoPiece && Remaining() == old(Remaining())
    {
      hide Splice, Ordered;
      EmptyBefore(Splice(buf.str, buf.lheads, lhpos, strpos));
      NextIsHead(buf.str, buf.lheads, lhpos, strpos);
      var head := buf.lheads[lhpos];
      SpliceEarlier(buf.str, buf.lheads, lhpos, strpos, head.offset);
      piece := InStr(strpos, head.offset);
      strpos := strpos + (head.offset - strpos);
    }

    /** The next list header itself. */
    method NextHeader()
      requires Valid() && buf != null && piece == NoPiece && lhpos < |buf.lheads|
      requires strpos == buf.lheads[lhpos].offset
      modifies `lhpos, `piece, buf.sizebuf
      ensures Valid() && piece != NoPiece && Remaining() == old(Remaining())
    {
      hide Splice, Ordered, Head;
      EmptyBefore(Splice(buf.str, buf.lheads, lhpos, strpos));
      NextIsHead(buf.str, buf.lheads, lhpos, strpos);
      var head := buf.lheads[lhpos];
      HeadFits(head.size);
      lhpos := lhpos + 1;
      var n := PutHeadInto(buf.sizebuf, head.size);
      piece := InSizebuf(0, n);
      assert PieceBytes() == ListHead(head.size);
    }

    /**
     Fills b with the next bytes of the output. Stops when b is full and data is left,
     or at the end of the output.
     */
    method Read(b: array<Byte>) returns (n: nat, eof: bool, ghost got: seq<Byte>)
      requires Valid() && (buf != null ==> b != buf.sizebuf)
      modifies this, b, if buf == null then {} else {buf.sizebuf}
      ensures Valid() && (buf == old(buf) || buf == null)
      ensures n == |got| <= b.Length && b[..] == Overwrite(old(b[..]), 0, got)
      ensures old(Remaining()) == got + Remaining()
      ensures if eof then Remaining() == [] else n == b.Length && Remaining() != []
    {
      hide Overwrite, Splice, Ordered;
      n, got := 0, [];
      ghost var orig := b[..];
      EmptyBefore(Remaining());
      OverwriteNothing(orig, 0);
      while true
        invariant Valid() && (buf == old(buf) || buf == null)
        invariant n == |got| <= b.Length && b[..] == Overwrite(orig, 0, got)
        invariant old(Remaining()) == got + Remaining()
        decreases |Remaining()|
      {
        Next();
        if buf == null || piece == NoPiece {
          buf := null;
          eof := true;
          return;
        }
        ghost var taken;
        var nn, fits;
        nn, fits, taken := TakePiece(b, n);
        Associate(got, taken, Remaining());
        OverwriteBehind(orig, 0, got, taken);
        got := got + taken;
        n := n + nn;
        if !fits {
          eof := false;
          return;
        }
      }
    }

    /** Copies as much of the current piece as fits into b[n..] and keeps the rest of it. */
    method TakePiece(b: array<Byte>, n: nat) returns (nn: nat, fits: bool, ghost got: seq<Byte>)
      requires buf != null && Valid() && piece != NoPiece && b != buf.sizebuf && n <= b.Length
      modifies b, `piece
      ensures Valid() && n + nn <= b.Length && nn == |got|
      ensures old(Remaining()) == got + Remaining()
      ensures b[..] == Overwrite(old(b[..]), n, got)
      ensures if fits then nn > 0 else n + nn == b.Length && Remaining() != []
    {
      var p := if piece.InStr? then buf.str[piece.lo..piece.hi] else buf.sizebuf[piece.lo..piece.hi];
      nn := Copy(b, n, p);
      got := p[..nn];
      TakePart(p, nn, Splice(buf.str, buf.lheads, lhpos, strpos));
      fits := nn == |p|;
      if fits {
        piece := NoPiece;
      } else {
        // piece didn't fit, see you next time.
        piece := piece.(lo := piece.lo + nn);
        assert PieceBytes() == p[nn..];
      }
    }
  }

  /**
   Reads to the end with buffers of any sizes: whatever the sizes, the concatenation of
   what the calls deliver is the output, with nothing lost or repeated.
   */
  method ReadAll(r: EncReader) returns (out: seq<Byte>)
    requires r.Valid()
    modifies r, if r.buf == null then {} else {r.buf.sizebuf}
    ensures r.Valid() && r.Remaining() == [] && out == old(r.Remaining())
  {
    hide Overwrite, Splice, Ordered;
    out := [];
    var eof := false;
    EmptyBefore(r.Remaining());
    while !eof
      invariant r.Valid() && (r.buf == old(r.buf) || r.buf == null)
      invariant old(r.Remaining()) == out + r.Remaining()
      invariant eof ==> r.Remaining() == []
      decreases |r.Remaining()|, !eof
    {
      var size: nat :| size > 0;
      var b := new Byte[size](_ => 0);
      ghost var zeros, got := b[..], [];
      var n;
      n, eof, got := r.Read(b);
      OverwriteParts(zeros, 0, got);
      assert b[..n] == b[..][0..n];
      Associate(out, got, r.Remaining());
      out := out + b[..n];
    }
  }
}
