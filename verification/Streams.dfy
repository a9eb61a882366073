/**
 * The read and write cursors of stm.h and the string functions of stm.c. A
 * message body starts at an address that is a multiple of 8, so the alignment of
 * a cursor is that of its offset in the body.
 */
module Streams {
  import opened Bytes
  import opened Signatures
  import opened Marshalling

  /** A cursor in the memory of a body. The memory may go on behind `end`, up to a multiple of eight. */
  class RStm {
    const buf: seq<Byte>
    const end: nat
    var p: nat

    constructor (buf: seq<Byte>, end: nat)
      requires end <= |buf|
      ensures this.buf == buf && this.end == end && p == 0
    {
      this.buf, this.end, p := buf, end, 0;
    }

    predicate CanRead(sz: nat)
      reads this`p
    {
      p + sz <= end
    }

    predicate IsReadAligned(grain: nat)
      requires grain > 0
      reads this`p
    {
      p % grain == 0
    }

    method Skip(sz: nat)
      requires CanRead(sz)
      modifies this`p
      ensures p == old(p) + sz
    {
      p := p + sz;
    }

    method Unread(sz: nat)
      requires sz <= p
      modifies this`p
      ensures p == old(p) - sz
    {
      p := p - sz;
    }

    method ReadAlign(grain: nat)
      requires grain > 0
      modifies this`p
      ensures p == Ceilg(old(p), grain)
    {
      p := Ceilg(p, grain);
    }

    /** Reads an integer of `k` bytes. */
    method ReadPod(k: nat) returns (n: nat)
      requires k > 0 && IsReadAligned(k) && CanRead(k) && end <= |buf|
      modifies this`p
      ensures p == old(p) + k && n == Value(buf[old(p)..p]) && n < Span(k)
    {
      Skip(k);
      n := Value(buf[p - k..p]);
      ValueBound(buf[p - k..p]);
    }

    /** The string at the cursor. None stands for the failed assert on its terminator, which fails
        exactly when there is a zero inside the text; the validator looks at the last byte only. */
    method ReadString() returns (v: Option<seq<Byte>>)
      requires end <= |buf| && |buf| % 4 == 0 && p <= |buf| && p % 4 == 0
      requires CheckFlat(Str, buf, p).Some? && CheckFlat(Str, buf, p).value <= end
      modifies this`p
      ensures p == CheckFlat(Str, buf, old(p)).value
      ensures v == if 0 in DecodeText(buf, old(p)) then None else Some(DecodeText(buf, old(p)))
    {
      hide Ceilg, SkipPadding, StringEnd, Value;
      ghost var start := p;
      var vlen := ReadPod(4);
      var from := p;
      if vlen == 0 {
        from := from - 1;
      }
      AlignIsPadding(buf, start, start + 4 + vlen);
      PaddedBehind(buf, start, vlen);
      Skip(vlen);
      ReadAlign(4);
      var n := StringLength(buf[..p], from);
      TerminatedText(buf, start, p);
      if n != vlen - (if vlen == 0 then 0 else 1) {
        return None;
      }
      return Some(buf[from..from + n]);
    }
  }

  lemma PaddedBehind(buf: seq<Byte>, start: nat, vlen: nat)
    requires start + 4 + vlen <= |buf|
    ensures start + 4 + vlen <= SkipPadding(buf, start, start + 4 + vlen, 4)
  {
  }

  /** The C string in a checked text ends at its last byte if and only if no other byte is zero. */
  lemma TerminatedText(buf: seq<Byte>, start: nat, q: nat)
    requires start <= |buf| && CheckFlat(Str, buf, start).Some?
    requires start + 4 + Value(buf[start..start + 4]) <= q <= |buf|
    ensures var n, text := Value(buf[start..start + 4]), DecodeText(buf, start);
            var from, size := if n == 0 then start + 3 else start + 4, if n == 0 then 0 else n - 1;
            && text == buf[from..from + size]
            && (StringEnd(buf[..q], from) == from + size <==> 0 !in text)
  {
    hide Value, SkipPadding;
    var n, d, text := Value(buf[start..start + 4]), buf[..q], DecodeText(buf, start);
    var from, size := if n == 0 then start + 3 else start + 4, if n == 0 then 0 else n - 1;
    assert d[from + size] == buf[from + size] == 0;
    var e := StringEnd(d, from);
    if 0 in text {
      var i :| 0 <= i < |text| && text[i] == 0;
      assert d[from + i] == 0 && e <= from + i;
    } else {
      assert forall i :: 0 <= i < |text| ==> d[from + i] == text[i] && text[i] in text;
    }
  }

  lemma AlignIsPadding(buf: seq<Byte>, start: nat, q: nat)
    requires start <= q <= |buf| && start % 4 == 0
    ensures |buf| % 4 == 0 ==> Ceilg(q, 4) == SkipPadding(buf, start, q, 4)
  {
    PadOfMultiple(start, q - start);
  }

  // -------------------------------------------------------------------- writing

  class WStm {
    const buf: array<Byte>
    var p: nat

    constructor (buf: array<Byte>)
      ensures this.buf == buf && p == 0
    {
      this.buf := buf;
      p := 0;
    }

    /** `written` went to the cursor and moved it; nothing else changed. */
    twostate predicate Wrote(written: seq<Byte>)
      reads this, buf
    {
      && p == old(p) + |written| && p <= buf.Length
      && Written(old(buf[..]), old(p), written, buf[..])
    }

    method WriteData(data: seq<Byte>)
      requires p + |data| <= buf.Length
      modifies this`p, buf
      ensures Wrote(data)
    {
      forall i | 0 <= i < |data| {
        buf[p + i] := data[i];
      }
      p := p + |data|;
    }

    /** Writes the low `k` bytes of `n`, lowest first. */
    method WritePod(n: nat, k: nat)
      requires k > 0 && p % k == 0 && p + k <= buf.Length
      modifies this`p, buf
      ensures Wrote(LittleEndian(n, k))
    {
      WriteData(LittleEndian(n, k));
    }

    method WriteAlign(grain: nat)
      requires grain > 0 && Ceilg(p, grain) <= buf.Length
      modifies this`p, buf
      ensures Wrote(Zeros(Ceilg(old(p), grain) - old(p)))
    {
      hide Ceilg, Written;
      ghost var start, before := p, buf[..];
      AlignedIsCeil(p, grain);
      WrittenNothing(before, p);
      while p % grain != 0
        invariant start <= p <= Ceilg(start, grain)
        invariant Written(before, start, Zeros(p - start), buf[..])
        decreases Ceilg(start, grain) - p
      {
        ghost var q, mid := p, buf[..];
        WritePod(0, 1);
        assert LittleEndian(0, 1) == [0] by { assert LittleEndian(0, 0) == []; }
        WrittenTwice(before, start, Zeros(q - start), mid, [0], buf[..]);
        assert Zeros(q - start) + [0] == Zeros(p - start);
      }
      AlignedBetween(start, p, grain);
    }

    /** Writes the size with terminator, the text and the terminator, and padding; only a zero size for no text. */
    method WriteString(v: seq<Byte>)
      requires p % 4 == 0 && IsText(v) && p + |EncodeText(v)| <= buf.Length
      modifies this`p, buf
      ensures Wrote(EncodeText(v))
    {
      hide Written;
      ghost var start, before := p, buf[..];
      var vlen := 0;
      if |v| > 0 {
        vlen := |v| + 1;
      }
      TextParts(v, start);
      WritePod(vlen, 4);
      ghost var middle := buf[..];
      var text := if vlen == 0 then [] else v + [0];
      WriteData(text);
      ghost var body, q := buf[..], p;
      WriteAlign(4);
      ghost var pad := Zeros(Ceilg(q, 4) - q);
      WrittenThrice(before, start, LittleEndian(vlen, 4), middle, text, body, pad, buf[..]);
      assert EncodeText(v) == LittleEndian(vlen, 4) + text + pad;
    }
  }

  lemma TextParts(v: seq<Byte>, start: nat)
    requires start % 4 == 0
    ensures var vlen := if v == [] then 0 else |v| + 1;
            var text := if v == [] then [] else v + [0];
            var q := start + 4 + |text|;
            && EncodeText(v) == LittleEndian(vlen, 4) + text + Zeros(Ceilg(q, 4) - q)
            && Ceilg(q, 4) == start + |EncodeText(v)|
  {
    var text := LittleEndian(if v == [] then 0 else |v| + 1, 4) + if v == [] then [] else v + [0];
    PadOfMultiple(start, |text|);
  }

  /** The size `casystm_size_string` gives is the number of bytes `casystm_write_string` writes. */
  function SizeString(v: seq<Byte>): (r: nat)
    ensures r == |EncodeText(v)|
  {
    Ceilg(4 + |v| + if |v| > 0 then 1 else 0, 4)
  }

  lemma AlignedIsCeil(p: nat, grain: nat)
    requires grain > 0
    ensures p % grain == 0 ==> Ceilg(p, grain) == p
  {
    if p % grain == 0 {
      AlignedBetween(p, p, grain);
    }
  }

  lemma AlignedBetween(start: nat, p: nat, grain: nat)
    requires grain > 0 && start <= p <= Ceilg(start, grain) && p % grain == 0
    ensures p == Ceilg(start, grain)
  {
    var c := Ceilg(start, grain);
    DivisionFacts(c, grain);
    DivisionFacts(p, grain);
    Multiples(grain, p / grain, c / grain);
    Multiples(grain, c / grain, p / grain);
  }
}
