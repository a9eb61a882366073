/**
 * Marshalling code as the stubs of an interface have it: one call of a stream
 * function for each value, with padding behind arrays and structs. Writing
 * gives the bytes of `Marshalling`, and reading them gives the values.
 */
module ValueStreams {
  import opened Bytes
  import opened Signatures
  import opened Marshalling
  import opened Streams
  import opened Validator

  /** Every count and every fixed-size field of the rest of the members is in place for a cursor at `p`. */
  predicate FieldsPlaced(fs: seq<Flat>, vs: seq<FlatVal>, p: nat)
    requires TypedFlats(fs, vs)
  {
    SupportedFlats(fs) && CountsAligned(fs, p % 4) && AlignedFlats(fs, vs, p)
  }

  predicate FlatPlaced(f: Flat, p: nat) {
    SupportedFlat(f) && OnGrain(f, p) && (!f.Fixed? ==> p % 4 == 0)
  }

  lemma FieldsUnfold(fs: seq<Flat>, vs: seq<FlatVal>, p: nat)
    requires TypedFlats(fs, vs) && FieldsPlaced(fs, vs, p)
    ensures fs == [] ==> EncodeFlats(fs, vs) == []
    ensures fs != [] ==>
      && |vs| == |fs| && TypedFlat(fs[0], vs[0]) && TypedFlats(fs[1..], vs[1..]) && FlatPlaced(fs[0], p)
      && EncodeFlats(fs, vs) == EncodeFlat(fs[0], vs[0]) + EncodeFlats(fs[1..], vs[1..])
      && FieldsPlaced(fs[1..], vs[1..], p + |EncodeFlat(fs[0], vs[0])|)
  {
    hide SizeOf, EncodeFlat, EncodeFlats, CountsAligned, TypedFlat;
    FieldsFirst(fs, vs, p);
    if fs != [] {
      FlatGrain(fs[0], vs[0]);
      CountsNext(fs, p, |EncodeFlat(fs[0], vs[0])|);
    }
  }

  lemma FieldsFirst(fs: seq<Flat>, vs: seq<FlatVal>, p: nat)
    requires TypedFlats(fs, vs) && SupportedFlats(fs) && AlignedFlats(fs, vs, p)
    ensures fs == [] ==> EncodeFlats(fs, vs) == []
    ensures fs != [] ==>
      && |vs| == |fs| && TypedFlat(fs[0], vs[0]) && TypedFlats(fs[1..], vs[1..])
      && SupportedFlat(fs[0]) && SupportedFlats(fs[1..])
      && EncodeFlats(fs, vs) == EncodeFlat(fs[0], vs[0]) + EncodeFlats(fs[1..], vs[1..])
      && OnGrain(fs[0], p) && AlignedFlats(fs[1..], vs[1..], p + |EncodeFlat(fs[0], vs[0])|)
  {
    hide SizeOf, EncodeFlat, EncodeFlats, AlignedFlats, OnGrain, SupportedFlat;
    FlatsUnfold(fs, vs, Zeros(p), p);
  }

  lemma CountsNext(fs: seq<Flat>, p: nat, n: nat)
    requires fs != [] && CountsAligned(fs, p % 4)
    requires if fs[0].Fixed? then n == SizeOf(fs[0].c) else n % 4 == 0
    ensures CountsAligned(fs[1..], (p + n) % 4) && (!fs[0].Fixed? ==> p % 4 == 0)
  {
    hide SizeOf;
    Residue(p, n);
  }

  lemma Residue(p: nat, n: nat)
    ensures (p + n) % 4 == (p % 4 + n) % 4
    ensures p % 4 == 0 && n % 4 == 0 ==> (p + n) % 4 == 0
  {
  }

  lemma FlatGrain(f: Flat, v: FlatVal)
    requires TypedFlat(f, v)
    ensures if f.Fixed? then |EncodeFlat(f, v)| == SizeOf(f.c) else |EncodeFlat(f, v)| % 4 == 0
  {
    if f.Str? {
      TextSize(v.s);
    }
  }

  // -------------------------------------------------------------------- writing

  /** `p` is a multiple of `grain`, a size to which structs are aligned. */
  predicate OnMultiple(p: nat, grain: nat) {
    grain == 1 || (grain == 2 && p % 2 == 0) || (grain == 4 && p % 4 == 0)
  }

  /** A struct ends at the padding that its alignment asks for, as `casystm_write_align` writes it. */
  lemma StructPad(p: nat, n: nat, grain: nat)
    requires OnMultiple(p, grain)
    ensures Ceilg(p + n, grain) == p + Ceilg(n, grain) && OnMultiple(p + Ceilg(n, grain), grain)
  {
    hide Ceilg;
    if grain == 4 {
      PadOfMultiple(p, n);
      CeilingOfWord(n);
    } else if grain == 2 {
      CeilingOfPair(n);
      CeilingOfPair(p + n);
    } else {
      CeilingOfOne(n);
      CeilingOfOne(p + n);
    }
  }

  lemma CeilingOfPair(n: nat)
    ensures Ceilg(n, 2) == 2 * ((n + 1) / 2)
  {
  }

  lemma CeilingOfOne(n: nat)
    ensures Ceilg(n, 1) == n
  {
  }

  lemma MultipleNext(p: nat, k: nat)
    requires OnMultiple(p, k)
    ensures p % k == 0 && OnMultiple(p + k, k)
  {
  }

  method WriteNums(s: WStm, ns: seq<nat>, k: nat)
    requires (k == 1 || k == 2 || k == 4) && OnMultiple(s.p, k) && s.p + |EncodeNums(ns, k)| <= s.buf.Length
    modifies s`p, s.buf
    ensures Written(old(s.buf[..]), old(s.p), EncodeNums(ns, k), s.buf[..]) && s.p == old(s.p) + |EncodeNums(ns, k)|
    decreases |ns|
  {
    hide Written, LittleEndian, OnMultiple;
    MultipleNext(s.p, k);
    ghost var start, before := s.p, s.buf[..];
    if |ns| == 0 {
      WrittenNothing(before, start);
    } else {
      s.WritePod(ns[0], k);
      ghost var middle := s.buf[..];
      WriteNums(s, ns[1..], k);
      WrittenTwice(before, start, LittleEndian(ns[0], k), middle, EncodeNums(ns[1..], k), s.buf[..]);
    }
  }

  method WriteFlat(s: WStm, f: Flat, v: FlatVal)
    requires TypedFlat(f, v) && FlatPlaced(f, s.p) && s.p + |EncodeFlat(f, v)| <= s.buf.Length
    modifies s`p, s.buf
    ensures Written(old(s.buf[..]), old(s.p), EncodeFlat(f, v), s.buf[..]) && s.p == old(s.p) + |EncodeFlat(f, v)|
  {
    hide Written, LittleEndian, EncodeNums, EncodeText;
    match f
    case Fixed(c) =>
      s.WritePod(v.n, SizeOf(c));
    case Str =>
      s.WriteString(v.s);
    case FixedArr(c) =>
      WriteArray(s, v.ns, SizeOf(c));
  }

  method WriteArray(s: WStm, ns: seq<nat>, k: nat)
    requires (k == 1 || k == 2 || k == 4) && s.p % 4 == 0
    requires s.p + |Padded(LittleEndian(|ns|, 4) + EncodeNums(ns, k), 4)| <= s.buf.Length
    modifies s`p, s.buf
    ensures Written(old(s.buf[..]), old(s.p), Padded(LittleEndian(|ns|, 4) + EncodeNums(ns, k), 4), s.buf[..])
    ensures s.p == old(s.p) + |Padded(LittleEndian(|ns|, 4) + EncodeNums(ns, k), 4)|
  {
    hide Written, LittleEndian, EncodeNums, Ceilg, OnMultiple;
    NextWord(s.p);
    CountedBytes(s.p, |ns|, EncodeNums(ns, k));
    ghost var start, before := s.p, s.buf[..];
    s.WritePod(|ns|, 4);
    ghost var b1 := s.buf[..];
    WriteNums(s, ns, k);
    ghost var b2, q := s.buf[..], s.p;
    s.WriteAlign(4);
    WrittenThrice(before, start, LittleEndian(|ns|, 4), b1, EncodeNums(ns, k), b2, Zeros(s.p - q), s.buf[..]);
  }

  method WriteFlats(s: WStm, fs: seq<Flat>, vs: seq<FlatVal>)
    requires TypedFlats(fs, vs) && FieldsPlaced(fs, vs, s.p) && s.p + |EncodeFlats(fs, vs)| <= s.buf.Length
    modifies s`p, s.buf
    ensures Written(old(s.buf[..]), old(s.p), EncodeFlats(fs, vs), s.buf[..]) && s.p == old(s.p) + |EncodeFlats(fs, vs)|
    decreases |fs|
  {
    hide Written, EncodeFlat, EncodeFlats, TypedFlats, TypedFlat, FieldsPlaced, FlatPlaced;
    ghost var start, before := s.p, s.buf[..];
    FieldsUnfold(fs, vs, s.p);
    if |fs| == 0 {
      WrittenNothing(before, start);
    } else {
      WriteFlat(s, fs[0], vs[0]);
      ghost var middle := s.buf[..];
      WriteFlats(s, fs[1..], vs[1..]);
      WrittenTwice(before, start, EncodeFlat(fs[0], vs[0]), middle, EncodeFlats(fs[1..], vs[1..]), s.buf[..]);
    }
  }

  /** A struct at `p` has all its fields in place, and one behind it has too. */
  lemma RowPlaced(ms: seq<Flat>, vs: seq<FlatVal>, p: nat)
    requires SupportedMembers(ms) && TypedFlats(ms, vs) && AlignedFlats(ms, vs, p) && OnMultiple(p, AlignOf(ms))
    ensures AlignOf(ms) == 1 || AlignOf(ms) == 2 || AlignOf(ms) == 4
    ensures FieldsPlaced(ms, vs, p)
    ensures |EncodeStruct(ms, vs)| == Ceilg(|EncodeFlats(ms, vs)|, AlignOf(ms))
    ensures Ceilg(p + |EncodeFlats(ms, vs)|, AlignOf(ms)) == p + |EncodeStruct(ms, vs)|
    ensures OnMultiple(p + |EncodeStruct(ms, vs)|, AlignOf(ms))
  {
    hide AlignOf, AlignedFlats, TypedFlats, EncodeFlats, Ceilg, CountsAligned;
    AlignOfMembers(ms);
    if AlignOf(ms) < 4 {
      NoCounts(ms, 0, p % 4);
    }
    StructPad(p, |EncodeFlats(ms, vs)|, AlignOf(ms));
  }

  lemma {:induction false} AlignOfMembers(ms: seq<Flat>)
    requires SupportedFlats(ms)
    ensures ms != [] ==> AlignOf(ms) == 1 || AlignOf(ms) == 2 || AlignOf(ms) == 4 || AlignOf(ms) == 8
    ensures ms == [] ==> AlignOf(ms) == 0
  {
    if ms != [] {
      assert SupportedFlat(ms[0]);
      AlignOfMembers(ms[1..]);
    }
  }

  /** Members aligned to less than four have no counts to place. */
  lemma {:induction false} NoCounts(ms: seq<Flat>, off: nat, other: nat)
    requires CountsAligned(ms, off) && AlignOf(ms) < 4
    ensures CountsAligned(ms, other)
    decreases |ms|
  {
    if ms != [] {
      NoCounts(ms[1..], (off + SizeOf(ms[0].c)) % 4, (other + SizeOf(ms[0].c)) % 4);
    }
  }

  method WriteStruct(s: WStm, ms: seq<Flat>, vs: seq<FlatVal>, grain: nat)
    requires SupportedMembers(ms) && TypedFlats(ms, vs) && AlignedFlats(ms, vs, s.p)
    requires grain == AlignOf(ms) && OnMultiple(s.p, AlignOf(ms)) && s.p + |EncodeStruct(ms, vs)| <= s.buf.Length
    modifies s`p, s.buf
    ensures Written(old(s.buf[..]), old(s.p), EncodeStruct(ms, vs), s.buf[..])
    ensures s.p == old(s.p) + |EncodeStruct(ms, vs)|
  {
    hide Written, EncodeFlats, EncodeStruct, TypedFlats, FieldsPlaced, AlignOf, SupportedMembers, AlignedFlats, Ceilg;
    ghost var start, before := s.p, s.buf[..];
    RowPlaced(ms, vs, s.p);
    StructBytes(ms, vs);
    WriteFlats(s, ms, vs);
    ghost var middle, q := s.buf[..], s.p;
    s.WriteAlign(grain);
    WrittenTwice(before, start, EncodeFlats(ms, vs), middle, Zeros(s.p - q), s.buf[..]);
  }

  lemma StructBytes(ms: seq<Flat>, vs: seq<FlatVal>)
    requires TypedFlats(ms, vs) && AlignOf(ms) > 0
    ensures |EncodeStruct(ms, vs)| >= |EncodeFlats(ms, vs)|
    ensures EncodeStruct(ms, vs) == EncodeFlats(ms, vs) + Zeros(|EncodeStruct(ms, vs)| - |EncodeFlats(ms, vs)|)
  {
  }

  method WriteRows(s: WStm, ms: seq<Flat>, rows: seq<seq<FlatVal>>, grain: nat)
    requires SupportedMembers(ms) && TypedRows(ms, rows) && AlignedRows(ms, rows, s.p)
    requires grain == AlignOf(ms) && OnMultiple(s.p, AlignOf(ms)) && s.p + |EncodeRows(ms, rows)| <= s.buf.Length
    modifies s`p, s.buf
    ensures Written(old(s.buf[..]), old(s.p), EncodeRows(ms, rows), s.buf[..])
    ensures s.p == old(s.p) + |EncodeRows(ms, rows)|
    decreases |rows|
  {
    hide Written, EncodeStruct, EncodeFlats, TypedFlats, FieldsPlaced, AlignOf, SupportedMembers, AlignedFlats, Ceilg;
    ghost var start, before := s.p, s.buf[..];
    if |rows| == 0 {
      WrittenNothing(before, start);
    } else {
      assert rows[0] in rows;
      RowPlaced(ms, rows[0], s.p);
      WriteStruct(s, ms, rows[0], grain);
      ghost var middle := s.buf[..];
      WriteRows(s, ms, rows[1..], grain);
      WrittenTwice(before, start, EncodeStruct(ms, rows[0]), middle, EncodeRows(ms, rows[1..]), s.buf[..]);
    }
  }

  method WriteTexts(s: WStm, ts: seq<seq<Byte>>)
    requires (forall t :: t in ts ==> IsText(t)) && s.p % 4 == 0 && s.p + |EncodeTexts(ts)| <= s.buf.Length
    modifies s`p, s.buf
    ensures Written(old(s.buf[..]), old(s.p), EncodeTexts(ts), s.buf[..]) && s.p == old(s.p) + |EncodeTexts(ts)|
    decreases |ts|
  {
    hide Written, EncodeText, IsText;
    ghost var start, before := s.p, s.buf[..];
    if |ts| == 0 {
      WrittenNothing(before, start);
    } else {
      TextSize(ts[0]);
      Residue(s.p, |EncodeText(ts[0])|);
      s.WriteString(ts[0]);
      ghost var middle := s.buf[..];
      WriteTexts(s, ts[1..]);
      WrittenTwice(before, start, EncodeText(ts[0]), middle, EncodeTexts(ts[1..]), s.buf[..]);
    }
  }

  /** Where an argument of a method may stand. */
  predicate ElemPlaced(e: Elem, v: Val, p: nat)
    requires Typed(e, v)
  {
    SupportedElem(e) && !e.Struct? && AlignedElem(e, v, p) && (!(e.One? && e.f.Fixed?) ==> p % 4 == 0)
  }

  method WriteElem(s: WStm, e: Elem, v: Val)
    requires Typed(e, v) && ElemPlaced(e, v, s.p) && s.p + |EncodeElem(e, v)| <= s.buf.Length
    modifies s`p, s.buf
    ensures Written(old(s.buf[..]), old(s.p), EncodeElem(e, v), s.buf[..]) && s.p == old(s.p) + |EncodeElem(e, v)|
  {
    hide Written, EncodeFlat, EncodeTexts, EncodeRows, LittleEndian, TypedFlat, TypedRows, AlignedRows,
      SupportedMembers, Ceilg, AlignOf, SizeOf;
    match e
    case One(f) =>
      WriteFlat(s, f, v.v);
    case StrArr =>
      CountedBytes(s.p, |v.ts|, EncodeTexts(v.ts));
      ghost var start, before := s.p, s.buf[..];
      s.WritePod(|v.ts|, 4);
      ghost var b1 := s.buf[..];
      WriteTexts(s, v.ts);
      ghost var b2, q := s.buf[..], s.p;
      s.WriteAlign(4);
      WrittenThrice(before, start, LittleEndian(|v.ts|, 4), b1, EncodeTexts(v.ts), b2, Zeros(s.p - q), s.buf[..]);
    case StructArr(ms) =>
      CountedBytes(s.p, |v.rows|, EncodeRows(ms, v.rows));
      RowsStart(ms, s.p);
      ghost var start, before := s.p, s.buf[..];
      s.WritePod(|v.rows|, 4);
      ghost var b1 := s.buf[..];
      WriteRows(s, ms, v.rows, AlignOf(ms));
      ghost var b2, q := s.buf[..], s.p;
      s.WriteAlign(4);
      WrittenThrice(before, start, LittleEndian(|v.rows|, 4), b1, EncodeRows(ms, v.rows), b2, Zeros(s.p - q),
                    s.buf[..]);
  }

  lemma CountedBytes(p: nat, n: nat, body: seq<Byte>)
    requires p % 4 == 0
    ensures var all := Padded(LittleEndian(n, 4) + body, 4);
            && Ceilg(p + 4 + |body|, 4) == p + |all| && 4 + |body| <= |all|
            && all == LittleEndian(n, 4) + body + Zeros(|all| - 4 - |body|)
  {
    StructPad(p, 4 + |body|, 4);
  }

  lemma RowsStart(ms: seq<Flat>, p: nat)
    requires SupportedMembers(ms) && p % 4 == 0
    ensures OnMultiple(p + 4, AlignOf(ms))
  {
    hide AlignOf, SupportedFlats, CountsAligned;
    AlignOfMembers(ms);
    NextWord(p);
  }

  lemma NextWord(p: nat)
    requires p % 4 == 0
    ensures OnMultiple(p + 4, 4) && OnMultiple(p + 4, 2) && OnMultiple(p + 4, 1)
  {
  }

  ghost predicate AllPlaced(es: seq<Elem>, vs: seq<Val>, p: nat)
    requires TypedAll(es, vs)
  {
    && (forall e :: e in es ==> SupportedElem(e) && !e.Struct?)
    && CountsAlignedAll(es, p % 4) && AlignedAll(es, vs, p)
  }

  lemma ArgumentsUnfold(es: seq<Elem>, vs: seq<Val>, p: nat)
    requires TypedAll(es, vs) && AllPlaced(es, vs, p)
    ensures es == [] ==> EncodeAll(es, vs) == []
    ensures es != [] ==>
      && |vs| == |es| && Typed(es[0], vs[0]) && TypedAll(es[1..], vs[1..]) && ElemPlaced(es[0], vs[0], p)
      && EncodeAll(es, vs) == EncodeElem(es[0], vs[0]) + EncodeAll(es[1..], vs[1..])
      && AllPlaced(es[1..], vs[1..], p + |EncodeElem(es[0], vs[0])|)
  {
    hide SizeOf, EncodeElem, AlignedElem, SupportedElem, CountsAlignedAll, Typed;
    if es != [] {
      assert Typed(es[0], vs[0]) && es[0] in es;
      assert forall e :: e in es[1..] ==> e in es;
      ElemSize(es[0], vs[0]);
      AllCountsNext(es, p, |EncodeElem(es[0], vs[0])|);
    }
  }

  lemma AllCountsNext(es: seq<Elem>, p: nat, n: nat)
    requires es != [] && CountsAlignedAll(es, p % 4)
    requires if es[0].One? && es[0].f.Fixed? then n == SizeOf(es[0].f.c) else n % 4 == 0
    ensures CountsAlignedAll(es[1..], (p + n) % 4) && (!(es[0].One? && es[0].f.Fixed?) ==> p % 4 == 0)
  {
    hide SizeOf;
    Residue(p, n);
  }

  lemma ElemSize(e: Elem, v: Val)
    requires Typed(e, v) && !e.Struct?
    ensures if e.One? && e.f.Fixed? then |EncodeElem(e, v)| == SizeOf(e.f.c) else |EncodeElem(e, v)| % 4 == 0
  {
    if e.One? {
      FlatGrain(e.f, v.v);
    }
  }

  method WriteAll(s: WStm, es: seq<Elem>, vs: seq<Val>)
    requires TypedAll(es, vs) && AllPlaced(es, vs, s.p) && s.p + |EncodeAll(es, vs)| <= s.buf.Length
    modifies s`p, s.buf
    ensures Written(old(s.buf[..]), old(s.p), EncodeAll(es, vs), s.buf[..]) && s.p == old(s.p) + |EncodeAll(es, vs)|
    decreases |es|
  {
    hide Written, EncodeElem, EncodeAll, TypedAll, Typed, AllPlaced, ElemPlaced;
    ghost var start, before := s.p, s.buf[..];
    ArgumentsUnfold(es, vs, s.p);
    if |es| == 0 {
      WrittenNothing(before, start);
    } else {
      WriteElem(s, es[0], vs[0]);
      ghost var middle := s.buf[..];
      WriteAll(s, es[1..], vs[1..]);
      WrittenTwice(before, start, EncodeElem(es[0], vs[0]), middle, EncodeAll(es[1..], vs[1..]), s.buf[..]);
    }
  }

  // -------------------------------------------------------------------- reading

  /** A cursor in the memory of a body, which is a multiple of eight bytes. */
  ghost predicate Sound(s: RStm)
    reads s
  {
    s.p <= |s.buf| && s.end <= |s.buf| && |s.buf| % 4 == 0
  }

  /** The checked part of the body does not go beyond its size. */
  predicate Within(q: Option<nat>, end: nat) {
    q.Some? && q.value <= end
  }

  /** In memory that is a multiple of four bytes all padding is there. */
  lemma NoShortWord(buf: seq<Byte>, p: nat, off: nat)
    requires |buf| % 4 == 0 && p <= |buf|
    ensures off < 4 ==> (Phase(buf, p, off) <==> p % 4 == off)
  {
    hide Ceilg;
    CeilingOfWord(p);
  }

  lemma PaddingIsThere(buf: seq<Byte>, p: nat, q: nat, grain: nat)
    requires |buf| % 4 == 0 && p <= q <= |buf| && OnMultiple(p, grain)
    ensures SkipPadding(buf, p, q, grain) == Ceilg(q, grain) && OnMultiple(Ceilg(q, grain), grain)
  {
    hide Ceilg;
    StructPad(p, q - p, grain);
    CeilingFits(q, |buf|, grain);
  }

  lemma CeilingFits(q: nat, size: nat, grain: nat)
    requires q <= size && size % 4 == 0 && (grain == 1 || grain == 2 || grain == 4)
    ensures Ceilg(q, grain) <= size
  {
    hide Ceilg;
    if grain == 4 {
      CeilingOfWord(q);
    } else if grain == 2 {
      CeilingOfPair(q);
    } else {
      CeilingOfOne(q);
    }
  }

  /** Where the cursor stands behind a checked element. */
  lemma FlatEnds(f: Flat, buf: seq<Byte>, p: nat)
    requires |buf| % 4 == 0 && p <= |buf| && SupportedFlat(f) && (f.Fixed? || p % 4 == 0) && CheckFlat(f, buf, p).Some?
    ensures CheckFlat(f, buf, p).value % 4 == if f.Fixed? then (p + SizeOf(f.c)) % 4 else 0
  {
    hide SizeOf, CheckFlat, SupportedFlat, Phase;
    NoShortWord(buf, p, p % 4);
    FlatPhase(f, buf, p, p % 4);
    if f.Fixed? {
      Residue(p, SizeOf(f.c));
    }
    NoShortWord(buf, CheckFlat(f, buf, p).value, if f.Fixed? then (p % 4 + SizeOf(f.c)) % 4 else 0);
  }

  method ReadNums(s: RStm, n: nat, k: nat) returns (r: seq<nat>)
    requires (k == 1 || k == 2 || k == 4) && OnMultiple(s.p, k) && s.p + k * n <= s.end <= |s.buf|
    modifies s`p
    ensures r == DecodeNums(s.buf, old(s.p), k, n) && s.p == old(s.p) + k * n
    decreases n
  {
    hide Value, OnMultiple;
    if n == 0 {
      return [];
    }
    MultipleNext(s.p, k);
    assert k * n == k + k * (n - 1);
    var first := s.ReadPod(k);
    var rest := ReadNums(s, n - 1, k);
    r := [first] + rest;
  }

  method ReadFlat(s: RStm, f: Flat) returns (r: Option<FlatVal>)
    requires Sound(s) && SupportedFlat(f) && (f.Fixed? || s.p % 4 == 0) && Within(CheckFlat(f, s.buf, s.p), s.end)
    modifies s`p
    ensures var v := DecodeFlat(f, s.buf, old(s.p)); r == if FlatZeroFree(v) then Some(v) else None
    ensures s.p == CheckFlat(f, s.buf, old(s.p)).value
  {
    hide Ceilg, SkipPadding, Value, DecodeText, DecodeNums;
    match f
    case Fixed(c) =>
      var n := s.ReadPod(SizeOf(c));
      return Some(Num(n));
    case Str =>
      var t := s.ReadString();
      return if t.None? then None else Some(Text(t.value));
    case FixedArr(c) =>
      ghost var start := s.p;
      CheckedArray(s.buf, start, SizeOf(c), s.end);
      NextWord(start);
      var n := s.ReadPod(4);
      var ns := ReadNums(s, n, SizeOf(c));
      PaddingIsThere(s.buf, start, s.p, 4);
      s.ReadAlign(4);
      return Some(Nums(ns));
  }

  /** The elements of a checked array end before its padding. */
  lemma CheckedArray(buf: seq<Byte>, p: nat, k: nat, end: nat)
    requires p + 4 <= |buf| && p + 4 + k * Value(buf[p..p + 4]) <= |buf|
    ensures p + 4 + k * Value(buf[p..p + 4]) <= SkipPadding(buf, p, p + 4 + k * Value(buf[p..p + 4]), 4)
  {
  }

  lemma FlatsEnd(fs: seq<Flat>, buf: seq<Byte>, p: nat)
    requires |buf| % 4 == 0 && p <= |buf| && fs != [] && SupportedFlats(fs) && CountsAligned(fs, p % 4)
    requires CheckFlats(fs, buf, p).Some?
    ensures SupportedFlat(fs[0]) && SupportedFlats(fs[1..]) && (fs[0].Fixed? || p % 4 == 0)
    ensures CheckFlat(fs[0], buf, p).Some?
    ensures var q := CheckFlat(fs[0], buf, p).value;
            && CountsAligned(fs[1..], q % 4) && CheckFlats(fs, buf, p) == CheckFlats(fs[1..], buf, q)
            && DecodeFlats(fs, buf, p) == [DecodeFlat(fs[0], buf, p)] + DecodeFlats(fs[1..], buf, q)
  {
    hide SizeOf, CheckFlat, SupportedFlat, DecodeFlat;
    assert fs[0] in fs;
    FlatEnds(fs[0], buf, p);
    if fs[0].Fixed? {
      Residue(p, SizeOf(fs[0].c));
    }
  }

  method ReadFlats(s: RStm, fs: seq<Flat>) returns (r: Option<seq<FlatVal>>)
    requires Sound(s) && SupportedFlats(fs) && CountsAligned(fs, s.p % 4) && Within(CheckFlats(fs, s.buf, s.p), s.end)
    modifies s`p
    ensures var vs := DecodeFlats(fs, s.buf, old(s.p)); r == if RowZeroFree(vs) then Some(vs) else None
    ensures r.Some? ==> s.p == CheckFlats(fs, s.buf, old(s.p)).value
    decreases |fs|
  {
    if |fs| == 0 {
      return Some([]);
    }
    FlatsEnd(fs, s.buf, s.p);
    hide CheckFlat, CheckFlats, DecodeFlat, DecodeFlats, CountsAligned, SupportedFlat, SupportedFlats, FlatZeroFree;
    var first := ReadFlat(s, fs[0]);
    if first.None? {
      return None;
    }
    var rest := ReadFlats(s, fs[1..]);
    if rest.None? {
      return None;
    }
    return Some([first.value] + rest.value);
  }

  /** A checked struct has its counts in place and ends at its padding, where the next may begin. */
  lemma RowEnds(ms: seq<Flat>, grain: nat, buf: seq<Byte>, p: nat)
    requires |buf| % 4 == 0 && p <= |buf| && SupportedMembers(ms) && grain == AlignOf(ms) && OnMultiple(p, grain)
    requires CheckStruct(ms, buf, p).Some?
    ensures grain > 0 && SupportedFlats(ms) && CountsAligned(ms, p % 4) && CheckFlats(ms, buf, p).Some?
    ensures var q := CheckFlats(ms, buf, p).value;
            q <= CheckStruct(ms, buf, p).value == Ceilg(q, grain) && OnMultiple(Ceilg(q, grain), grain)
  {
    hide AlignOf, CheckFlats, CountsAligned, SupportedFlats, Ceilg, SkipPadding;
    AlignOfMembers(ms);
    if grain < 4 {
      NoCounts(ms, 0, p % 4);
    }
    PaddingIsThere(buf, p, CheckFlats(ms, buf, p).value, grain);
  }

  method ReadRow(s: RStm, ms: seq<Flat>, grain: nat) returns (r: Option<seq<FlatVal>>)
    requires Sound(s) && SupportedMembers(ms) && grain == AlignOf(ms) && OnMultiple(s.p, grain)
    requires Within(CheckStruct(ms, s.buf, s.p), s.end)
    modifies s`p
    ensures var vs := DecodeFlats(ms, s.buf, old(s.p)); r == if RowZeroFree(vs) then Some(vs) else None
    ensures r.Some? ==> s.p == CheckStruct(ms, s.buf, old(s.p)).value && OnMultiple(s.p, grain)
  {
    RowEnds(ms, grain, s.buf, s.p);
    hide CheckFlats, CheckStruct, DecodeFlats, CountsAligned, SupportedFlats, SupportedMembers, RowZeroFree, AlignOf,
      Ceilg, OnMultiple;
    r := ReadFlats(s, ms);
    if r.Some? {
      s.ReadAlign(grain);
    }
  }

  /** The first row and the rest of a checked array. */
  lemma RowsFirst(ms: seq<Flat>, n: nat, buf: seq<Byte>, p: nat)
    returns (q: nat, first: seq<FlatVal>, rest: seq<seq<FlatVal>>)
    requires p <= |buf| && n > 0 && CheckRows(Some(ms), n, buf, p).Some?
    ensures CheckStruct(ms, buf, p) == Some(q) && q <= |buf|
    ensures CheckRows(Some(ms), n - 1, buf, q) == CheckRows(Some(ms), n, buf, p)
    ensures q <= CheckRows(Some(ms), n, buf, p).value && CheckFlats(ms, buf, p).Some?
    ensures first == DecodeFlats(ms, buf, p) && rest == DecodeRows(ms, n - 1, buf, q)
    ensures DecodeRows(ms, n, buf, p) == [first] + rest
    ensures RowsZeroFree([first] + rest) <==> RowZeroFree(first) && RowsZeroFree(rest)
  {
    hide CheckFlats, DecodeFlats, SkipPadding, AlignOf, RowZeroFree;
    q := CheckStruct(ms, buf, p).value;
    first, rest := DecodeFlats(ms, buf, p), DecodeRows(ms, n - 1, buf, q);
    assert forall x :: x in [first] + rest <==> x == first || x in rest;
  }

  method ReadRows(s: RStm, ms: seq<Flat>, n: nat, grain: nat) returns (r: Option<seq<seq<FlatVal>>>)
    requires Sound(s) && SupportedMembers(ms) && grain == AlignOf(ms) && OnMultiple(s.p, grain)
    requires Within(CheckRows(Some(ms), n, s.buf, s.p), s.end)
    modifies s`p
    ensures var rows := DecodeRows(ms, n, s.buf, old(s.p)); r == if RowsZeroFree(rows) then Some(rows) else None
    ensures r.Some? ==> s.p == CheckRows(Some(ms), n, s.buf, old(s.p)).value
    decreases n
  {
    if n == 0 {
      return Some([]);
    }
    ghost var q, head, tail := RowsFirst(ms, n, s.buf, s.p);
    hide CheckStruct, CheckFlats, CheckRows, DecodeFlats, DecodeRows, SupportedMembers, RowZeroFree, RowsZeroFree,
      AlignOf, OnMultiple;
    var first := ReadRow(s, ms, grain);
    if first.None? {
      return None;
    }
    var rest := ReadRows(s, ms, n - 1, grain);
    if rest.None? {
      return None;
    }
    return Some([first.value] + rest.value);
  }

  method ReadTexts(s: RStm, n: nat) returns (r: Option<seq<seq<Byte>>>)
    requires Sound(s) && s.p % 4 == 0 && Within(CheckRows(None, n, s.buf, s.p), s.end)
    modifies s`p
    ensures var ts := DecodeTexts(n, s.buf, old(s.p)); r == if forall t :: t in ts ==> 0 !in t then Some(ts) else None
    ensures r.Some? ==> s.p == CheckRows(None, n, s.buf, old(s.p)).value
    decreases n
  {
    hide CheckFlat, DecodeText;
    if n == 0 {
      return Some([]);
    }
    FlatEnds(Str, s.buf, s.p);
    var first := s.ReadString();
    if first.None? {
      return None;
    }
    var rest := ReadTexts(s, n - 1);
    if rest.None? {
      return None;
    }
    return Some([first.value] + rest.value);
  }

  /** Where an argument of a checked body may stand. */
  predicate ArgumentAt(e: Elem, p: nat) {
    SupportedElem(e) && !e.Struct? && (!(e.One? && e.f.Fixed?) ==> p % 4 == 0)
  }

  method ReadElem(s: RStm, e: Elem) returns (r: Option<Val>)
    requires Sound(s) && ArgumentAt(e, s.p) && Within(CheckElem(e, s.buf, s.p), s.end)
    modifies s`p
    ensures var v := DecodeElem(e, s.buf, old(s.p)); r == if ZeroFree(v) then Some(v) else None
    ensures r.Some? ==> s.p == CheckElem(e, s.buf, old(s.p)).value
  {
    hide CheckFlat, CheckRows, DecodeFlat, DecodeRows, DecodeTexts, SupportedMembers, SupportedFlat, Ceilg, AlignOf,
      SizeOf, Value, FlatZeroFree, RowZeroFree, SkipPadding;
    match e
    case One(f) =>
      var x := ReadFlat(s, f);
      return if x.None? then None else Some(OneVal(x.value));
    case StrArr =>
      var ts := ReadTextArray(s);
      return if ts.None? then None else Some(Texts(ts.value));
    case StructArr(ms) =>
      var rows := ReadRowArray(s, ms);
      return if rows.None? then None else Some(Rows(rows.value));
  }

  method ReadTextArray(s: RStm) returns (r: Option<seq<seq<Byte>>>)
    requires Sound(s) && s.p % 4 == 0 && Within(CheckRowArray(None, s.buf, s.p), s.end)
    modifies s`p
    ensures var ts := DecodeTexts(Value(s.buf[old(s.p)..old(s.p) + 4]), s.buf, old(s.p) + 4);
            r == if forall t :: t in ts ==> 0 !in t then Some(ts) else None
    ensures r.Some? ==> s.p == CheckRowArray(None, s.buf, old(s.p)).value
  {
    hide CheckRows, DecodeTexts, Ceilg, Value, SkipPadding;
    ghost var start := s.p;
    RowArrayWithin(None, s.buf, start);
    NextWord(start);
    var n := s.ReadPod(4);
    r := ReadTexts(s, n);
    if r.Some? {
      PaddingIsThere(s.buf, start, s.p, 4);
      s.ReadAlign(4);
    }
  }

  method ReadRowArray(s: RStm, ms: seq<Flat>) returns (r: Option<seq<seq<FlatVal>>>)
    requires Sound(s) && s.p % 4 == 0 && SupportedMembers(ms) && Within(CheckRowArray(Some(ms), s.buf, s.p), s.end)
    modifies s`p
    ensures var rows := DecodeRows(ms, Value(s.buf[old(s.p)..old(s.p) + 4]), s.buf, old(s.p) + 4);
            r == if RowsZeroFree(rows) then Some(rows) else None
    ensures r.Some? ==> s.p == CheckRowArray(Some(ms), s.buf, old(s.p)).value
  {
    hide CheckRows, DecodeRows, Ceilg, Value, SkipPadding, SupportedMembers, AlignOf, RowZeroFree;
    ghost var start := s.p;
    RowArrayWithin(Some(ms), s.buf, start);
    NextWord(start);
    RowsStart(ms, start);
    var n := s.ReadPod(4);
    r := ReadRows(s, ms, n, AlignOf(ms));
    if r.Some? {
      PaddingIsThere(s.buf, start, s.p, 4);
      s.ReadAlign(4);
    }
  }

  /** The elements of a checked array end before its padding. */
  lemma RowArrayWithin(ms: Option<seq<Flat>>, buf: seq<Byte>, p: nat)
    requires p <= |buf| && CheckRowArray(ms, buf, p).Some?
    ensures p + 4 <= |buf| && CheckRows(ms, Value(buf[p..p + 4]), buf, p + 4).Some?
    ensures var q := CheckRows(ms, Value(buf[p..p + 4]), buf, p + 4).value;
            q <= CheckRowArray(ms, buf, p).value == SkipPadding(buf, p, q, 4)
  {
    hide CheckRows;
  }

  lemma AllEnd(es: seq<Elem>, buf: seq<Byte>, p: nat)
    requires |buf| % 4 == 0 && p <= |buf| && es != [] && PlainElems(es) && CountsAlignedAll(es, p % 4)
    requires CheckAll(es, buf, p).Some?
    ensures ArgumentAt(es[0], p) && PlainElems(es[1..]) && CheckElem(es[0], buf, p).Some?
    ensures var q := CheckElem(es[0], buf, p).value;
            && CountsAlignedAll(es[1..], q % 4) && CheckAll(es, buf, p) == CheckAll(es[1..], buf, q)
            && DecodeAll(es, buf, p) == [DecodeElem(es[0], buf, p)] + DecodeAll(es[1..], buf, q)
  {
    hide SizeOf, CheckElem, SupportedElem, DecodeElem, Phase;
    assert es[0] in es;
    NoShortWord(buf, p, p % 4);
    ElemPhase(es[0], buf, p, p % 4);
    NoShortWord(buf, CheckElem(es[0], buf, p).value, NextOffElem(es[0], p % 4));
  }

  method ReadAll(s: RStm, es: seq<Elem>) returns (r: Option<seq<Val>>)
    requires Sound(s) && PlainElems(es) && CountsAlignedAll(es, s.p % 4) && Within(CheckAll(es, s.buf, s.p), s.end)
    modifies s`p
    ensures var vs := DecodeAll(es, s.buf, old(s.p)); r == if AllZeroFree(vs) then Some(vs) else None
    ensures r.Some? ==> s.p == CheckAll(es, s.buf, old(s.p)).value
    decreases |es|
  {
    if |es| == 0 {
      return Some([]);
    }
    AllEnd(es, s.buf, s.p);
    hide CheckElem, CheckAll, DecodeElem, DecodeAll, CountsAlignedAll, PlainElems, ZeroFree, ArgumentAt;
    var first := ReadElem(s, es[0]);
    if first.None? {
      return None;
    }
    var rest := ReadAll(s, es[1..]);
    if rest.None? {
      return None;
    }
    return Some([first.value] + rest.value);
  }

  // ------------------------------------------------------------------- a message

  /** `casymsg_begin` with the size of the values, and the writes of the values: the body, in memory that is
      cleared and rounded up to a multiple of eight, is the one that goes over the wire. */
  method WriteMessage(es: seq<Elem>, vs: seq<Val>) returns (body: array<Byte>)
    requires SupportedSignature(es) && TypedAll(es, vs) && AlignedAll(es, vs, 0)
    ensures fresh(body) && body[..] == Padded(EncodeAll(es, vs), 8)
  {
    hide EncodeAll, TypedAll, AlignedAll, Ceilg;
    var size := |EncodeAll(es, vs)|;
    ghost var whole := Padded(EncodeAll(es, vs), 8);
    body := new Byte[Ceilg(size, 8)](i => 0);
    assert body[..] == Zeros(body.Length);
    var s := new WStm(body);
    WriteAll(s, es, vs);
    assert body[..] == whole;
  }

  /** The reads of the values from any body that the validator accepted with `size`, in memory that is a
      multiple of eight: they give the values in it if and only if no text has a zero inside, else an assert fails. */
  method ReadMessage(body: seq<Byte>, size: nat, es: seq<Elem>) returns (r: Option<seq<Val>>)
    requires SupportedSignature(es) && |body| % 8 == 0 && CheckAll(es, body, 0) == Some(size)
    ensures var vs := DecodeAll(es, body, 0); r == if AllZeroFree(vs) then Some(vs) else None
  {
    hide CheckAll, DecodeAll, AllZeroFree;
    assert PlainElems(es);
    var s := new RStm(body, size);
    r := ReadAll(s, es);
  }

  /** The reads of what was written, from the memory of the message that was sent or received. */
  lemma WrittenIsRead(es: seq<Elem>, vs: seq<Val>)
    requires SupportedSignature(es) && TypedAll(es, vs) && AlignedAll(es, vs, 0)
    ensures var body := Padded(EncodeAll(es, vs), 8);
            && |body| % 8 == 0 && CheckAll(es, body, 0) == Some(|EncodeAll(es, vs)|)
            && DecodeAll(es, body, 0) == vs && AllZeroFree(vs)
  {
    hide EncodeAll, DecodeAll, CheckAll, AlignedAll, TypedAll, AllZeroFree, Ceilg;
    var body := EncodeAll(es, vs);
    CeilingOfBody(|body|);
    RoundTrip(es, vs, Zeros(Ceilg(|body|, 8) - |body|));
    TypedIsZeroFree(es, vs);
  }

  /** A body that the validator accepts and whose reader's assert fails. */
  lemma ZeroInsideText()
    ensures var body: seq<Byte> := [3, 0, 0, 0, 97, 0, 0, 0];
            && CheckAll([One(Str)], body, 0) == Some(8)
            && DecodeAll([One(Str)], body, 0) == [OneVal(Text([97, 0]))] && !AllZeroFree([OneVal(Text([97, 0]))])
  {
    var body: seq<Byte>, es, vs := [3, 0, 0, 0, 97, 0, 0, 0], [One(Str)], [OneVal(Text([97, 0]))];
    assert Value(body[0..4]) == 3 by {
      assert body[0..4] == [3, 0, 0, 0];
      ValueOfThree();
    }
    assert CheckFlat(Str, body, 0) == Some(8);
    assert DecodeText(body, 0) == [97, 0];
    assert es[1..] == [];
    assert CheckAll([], body, 8) == Some(8) && DecodeAll([], body, 8) == [];
    assert vs[0] in vs && !ZeroFree(vs[0]) by { assert 0 in [97, 0]; }
  }

  lemma ValueOfThree()
    ensures Value([3, 0, 0, 0]) == 3
  {
    var b: seq<Byte> := [3, 0, 0, 0];
    assert b[1..] == [0, 0, 0] && b[2..] == [0, 0] && b[3..] == [0];
    assert Value([0]) == 0 && Value([0, 0]) == 0 && Value([0, 0, 0]) == 0 by {
      assert [0, 0, 0][1..] == [0, 0] && [0, 0][1..] == [0] && [0][1..] == [];
    }
  }
}
