/**
 * Method signatures and the values they describe: how a value list is laid out
 * in a message body, and what the validator makes of any bytes.
 *
 * The signatures are those the validator handles consistently: fixed-size
 * letters, strings, arrays of fixed-size letters of at most four bytes, arrays
 * of strings, and arrays of flat structs aligned to at most four bytes.
 */
module Signatures {
  import opened Bytes

  datatype Option<T> = None | Some(value: T)

  /** What can stand in a struct: a fixed-size letter, a string, or an array of fixed-size letters. */
  datatype Flat = Fixed(c: char) | Str | FixedArr(c: char)

  datatype Elem = One(f: Flat) | StrArr | Struct(members: seq<Flat>) | StructArr(members: seq<Flat>)

  /** `casymsg_sigelement_size`: 0 for letters of compound elements and for all other letters. */
  function SizeOf(c: char): (r: nat)
    ensures r == 0 || r == 1 || r == 2 || r == 4 || r == 8
  {
    if c == 'y' || c == 'b' then 1
    else if c == 'n' || c == 'q' then 2
    else if c == 'i' || c == 'u' || c == 'h' then 4
    else if c == 'x' || c == 't' then 8
    else 0
  }

  /** The C types that docs/protocol.html gives the letters; a file descriptor is an int and a bool a byte. */
  datatype CType = UInt8 | Int8 | UInt16 | Int16 | UInt32 | Int32 | UInt64 | Int64 | Float | Double

  function BytesOf(t: CType): nat {
    match t
    case UInt8 | Int8 => 1
    case UInt16 | Int16 => 2
    case UInt32 | Int32 | Float => 4
    case UInt64 | Int64 | Double => 8
  }

  const DOCUMENTED: seq<(char, CType)> :=
    [('y', UInt8), ('c', Int8), ('q', UInt16), ('n', Int16), ('u', UInt32), ('i', Int32), ('x', UInt64), ('t', Int64),
     ('f', Float), ('d', Double), ('b', UInt8), ('h', Int32)]

  /** Of the documented letters the code knows all but c, f and d, with the sizes of their types, and no others. */
  lemma LetterSizes(c: char)
    ensures forall i :: 0 <= i < |DOCUMENTED| && DOCUMENTED[i].0 == c && c !in "cfd" ==>
              SizeOf(c) == BytesOf(DOCUMENTED[i].1)
    ensures SizeOf(c) > 0 <==> c !in "cfd" && exists i :: 0 <= i < |DOCUMENTED| && DOCUMENTED[i].0 == c
  {
    assert forall i :: 0 <= i < 12 ==> DOCUMENTED[i].0 in "ycqnuixtfdbh";
    if SizeOf(c) > 0 {
      var i := if c == 'y' then 0 else if c == 'q' then 2 else if c == 'n' then 3 else if c == 'u' then 4
               else if c == 'i' then 5 else if c == 'x' then 6 else if c == 't' then 7 else if c == 'b' then 10 else 11;
      assert DOCUMENTED[i].0 == c;
    }
  }

  // ---------------------------------------------------------------- printing

  function PrintFlat(f: Flat): (r: string)
    ensures |r| > 0
  {
    match f
    case Fixed(c) => [c]
    case Str => "s"
    case FixedArr(c) => "a" + [c]
  }

  function PrintFlats(fs: seq<Flat>): string {
    if fs == [] then "" else PrintFlat(fs[0]) + PrintFlats(fs[1..])
  }

  function PrintElem(e: Elem): (r: string)
    ensures |r| > 0
  {
    match e
    case One(f) => PrintFlat(f)
    case StrArr => "as"
    case Struct(ms) => "(" + PrintFlats(ms) + ")"
    case StructArr(ms) => "a(" + PrintFlats(ms) + ")"
  }

  function PrintAll(es: seq<Elem>): string {
    if es == [] then "" else PrintElem(es[0]) + PrintAll(es[1..])
  }

  /** The signature of an integer, an array of shorts, an array of strings, and an array of structs. */
  lemma PrintExample()
    ensures PrintAll([One(Fixed('u')), One(FixedArr('q')), StrArr, StructArr([Fixed('i'), Str])]) == "uaqasa(is)"
  {
    var es := [One(Fixed('u')), One(FixedArr('q')), StrArr, StructArr([Fixed('i'), Str])];
    assert es[1..] == [es[1], es[2], es[3]] && es[1..][1..] == [es[2], es[3]] && es[1..][1..][1..] == [es[3]];
    assert PrintFlats([Fixed('i'), Str]) == "is" by {
      assert [Fixed('i'), Str][1..] == [Str] && [Str][1..] == [];
      assert PrintFlats([Str]) == "s";
    }
    assert [es[3]][1..] == [] && PrintAll([es[3]]) == "a(is)";
    assert PrintAll([es[2], es[3]]) == "asa(is)";
    assert PrintAll([es[1], es[2], es[3]]) == "aqasa(is)";
  }

  // --------------------------------------------------------- what is supported

  predicate SupportedFlat(f: Flat) {
    match f
    case Fixed(c) => SizeOf(c) > 0
    case Str => true
    case FixedArr(c) => 0 < SizeOf(c) <= 4
  }

  predicate SupportedFlats(fs: seq<Flat>) {
    forall f :: f in fs ==> SupportedFlat(f)
  }

  function AlignOfFlat(f: Flat): (r: nat)
    ensures r <= 8
  {
    if f.Fixed? then SizeOf(f.c) else 4
  }

  function AlignOf(fs: seq<Flat>): (r: nat)
    ensures r <= 8
  {
    if fs == [] then 0
    else if AlignOf(fs[1..]) < AlignOfFlat(fs[0]) then AlignOfFlat(fs[0]) else AlignOf(fs[1..])
  }

  /** A struct is aligned like its most aligned member. */
  lemma {:induction false} AlignIsLargest(fs: seq<Flat>)
    ensures forall f :: f in fs ==> AlignOfFlat(f) <= AlignOf(fs)
    ensures fs != [] ==> exists f :: f in fs && AlignOfFlat(f) == AlignOf(fs)
  {
    if fs != [] {
      var rest := fs[1..];
      AlignIsLargest(rest);
      assert fs[0] in fs && forall f :: f in fs ==> f == fs[0] || f in rest;
      if rest == [] {
        assert AlignOf(rest) == 0;
      } else if AlignOf(fs) != AlignOfFlat(fs[0]) {
        var f :| f in rest && AlignOfFlat(f) == AlignOf(rest);
        assert f in fs;
      }
    }
  }

  /** The count of every string and array stands at a multiple of four, when the first
      of `fs` stands `off` bytes past one. */
  predicate CountsAligned(fs: seq<Flat>, off: nat) {
    fs == [] ||
    if fs[0].Fixed? then CountsAligned(fs[1..], (off + SizeOf(fs[0].c)) % 4)
    else off == 0 && CountsAligned(fs[1..], 0)
  }

  predicate SupportedMembers(ms: seq<Flat>) {
    && ms != [] && SupportedFlats(ms)
    && AlignOf(ms) <= 4 && CountsAligned(ms, 0)
  }

  predicate SupportedElem(e: Elem) {
    match e
    case One(f) => SupportedFlat(f)
    case StrArr => true
    case Struct(ms) => SupportedMembers(ms)
    case StructArr(ms) => SupportedMembers(ms)
  }

  predicate CountsAlignedAll(es: seq<Elem>, off: nat) {
    es == [] ||
    if es[0].One? && es[0].f.Fixed? then CountsAlignedAll(es[1..], (off + SizeOf(es[0].f.c)) % 4)
    else off == 0 && CountsAlignedAll(es[1..], 0)
  }

  /** The signature of a method: no struct outside an array. */
  predicate SupportedSignature(es: seq<Elem>) {
    && (forall e :: e in es ==> SupportedElem(e) && !e.Struct?)
    && CountsAlignedAll(es, 0)
  }

  // ---------------------------------------------------------- the specification

  /** Where padding ends that brings the size `q - start` to a multiple of `grain`, or `q`
      when the bytes for it are missing. */
  function SkipPadding(buf: seq<Byte>, start: nat, q: nat, grain: nat): (r: nat)
    requires start <= q <= |buf| && grain > 0
    ensures q <= r <= |buf|
  {
    var pad := Ceilg(q - start, grain) - (q - start);
    if q + pad <= |buf| then q + pad else q
  }

  function CheckFlat(f: Flat, buf: seq<Byte>, p: nat): (r: Option<nat>)
    requires p <= |buf|
    ensures r.Some? ==> p <= r.value <= |buf|
    ensures r.Some? && SupportedFlat(f) ==> p < r.value
  {
    match f
    case Fixed(c) =>
      var k := SizeOf(c);
      if p + k <= |buf| && k > 0 && p % k == 0 then Some(p + k) else None
    case Str =>
      if |buf| < p + 4 then None
      else
        var n := Value(buf[p..p + 4]);
        if |buf| < p + 4 + n || buf[p + 4 + n - 1] != 0 then None
        else Some(SkipPadding(buf, p, p + 4 + n, 4))
    case FixedArr(c) =>
      if |buf| < p + 4 then None
      else
        var n := Value(buf[p..p + 4]);
        if |buf| < p + 4 + SizeOf(c) * n then None
        else Some(SkipPadding(buf, p, p + 4 + SizeOf(c) * n, 4))
  }

  function CheckFlats(fs: seq<Flat>, buf: seq<Byte>, p: nat): (r: Option<nat>)
    requires p <= |buf|
    ensures r.Some? ==> p <= r.value <= |buf|
    ensures r.Some? && fs != [] && SupportedFlats(fs) ==> p < r.value
  {
    if fs == [] then Some(p)
    else
      var q := CheckFlat(fs[0], buf, p);
      if q.None? then None else CheckFlats(fs[1..], buf, q.value)
  }

  function CheckStruct(ms: seq<Flat>, buf: seq<Byte>, p: nat): (r: Option<nat>)
    requires p <= |buf|
    ensures r.Some? ==> p <= r.value <= |buf|
    ensures r.Some? && SupportedMembers(ms) ==> p < r.value
  {
    var q := CheckFlats(ms, buf, p);
    if q.None? || AlignOf(ms) == 0 then q else Some(SkipPadding(buf, p, q.value, AlignOf(ms)))
  }

  /** `n` structs, or `n` strings when there are no members. */
  function CheckRows(ms: Option<seq<Flat>>, n: nat, buf: seq<Byte>, p: nat): (r: Option<nat>)
    requires p <= |buf|
    ensures r.Some? ==> p <= r.value <= |buf|
  {
    if n == 0 then Some(p)
    else
      var q := if ms.Some? then CheckStruct(ms.value, buf, p) else CheckFlat(Str, buf, p);
      if q.None? then None else CheckRows(ms, n - 1, buf, q.value)
  }

  /** A count that passes is bounded by the bytes that follow it. */
  lemma {:induction false} RowsFit(ms: Option<seq<Flat>>, n: nat, buf: seq<Byte>, p: nat)
    requires (ms.Some? ==> SupportedMembers(ms.value)) && p <= |buf| && CheckRows(ms, n, buf, p).Some?
    ensures p + n <= CheckRows(ms, n, buf, p).value <= |buf|
    decreases n
  {
    hide SupportedMembers, CheckStruct, CheckFlat;
    if n > 0 {
      var q := if ms.Some? then CheckStruct(ms.value, buf, p) else CheckFlat(Str, buf, p);
      RowsFit(ms, n - 1, buf, q.value);
    }
  }

  function CheckRowArray(ms: Option<seq<Flat>>, buf: seq<Byte>, p: nat): (r: Option<nat>)
    requires p <= |buf|
    ensures r.Some? ==> p < r.value <= |buf|
  {
    if |buf| < p + 4 then None
    else
      var q := CheckRows(ms, Value(buf[p..p + 4]), buf, p + 4);
      if q.None? then None else Some(SkipPadding(buf, p, q.value, 4))
  }

  function CheckElem(e: Elem, buf: seq<Byte>, p: nat): (r: Option<nat>)
    requires p <= |buf|
    ensures r.Some? ==> p <= r.value <= |buf|
    ensures r.Some? && SupportedElem(e) ==> p < r.value
  {
    match e
    case One(f) => CheckFlat(f, buf, p)
    case StrArr => CheckRowArray(None, buf, p)
    case Struct(ms) => CheckStruct(ms, buf, p)
    case StructArr(ms) => CheckRowArray(Some(ms), buf, p)
  }

  /** Where the elements end when laid out in `buf` from `p` on; None when they are not. */
  function CheckAll(es: seq<Elem>, buf: seq<Byte>, p: nat): (r: Option<nat>)
    requires p <= |buf|
    ensures r.Some? ==> p <= r.value <= |buf|
  {
    if es == [] then Some(p)
    else
      var q := CheckElem(es[0], buf, p);
      if q.None? then None else CheckAll(es[1..], buf, q.value)
  }

  // ------------------------------------------------------ alignment of the cursor

  /** Either the cursor stands `off` bytes past a multiple of four, or the buffer ends before the next one. */
  predicate Phase(buf: seq<Byte>, p: nat, off: nat) {
    p <= |buf| && (p % 4 == off || |buf| < Ceilg(p, 4))
  }

  lemma PaddingPhase(buf: seq<Byte>, start: nat, q: nat)
    requires start <= q <= |buf| && Phase(buf, start, 0)
    ensures Phase(buf, SkipPadding(buf, start, q, 4), 0)
  {
    if start % 4 == 0 {
      PadOfMultiple(start, q - start);
    } else {
      assert Ceilg(start, 4) == Ceilg(q, 4) by { SameWord(start, q); }
      var r := SkipPadding(buf, start, q, 4);
      SameWord(start, r);
    }
  }

  lemma PadOfMultiple(start: nat, n: nat)
    requires start % 4 == 0
    ensures Ceilg(start + n, 4) == start + Ceilg(n, 4)
  {
    hide Ceilg;
    CeilingOfWord(start + n);
    CeilingOfWord(n);
  }

  lemma SameWord(p: nat, q: nat)
    requires p <= q < Ceilg(p, 4)
    ensures Ceilg(q, 4) == Ceilg(p, 4)
  {
    hide Ceilg;
    CeilingOfWord(p);
    CeilingOfWord(q);
  }

  lemma FlatPhase(f: Flat, buf: seq<Byte>, p: nat, off: nat)
    requires SupportedFlat(f) && off < 4 && Phase(buf, p, off) && (f.Fixed? || off == 0)
    requires CheckFlat(f, buf, p).Some?
    ensures Phase(buf, CheckFlat(f, buf, p).value, if f.Fixed? then (off + SizeOf(f.c)) % 4 else 0)
  {
    hide Phase, Ceilg, SkipPadding, Value, SizeOf;
    match f
    case Fixed(c) => FixedPhase(SizeOf(c), buf, p, off);
    case Str => PaddingPhase(buf, p, p + 4 + Value(buf[p..p + 4]));
    case FixedArr(c) => PaddingPhase(buf, p, p + 4 + SizeOf(c) * Value(buf[p..p + 4]));
  }

  lemma FixedPhase(k: nat, buf: seq<Byte>, p: nat, off: nat)
    requires off < 4 && Phase(buf, p, off) && p + k <= |buf|
    ensures Phase(buf, p + k, (off + k) % 4)
  {
    hide Ceilg;
    if p % 4 != off {
      SameWord(p, p + k);
    }
  }
}
