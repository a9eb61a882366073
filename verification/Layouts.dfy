/**
 * The validator accepts exactly the bytes on which values are laid out. The layout is a relation between values and
 * bytes, where the writers are a function: the bytes of a padding are not looked at, the last padding
 * can be missing, and an empty string can be a count of zero or one terminator.
 */
module Layouts {
  import opened Bytes
  import opened Signatures
  import opened Marshalling

  /** What ends at `e` is padded up to `q`, as if it began on the grain: with any bytes, unless the buffer ends
      before. */
  ghost predicate Pads(buf: seq<Byte>, start: nat, e: nat, grain: nat, q: nat) {
    && grain > 0 && start <= e <= q <= |buf| && q < e + grain
    && ((q - start) % grain == 0 || (q == e && |buf| < start + Ceilg(e - start, grain)))
  }

  ghost predicate LaidNums(ns: seq<nat>, k: nat, buf: seq<Byte>, p: nat) {
    forall i :: 0 <= i < |ns| ==> ns[i] < Span(k) && At(buf, p + k * i, LittleEndian(ns[i], k))
  }

  /** A count of the bytes with the terminator, then the bytes and the terminator; zero for no bytes. */
  ghost predicate LaidText(s: seq<Byte>, n: nat, buf: seq<Byte>, p: nat) {
    && n < U32 && At(buf, p, LittleEndian(n, 4))
    && if n == 0 then s == [] else n == |s| + 1 && At(buf, p + 4, s + [0])
  }

  ghost predicate LaidFlat(f: Flat, v: FlatVal, buf: seq<Byte>, p: nat, q: nat) {
    match f
    case Fixed(c) =>
      var k := SizeOf(c);
      && v.Num? && v.n < Span(k) && k > 0 && p % k == 0 && q == p + k && At(buf, p, LittleEndian(v.n, k))
    case Str =>
      v.Text? && exists n: nat :: LaidText(v.s, n, buf, p) && Pads(buf, p, p + 4 + n, 4, q)
    case FixedArr(c) =>
      && v.Nums? && |v.ns| < U32 && At(buf, p, LittleEndian(|v.ns|, 4))
      && LaidNums(v.ns, SizeOf(c), buf, p + 4) && Pads(buf, p, p + 4 + SizeOf(c) * |v.ns|, 4, q)
  }

  ghost predicate LaidFlats(fs: seq<Flat>, vs: seq<FlatVal>, buf: seq<Byte>, p: nat, q: nat) {
    |fs| == |vs| &&
    if fs == [] then q == p
    else exists m: nat :: LaidFlat(fs[0], vs[0], buf, p, m) && LaidFlats(fs[1..], vs[1..], buf, m, q)
  }

  ghost predicate LaidStruct(ms: seq<Flat>, vs: seq<FlatVal>, buf: seq<Byte>, p: nat, q: nat) {
    exists e: nat ::
      LaidFlats(ms, vs, buf, p, e) && if AlignOf(ms) == 0 then q == e else Pads(buf, p, e, AlignOf(ms), q)
  }

  ghost predicate LaidRows(ms: seq<Flat>, rows: seq<seq<FlatVal>>, buf: seq<Byte>, p: nat, q: nat) {
    if rows == [] then q == p
    else exists m: nat :: LaidStruct(ms, rows[0], buf, p, m) && LaidRows(ms, rows[1..], buf, m, q)
  }

  ghost predicate LaidTexts(ts: seq<seq<Byte>>, buf: seq<Byte>, p: nat, q: nat) {
    if ts == [] then q == p
    else exists m: nat :: LaidFlat(Str, Text(ts[0]), buf, p, m) && LaidTexts(ts[1..], buf, m, q)
  }

  ghost predicate LaidElem(e: Elem, v: Val, buf: seq<Byte>, p: nat, q: nat) {
    match e
    case One(f) => v.OneVal? && LaidFlat(f, v.v, buf, p, q)
    case StrArr =>
      && v.Texts? && |v.ts| < U32 && At(buf, p, LittleEndian(|v.ts|, 4))
      && exists m: nat :: LaidTexts(v.ts, buf, p + 4, m) && Pads(buf, p, m, 4, q)
    case Struct(ms) => v.Row? && LaidStruct(ms, v.vs, buf, p, q)
    case StructArr(ms) =>
      && v.Rows? && |v.rows| < U32 && At(buf, p, LittleEndian(|v.rows|, 4))
      && exists m: nat :: LaidRows(ms, v.rows, buf, p + 4, m) && Pads(buf, p, m, 4, q)
  }

  ghost predicate LaidAll(es: seq<Elem>, vs: seq<Val>, buf: seq<Byte>, p: nat, q: nat) {
    |es| == |vs| &&
    if es == [] then q == p
    else exists m: nat :: LaidElem(es[0], vs[0], buf, p, m) && LaidAll(es[1..], vs[1..], buf, m, q)
  }

  // ------------------------------------------------------------------ integers

  lemma LaidInt(buf: seq<Byte>, p: nat, k: nat, n: nat)
    ensures n < Span(k) && At(buf, p, LittleEndian(n, k)) <==> p + k <= |buf| && Value(buf[p..p + k]) == n
  {
    if p + k <= |buf| {
      var b := buf[p..p + k];
      LittleEndianOfValue(b);
      ValueBound(b);
      if n < Span(k) {
        ValueOfLittleEndian(n, k);
      }
    }
  }

  lemma PadsAre(buf: seq<Byte>, start: nat, e: nat, grain: nat, q: nat)
    requires grain > 0 && start <= e <= |buf|
    ensures Pads(buf, start, e, grain, q) <==> q == SkipPadding(buf, start, e, grain)
  {
    var c := Ceilg(e - start, grain);
    if start + c <= |buf| {
      if Pads(buf, start, e, grain, q) {
        OneMultiple(e - start, grain, q - start, c);
      }
    } else if Pads(buf, start, e, grain, q) && (q - start) % grain == 0 {
      OneMultiple(e - start, grain, q - start, c);
    }
  }

  lemma OneMultiple(n: nat, grain: nat, a: nat, b: nat)
    requires grain > 0 && n <= a < n + grain && n <= b < n + grain && a % grain == 0 && b % grain == 0
    ensures a == b
  {
    assert a == grain * (a / grain) && b == grain * (b / grain);
    Multiples(grain, a / grain, b / grain);
    Multiples(grain, b / grain, a / grain);
  }

  // -------------------------------------------------------------- one value

  lemma {:induction false} NumsAt(buf: seq<Byte>, p: nat, k: nat, n: nat, i: nat)
    requires p + k * n <= |buf| && i < n
    ensures 0 <= k * i && p + k * i + k <= |buf|
    ensures DecodeNums(buf, p, k, n)[i] == Value(buf[p + k * i..p + k * i + k])
    decreases i
  {
    hide Value;
    assert k * n == k + k * (n - 1);
    if i > 0 {
      assert k * i == k + k * (i - 1);
      NumsAt(buf, p + k, k, n - 1, i - 1);
    } else {
      assert k * (n - 1) >= 0;
    }
  }

  lemma NumsAreLaid(ns: seq<nat>, k: nat, buf: seq<Byte>, p: nat)
    requires p + k * |ns| <= |buf|
    ensures LaidNums(ns, k, buf, p) <==> DecodeNums(buf, p, k, |ns|) == ns
  {
    hide Value, Span, LittleEndian, At, DecodeNums;
    forall i | 0 <= i < |ns|
      ensures ns[i] < Span(k) && At(buf, p + k * i, LittleEndian(ns[i], k)) <==> DecodeNums(buf, p, k, |ns|)[i] == ns[i]
    {
      NumsAt(buf, p, k, |ns|, i);
      LaidInt(buf, p + k * i, k, ns[i]);
    }
  }

  lemma TextIsLaid(s: seq<Byte>, n: nat, buf: seq<Byte>, p: nat)
    requires p <= |buf|
    ensures LaidText(s, n, buf, p) && p + 4 + n <= |buf| <==>
            && p + 4 + n <= |buf| && Value(buf[p..p + 4]) == n && CheckFlat(Str, buf, p).Some?
            && DecodeText(buf, p) == s
  {
    LaidInt(buf, p, 4, n);
    hide Value, LittleEndian, SkipPadding;
    if p + 4 + n <= |buf| && Value(buf[p..p + 4]) == n {
      if n == 0 {
        ZeroWord();
        assert buf[p + 3] == buf[p..p + 4][3];
      } else if buf[p + 4 + n - 1] == 0 {
        var text := buf[p + 4..p + 4 + n - 1];
        assert buf[p + 4..p + 4 + n] == text + [0];
        if LaidText(s, n, buf, p) {
          assert (s + [0])[..n - 1] == s && (text + [0])[..n - 1] == text;
        }
      } else if LaidText(s, n, buf, p) {
        LastByte(buf, p + 4, s + [0]);
        assert false;
      }
    }
  }

  lemma FlatIsLaid(f: Flat, v: FlatVal, buf: seq<Byte>, p: nat, q: nat)
    requires p <= |buf|
    ensures LaidFlat(f, v, buf, p, q) <==> CheckFlat(f, buf, p) == Some(q) && DecodeFlat(f, buf, p) == v
  {
    hide Value, LittleEndian, SkipPadding, Pads, At, SizeOf, Span;
    match f
    case Fixed(c) =>
      if v.Num? {
        LaidInt(buf, p, SizeOf(c), v.n);
      }
    case Str => StrIsLaid(v, buf, p, q);
    case FixedArr(c) => ArrIsLaid(c, v, buf, p, q);
  }

  lemma StrIsLaid(v: FlatVal, buf: seq<Byte>, p: nat, q: nat)
    requires p <= |buf|
    ensures LaidFlat(Str, v, buf, p, q) <==> CheckFlat(Str, buf, p) == Some(q) && DecodeFlat(Str, buf, p) == v
  {
    hide Value, SkipPadding, Pads, LaidText;
    if LaidFlat(Str, v, buf, p, q) {
      var n: nat :| LaidText(v.s, n, buf, p) && Pads(buf, p, p + 4 + n, 4, q);
      PadsFit(buf, p, p + 4 + n, 4, q);
      TextIsLaid(v.s, n, buf, p);
      PadsAre(buf, p, p + 4 + n, 4, q);
    }
    if CheckFlat(Str, buf, p) == Some(q) && DecodeFlat(Str, buf, p) == v {
      var n := Value(buf[p..p + 4]);
      TextIsLaid(v.s, n, buf, p);
      PadsAre(buf, p, p + 4 + n, 4, q);
    }
  }

  lemma PadsFit(buf: seq<Byte>, start: nat, e: nat, grain: nat, q: nat)
    requires Pads(buf, start, e, grain, q)
    ensures grain > 0 && start <= e <= q <= |buf|
  {
  }

  lemma ArrIsLaid(c: char, v: FlatVal, buf: seq<Byte>, p: nat, q: nat)
    requires p <= |buf|
    ensures LaidFlat(FixedArr(c), v, buf, p, q) <==>
            CheckFlat(FixedArr(c), buf, p) == Some(q) && DecodeFlat(FixedArr(c), buf, p) == v
  {
    hide Value, SkipPadding, Pads, LaidNums, LittleEndian, At, SizeOf, Span, DecodeNums;
    var k := SizeOf(c);
    if v.Nums? {
      var n := |v.ns|;
      LaidInt(buf, p, 4, n);
      if p + 4 + k * n <= |buf| {
        NumsAreLaid(v.ns, k, buf, p + 4);
        PadsAre(buf, p, p + 4 + k * n, 4, q);
      } else if Pads(buf, p, p + 4 + k * n, 4, q) {
        PadsFit(buf, p, p + 4 + k * n, 4, q);
        assert false;
      }
    }
  }

  // --------------------------------------------------------------- many values

  lemma {:induction false} FlatsAreLaid(fs: seq<Flat>, vs: seq<FlatVal>, buf: seq<Byte>, p: nat, q: nat)
    requires p <= |buf|
    ensures LaidFlats(fs, vs, buf, p, q) <==> CheckFlats(fs, buf, p) == Some(q) && DecodeFlats(fs, buf, p) == vs
    decreases |fs|
  {
    hide LaidFlat, CheckFlat, DecodeFlat;
    if fs != [] && vs != [] {
      forall m: nat
        ensures LaidFlat(fs[0], vs[0], buf, p, m) <==>
                CheckFlat(fs[0], buf, p) == Some(m) && DecodeFlat(fs[0], buf, p) == vs[0]
      {
        FlatIsLaid(fs[0], vs[0], buf, p, m);
      }
      var m := CheckFlat(fs[0], buf, p);
      if m.Some? {
        FlatsAreLaid(fs[1..], vs[1..], buf, m.value, q);
        assert vs == [vs[0]] + vs[1..];
      }
    }
  }

  lemma StructIsLaid(ms: seq<Flat>, vs: seq<FlatVal>, buf: seq<Byte>, p: nat, q: nat)
    requires p <= |buf|
    ensures LaidStruct(ms, vs, buf, p, q) <==> CheckStruct(ms, buf, p) == Some(q) && DecodeFlats(ms, buf, p) == vs
  {
    hide LaidFlats, CheckFlats, DecodeFlats, Pads, SkipPadding, AlignOf;
    forall e: nat
      ensures LaidFlats(ms, vs, buf, p, e) <==> CheckFlats(ms, buf, p) == Some(e) && DecodeFlats(ms, buf, p) == vs
    {
      FlatsAreLaid(ms, vs, buf, p, e);
    }
    var e := CheckFlats(ms, buf, p);
    if e.Some? && AlignOf(ms) > 0 {
      PadsAre(buf, p, e.value, AlignOf(ms), q);
    }
  }

  lemma {:induction false} RowsAreLaid(ms: seq<Flat>, rows: seq<seq<FlatVal>>, buf: seq<Byte>, p: nat, q: nat)
    requires p <= |buf|
    ensures LaidRows(ms, rows, buf, p, q) <==>
            CheckRows(Some(ms), |rows|, buf, p) == Some(q) && DecodeRows(ms, |rows|, buf, p) == rows
    decreases |rows|
  {
    hide LaidStruct, CheckFlats, SkipPadding, AlignOf, DecodeFlats;
    if rows != [] {
      forall m: nat
        ensures LaidStruct(ms, rows[0], buf, p, m) <==>
                CheckStruct(ms, buf, p) == Some(m) && DecodeFlats(ms, buf, p) == rows[0]
      {
        StructIsLaid(ms, rows[0], buf, p, m);
      }
      var m := CheckStruct(ms, buf, p);
      if m.Some? {
        RowsAreLaid(ms, rows[1..], buf, m.value, q);
        assert rows == [rows[0]] + rows[1..];
      }
    }
  }

  lemma {:induction false} TextsAreLaid(ts: seq<seq<Byte>>, buf: seq<Byte>, p: nat, q: nat)
    requires p <= |buf|
    ensures LaidTexts(ts, buf, p, q) <==>
            CheckRows(None, |ts|, buf, p) == Some(q) && DecodeTexts(|ts|, buf, p) == ts
    decreases |ts|
  {
    hide LaidFlat, CheckFlat, DecodeText;
    if ts != [] {
      forall m: nat
        ensures LaidFlat(Str, Text(ts[0]), buf, p, m) <==>
                CheckFlat(Str, buf, p) == Some(m) && DecodeText(buf, p) == ts[0]
      {
        FlatIsLaid(Str, Text(ts[0]), buf, p, m);
      }
      var m := CheckFlat(Str, buf, p);
      if m.Some? {
        TextsAreLaid(ts[1..], buf, m.value, q);
        assert ts == [ts[0]] + ts[1..];
      }
    }
  }

  lemma ElemIsLaid(e: Elem, v: Val, buf: seq<Byte>, p: nat, q: nat)
    requires p <= |buf|
    ensures LaidElem(e, v, buf, p, q) <==> CheckElem(e, buf, p) == Some(q) && DecodeElem(e, buf, p) == v
  {
    hide LaidFlat, LaidStruct, CheckFlat, CheckStruct, DecodeFlat, DecodeFlats, LaidRows, LaidTexts, CheckRows,
      DecodeRows, DecodeTexts, Pads, SkipPadding, Value, LittleEndian, At;
    match e
    case One(f) =>
      if v.OneVal? {
        FlatIsLaid(f, v.v, buf, p, q);
      }
    case Struct(ms) =>
      if v.Row? {
        StructIsLaid(ms, v.vs, buf, p, q);
      }
    case StrArr => StrArrIsLaid(v, buf, p, q);
    case StructArr(ms) => StructArrIsLaid(ms, v, buf, p, q);
  }

  lemma StrArrIsLaid(v: Val, buf: seq<Byte>, p: nat, q: nat)
    requires p <= |buf|
    ensures LaidElem(StrArr, v, buf, p, q) <==> CheckElem(StrArr, buf, p) == Some(q) && DecodeElem(StrArr, buf, p) == v
  {
    hide LaidTexts, CheckRows, DecodeTexts, Pads, SkipPadding, Value, LittleEndian, At;
    if v.Texts? {
      LaidInt(buf, p, 4, |v.ts|);
      if LaidElem(StrArr, v, buf, p, q) {
        var m: nat :| LaidTexts(v.ts, buf, p + 4, m) && Pads(buf, p, m, 4, q);
        TextsAreLaid(v.ts, buf, p + 4, m);
        PadsAre(buf, p, m, 4, q);
      }
      if CheckElem(StrArr, buf, p) == Some(q) && DecodeElem(StrArr, buf, p) == v {
        var m := CheckRows(None, |v.ts|, buf, p + 4).value;
        TextsAreLaid(v.ts, buf, p + 4, m);
        PadsAre(buf, p, m, 4, q);
      }
    }
  }

  lemma StructArrIsLaid(ms: seq<Flat>, v: Val, buf: seq<Byte>, p: nat, q: nat)
    requires p <= |buf|
    ensures LaidElem(StructArr(ms), v, buf, p, q) <==>
            CheckElem(StructArr(ms), buf, p) == Some(q) && DecodeElem(StructArr(ms), buf, p) == v
  {
    hide LaidRows, CheckRows, DecodeRows, Pads, SkipPadding, Value, LittleEndian, At;
    if v.Rows? {
      LaidInt(buf, p, 4, |v.rows|);
      if LaidElem(StructArr(ms), v, buf, p, q) {
        var m: nat :| LaidRows(ms, v.rows, buf, p + 4, m) && Pads(buf, p, m, 4, q);
        RowsAreLaid(ms, v.rows, buf, p + 4, m);
        PadsAre(buf, p, m, 4, q);
      }
      if CheckElem(StructArr(ms), buf, p) == Some(q) && DecodeElem(StructArr(ms), buf, p) == v {
        var m := CheckRows(Some(ms), |v.rows|, buf, p + 4).value;
        RowsAreLaid(ms, v.rows, buf, p + 4, m);
        PadsAre(buf, p, m, 4, q);
      }
    }
  }

  // ----------------------------------------------------------------- main result

  /** For any bytes, signature and values: the check ends at `q` and the values are those read, if and only if
      the values are laid out there up to `q`. */
  lemma {:induction false} AcceptedIsLaid(es: seq<Elem>, vs: seq<Val>, buf: seq<Byte>, p: nat, q: nat)
    requires p <= |buf|
    ensures LaidAll(es, vs, buf, p, q) <==> CheckAll(es, buf, p) == Some(q) && DecodeAll(es, buf, p) == vs
    decreases |es|
  {
    hide LaidElem, CheckElem, DecodeElem;
    if es != [] && vs != [] {
      forall m: nat
        ensures LaidElem(es[0], vs[0], buf, p, m) <==>
                CheckElem(es[0], buf, p) == Some(m) && DecodeElem(es[0], buf, p) == vs[0]
      {
        ElemIsLaid(es[0], vs[0], buf, p, m);
      }
      var m := CheckElem(es[0], buf, p);
      if m.Some? {
        AcceptedIsLaid(es[1..], vs[1..], buf, m.value, q);
        assert vs == [vs[0]] + vs[1..];
      }
    }
  }

  /** A body is refused exactly when nothing is laid out in it, whatever one takes for the values and their end. */
  lemma RefusedIsNotLaid(es: seq<Elem>, buf: seq<Byte>)
    ensures CheckAll(es, buf, 0).Some? <==> exists vs, q :: LaidAll(es, vs, buf, 0, q)
  {
    hide LaidAll, CheckAll, DecodeAll;
    forall vs, q | LaidAll(es, vs, buf, 0, q)
      ensures CheckAll(es, buf, 0).Some?
    {
      AcceptedIsLaid(es, vs, buf, 0, q);
    }
    if CheckAll(es, buf, 0).Some? {
      AcceptedIsLaid(es, DecodeAll(es, buf, 0), buf, 0, CheckAll(es, buf, 0).value);
    }
  }
}
