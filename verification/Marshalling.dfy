/**
 * The layout of a value list in a message body. The validator accepts what the
 * writers produce exactly when every fixed-size field falls on a multiple of its
 * size, and bytes behind the body do not change its answer.
 */
module Marshalling {
  import opened Bytes
  import opened Signatures

  datatype FlatVal = Num(n: nat) | Text(s: seq<Byte>) | Nums(ns: seq<nat>)

  datatype Val = OneVal(v: FlatVal) | Texts(ts: seq<seq<Byte>>) | Row(vs: seq<FlatVal>) | Rows(rows: seq<seq<FlatVal>>)

  const U32 := Span(4)

  // -------------------------------------------------------------------- values

  predicate IsText(s: seq<Byte>) {
    0 !in s && |s| + 1 < U32
  }

  predicate TypedFlat(f: Flat, v: FlatVal) {
    match f
    case Fixed(c) => v.Num? && v.n < Span(SizeOf(c))
    case Str => v.Text? && IsText(v.s)
    case FixedArr(c) => v.Nums? && |v.ns| < U32 && forall n :: n in v.ns ==> n < Span(SizeOf(c))
  }

  predicate TypedFlats(fs: seq<Flat>, vs: seq<FlatVal>) {
    |fs| == |vs| && forall i :: 0 <= i < |fs| ==> TypedFlat(fs[i], vs[i])
  }

  predicate TypedRows(ms: seq<Flat>, rows: seq<seq<FlatVal>>) {
    forall r :: r in rows ==> TypedFlats(ms, r)
  }

  predicate Typed(e: Elem, v: Val) {
    match e
    case One(f) => v.OneVal? && TypedFlat(f, v.v)
    case StrArr => v.Texts? && |v.ts| < U32 && forall t :: t in v.ts ==> IsText(t)
    case Struct(ms) => v.Row? && TypedFlats(ms, v.vs)
    case StructArr(ms) => v.Rows? && |v.rows| < U32 && TypedRows(ms, v.rows)
  }

  predicate TypedAll(es: seq<Elem>, vs: seq<Val>) {
    |es| == |vs| && forall i :: 0 <= i < |es| ==> Typed(es[i], vs[i])
  }

  // ------------------------------------------------------------------ encoding

  function EncodeText(s: seq<Byte>): seq<Byte> {
    if s == [] then LittleEndian(0, 4) else Padded(LittleEndian(|s| + 1, 4) + s + [0], 4)
  }

  function EncodeNums(ns: seq<nat>, k: nat): (r: seq<Byte>)
    ensures |r| == k * |ns|
  {
    if ns == [] then [] else
      assert k * |ns| == k + k * (|ns| - 1);
      LittleEndian(ns[0], k) + EncodeNums(ns[1..], k)
  }

  function EncodeFlat(f: Flat, v: FlatVal): seq<Byte>
    requires TypedFlat(f, v)
  {
    match f
    case Fixed(c) => LittleEndian(v.n, SizeOf(c))
    case Str => EncodeText(v.s)
    case FixedArr(c) => Padded(LittleEndian(|v.ns|, 4) + EncodeNums(v.ns, SizeOf(c)), 4)
  }

  function EncodeFlats(fs: seq<Flat>, vs: seq<FlatVal>): seq<Byte>
    requires TypedFlats(fs, vs)
  {
    if fs == [] then [] else
      assert TypedFlat(fs[0], vs[0]);
      EncodeFlat(fs[0], vs[0]) + EncodeFlats(fs[1..], vs[1..])
  }

  function EncodeStruct(ms: seq<Flat>, vs: seq<FlatVal>): seq<Byte>
    requires TypedFlats(ms, vs)
  {
    if AlignOf(ms) == 0 then EncodeFlats(ms, vs) else Padded(EncodeFlats(ms, vs), AlignOf(ms))
  }

  function EncodeTexts(ts: seq<seq<Byte>>): seq<Byte> {
    if ts == [] then [] else EncodeText(ts[0]) + EncodeTexts(ts[1..])
  }

  function EncodeRows(ms: seq<Flat>, rows: seq<seq<FlatVal>>): seq<Byte>
    requires TypedRows(ms, rows)
  {
    if rows == [] then [] else EncodeStruct(ms, rows[0]) + EncodeRows(ms, rows[1..])
  }

  function EncodeElem(e: Elem, v: Val): seq<Byte>
    requires Typed(e, v)
  {
    match e
    case One(f) => EncodeFlat(f, v.v)
    case StrArr => Padded(LittleEndian(|v.ts|, 4) + EncodeTexts(v.ts), 4)
    case Struct(ms) => EncodeStruct(ms, v.vs)
    case StructArr(ms) => Padded(LittleEndian(|v.rows|, 4) + EncodeRows(ms, v.rows), 4)
  }

  function EncodeAll(es: seq<Elem>, vs: seq<Val>): seq<Byte>
    requires TypedAll(es, vs)
  {
    if es == [] then [] else
      assert Typed(es[0], vs[0]);
      EncodeElem(es[0], vs[0]) + EncodeAll(es[1..], vs[1..])
  }

  // ----------------------------------------------------------------- alignment

  /** A fixed-size field at `p` is at a multiple of its size. */
  predicate OnGrain(f: Flat, p: nat) {
    f.Fixed? ==> SizeOf(f.c) > 0 && p % SizeOf(f.c) == 0
  }

  predicate AlignedFlats(fs: seq<Flat>, vs: seq<FlatVal>, p: nat)
    requires TypedFlats(fs, vs)
  {
    fs == [] ||
    (assert TypedFlat(fs[0], vs[0]);
     OnGrain(fs[0], p)
     && AlignedFlats(fs[1..], vs[1..], p + |EncodeFlat(fs[0], vs[0])|))
  }

  predicate AlignedRows(ms: seq<Flat>, rows: seq<seq<FlatVal>>, p: nat)
    requires TypedRows(ms, rows)
  {
    rows == [] ||
    (AlignedFlats(ms, rows[0], p) && AlignedRows(ms, rows[1..], p + |EncodeStruct(ms, rows[0])|))
  }

  predicate AlignedElem(e: Elem, v: Val, p: nat)
    requires Typed(e, v)
  {
    match e
    case One(f) => AlignedFlats([f], [v.v], p)
    case StrArr => true
    case Struct(ms) => AlignedFlats(ms, v.vs, p)
    case StructArr(ms) => AlignedRows(ms, v.rows, p + 4)
  }

  /** Every fixed-size field of the values laid out from `p` on is at a multiple of its size. */
  predicate AlignedAll(es: seq<Elem>, vs: seq<Val>, p: nat)
    requires TypedAll(es, vs)
  {
    es == [] ||
    (assert Typed(es[0], vs[0]);
     AlignedElem(es[0], vs[0], p) && AlignedAll(es[1..], vs[1..], p + |EncodeElem(es[0], vs[0])|))
  }

  lemma TextSize(s: seq<Byte>)
    ensures |EncodeText(s)| % 4 == 0 && 4 <= |EncodeText(s)|
  {
  }

  lemma AcceptNoText(buf: seq<Byte>, p: nat)
    requires At(buf, p, EncodeText([]))
    ensures p <= |buf| && CheckFlat(Str, buf, p) == Some(p + |EncodeText([])|)
  {
    ZeroWord();
    ValueOfLittleEndian(0, 4);
    assert buf[p + 3] == buf[p..p + 4][3];
  }

  lemma PaddingPresent(buf: seq<Byte>, p: nat, n: nat, grain: nat)
    requires grain > 0 && p + Ceilg(n, grain) <= |buf|
    ensures SkipPadding(buf, p, p + n, grain) == p + Ceilg(n, grain)
  {
    hide Ceilg;
  }

  lemma TextLayout(s: seq<Byte>)
    requires s != []
    ensures |EncodeText(s)| == Ceilg(4 + |s| + 1, 4)
    ensures EncodeText(s) == LittleEndian(|s| + 1, 4) + (s + [0] + Zeros(|EncodeText(s)| - (4 + |s| + 1)))
  {
    hide Ceilg, LittleEndian;
    var head := LittleEndian(|s| + 1, 4);
    assert head + s + [0] == head + (s + [0]);
  }

  lemma AcceptText(s: seq<Byte>, buf: seq<Byte>, p: nat)
    requires IsText(s) && At(buf, p, EncodeText(s))
    ensures p <= |buf| && CheckFlat(Str, buf, p) == Some(p + |EncodeText(s)|)
  {
    hide At, SkipPadding, EncodeText, Ceilg, LittleEndian;
    if s == [] {
      AcceptNoText(buf, p);
    } else {
      var n := |s| + 1;
      TextLayout(s);
      var head, body, pad := LittleEndian(n, 4), s + [0], Zeros(|EncodeText(s)| - (4 + n));
      ValueOfLittleEndian(n, 4);
      AtSplit(buf, p, head, body + pad);
      AtBytes(buf, p, head);
      AtSplit(buf, p + 4, body, pad);
      AtBytes(buf, p + 4, body);
      LastByte(buf, p + 4, body);
      PaddingPresent(buf, p, 4 + n, 4);
    }
  }

  lemma LastByte(buf: seq<Byte>, p: nat, b: seq<Byte>)
    requires p + |b| <= |buf| && buf[p..p + |b|] == b && b != []
    ensures buf[p + |b| - 1] == b[|b| - 1]
  {
    assert buf[p + |b| - 1] == buf[p..p + |b|][|b| - 1];
  }

  lemma ZeroWord()
    ensures LittleEndian(0, 4) == [0, 0, 0, 0]
  {
    assert LittleEndian(0, 0) == [];
    assert LittleEndian(0, 1) == [0];
    assert LittleEndian(0, 2) == [0, 0];
    assert LittleEndian(0, 3) == [0, 0, 0];
  }

  /** An empty string is a zero count and nothing else. */
  lemma EmptyText()
    ensures EncodeText([]) == [0, 0, 0, 0]
  {
    ZeroWord();
  }

  lemma ArrayLayout(c: char, ns: seq<nat>)
    requires TypedFlat(FixedArr(c), Nums(ns))
    ensures var b, k := EncodeFlat(FixedArr(c), Nums(ns)), SizeOf(c);
            && |b| == Ceilg(4 + k * |ns|, 4)
            && b == LittleEndian(|ns|, 4) + (EncodeNums(ns, k) + Zeros(|b| - (4 + k * |ns|)))
  {
    hide Ceilg, LittleEndian, EncodeNums, SizeOf;
  }

  lemma AcceptFixedArr(c: char, ns: seq<nat>, buf: seq<Byte>, p: nat)
    requires 0 < SizeOf(c) && TypedFlat(FixedArr(c), Nums(ns)) && At(buf, p, EncodeFlat(FixedArr(c), Nums(ns)))
    ensures p <= |buf| && CheckFlat(FixedArr(c), buf, p) == Some(p + |EncodeFlat(FixedArr(c), Nums(ns))|)
  {
    hide At, SkipPadding, EncodeFlat, Ceilg, LittleEndian, EncodeNums, SizeOf;
    var k := SizeOf(c);
    var all, head, body := EncodeFlat(FixedArr(c), Nums(ns)), LittleEndian(|ns|, 4), EncodeNums(ns, SizeOf(c));
    ArrayLayout(c, ns);
    var pad := Zeros(|all| - (4 + k * |ns|));
    ValueOfLittleEndian(|ns|, 4);
    AtBytes(buf, p, all);
    AtSplit(buf, p, head, body + pad);
    AtBytes(buf, p, head);
    PaddingPresent(buf, p, 4 + k * |ns|, 4);
  }

  lemma AcceptFlat(f: Flat, v: FlatVal, buf: seq<Byte>, p: nat)
    requires SupportedFlat(f) && TypedFlat(f, v) && At(buf, p, EncodeFlat(f, v))
    ensures CheckFlat(f, buf, p)
         == if OnGrain(f, p) then Some(p + |EncodeFlat(f, v)|) else None
  {
    match f
    case Fixed(c) =>
    case Str => AcceptText(v.s, buf, p);
    case FixedArr(c) => AcceptFixedArr(c, v.ns, buf, p);
  }

  lemma FlatsUnfold(fs: seq<Flat>, vs: seq<FlatVal>, buf: seq<Byte>, p: nat)
    requires TypedFlats(fs, vs) && SupportedFlats(fs) && p <= |buf|
    ensures |fs| == |vs|
    ensures fs == [] ==> AlignedFlats(fs, vs, p) && EncodeFlats(fs, vs) == [] && CheckFlats(fs, buf, p) == Some(p)
    ensures fs != [] ==>
      && TypedFlat(fs[0], vs[0]) && TypedFlats(fs[1..], vs[1..])
      && SupportedFlat(fs[0]) && SupportedFlats(fs[1..])
      && EncodeFlats(fs, vs) == EncodeFlat(fs[0], vs[0]) + EncodeFlats(fs[1..], vs[1..])
      && (AlignedFlats(fs, vs, p) <==>
          OnGrain(fs[0], p) && AlignedFlats(fs[1..], vs[1..], p + |EncodeFlat(fs[0], vs[0])|))
  {
    if fs != [] {
      assert TypedFlat(fs[0], vs[0]);
    }
  }

  lemma CheckFirst(fs: seq<Flat>, buf: seq<Byte>, p: nat, q: Option<nat>)
    requires fs != [] && p <= |buf| && CheckFlat(fs[0], buf, p) == q
    ensures q.None? ==> CheckFlats(fs, buf, p) == None
    ensures q.Some? ==> CheckFlats(fs, buf, p) == CheckFlats(fs[1..], buf, q.value)
  {
  }

  lemma {:induction false} AcceptFlats(fs: seq<Flat>, vs: seq<FlatVal>, buf: seq<Byte>, p: nat)
    requires SupportedFlats(fs) && TypedFlats(fs, vs) && At(buf, p, EncodeFlats(fs, vs))
    ensures p <= |buf|
    ensures CheckFlats(fs, buf, p) == if AlignedFlats(fs, vs, p) then Some(p + |EncodeFlats(fs, vs)|) else None
    decreases |fs|
  {
    hide At, SupportedFlat, SupportedFlats, CheckFlat, CheckFlats, EncodeFlat, EncodeFlats, TypedFlats, TypedFlat,
      AlignedFlats, OnGrain;
    AtBytes(buf, p, EncodeFlats(fs, vs));
    FlatsUnfold(fs, vs, buf, p);
    if fs != [] {
      AtSplit(buf, p, EncodeFlat(fs[0], vs[0]), EncodeFlats(fs[1..], vs[1..]));
      AcceptFlat(fs[0], vs[0], buf, p);
      var next := p + |EncodeFlat(fs[0], vs[0])|;
      if OnGrain(fs[0], p) {
        CheckFirst(fs, buf, p, Some(next));
        AcceptFlats(fs[1..], vs[1..], buf, next);
      } else {
        CheckFirst(fs, buf, p, None);
      }
    }
  }

  lemma AcceptStruct(ms: seq<Flat>, vs: seq<FlatVal>, buf: seq<Byte>, p: nat)
    requires SupportedMembers(ms) && TypedFlats(ms, vs) && At(buf, p, EncodeStruct(ms, vs))
    ensures p <= |buf|
    ensures CheckStruct(ms, buf, p) == if AlignedFlats(ms, vs, p) then Some(p + |EncodeStruct(ms, vs)|) else None
  {
    hide At, SupportedFlat, CheckFlats, EncodeFlats, TypedFlats, AlignedFlats, AlignOf;
    var body := EncodeFlats(ms, vs);
    var pad := Zeros(|EncodeStruct(ms, vs)| - |body|);
    assert EncodeStruct(ms, vs) == body + pad;
    AtSplit(buf, p, body, pad);
    AcceptFlats(ms, vs, buf, p);
  }

  lemma RowsUnfold(ms: seq<Flat>, rows: seq<seq<FlatVal>>, buf: seq<Byte>, p: nat)
    requires TypedRows(ms, rows) && p <= |buf|
    ensures rows == [] ==>
      AlignedRows(ms, rows, p) && EncodeRows(ms, rows) == [] && CheckRows(Some(ms), 0, buf, p) == Some(p)
    ensures rows != [] ==>
      && TypedFlats(ms, rows[0]) && TypedRows(ms, rows[1..])
      && EncodeRows(ms, rows) == EncodeStruct(ms, rows[0]) + EncodeRows(ms, rows[1..])
      && (AlignedRows(ms, rows, p) <==>
          AlignedFlats(ms, rows[0], p) && AlignedRows(ms, rows[1..], p + |EncodeStruct(ms, rows[0])|))
      && var q := CheckStruct(ms, buf, p);
         CheckRows(Some(ms), |rows|, buf, p) == if q.None? then None else CheckRows(Some(ms), |rows[1..]|, buf, q.value)
  {
  }

  lemma {:induction false} AcceptRows(ms: seq<Flat>, rows: seq<seq<FlatVal>>, buf: seq<Byte>, p: nat)
    requires SupportedMembers(ms) && TypedRows(ms, rows)
    requires At(buf, p, EncodeRows(ms, rows))
    ensures p <= |buf|
    ensures CheckRows(Some(ms), |rows|, buf, p)
         == if AlignedRows(ms, rows, p) then Some(p + |EncodeRows(ms, rows)|) else None
    decreases |rows|
  {
    hide At, SupportedMembers, CheckStruct, CheckRows, EncodeStruct, EncodeRows, TypedFlats, TypedRows, AlignedFlats,
      AlignedRows;
    AtBytes(buf, p, EncodeRows(ms, rows));
    RowsUnfold(ms, rows, buf, p);
    if rows != [] {
      AtSplit(buf, p, EncodeStruct(ms, rows[0]), EncodeRows(ms, rows[1..]));
      AcceptStruct(ms, rows[0], buf, p);
      AcceptRows(ms, rows[1..], buf, p + |EncodeStruct(ms, rows[0])|);
    }
  }

  lemma {:induction false} AcceptTexts(ts: seq<seq<Byte>>, buf: seq<Byte>, p: nat)
    requires (forall t :: t in ts ==> IsText(t)) && At(buf, p, EncodeTexts(ts))
    ensures p <= |buf|
    ensures CheckRows(None, |ts|, buf, p) == Some(p + |EncodeTexts(ts)|)
    decreases |ts|
  {
    hide At, CheckFlat, EncodeText, IsText;
    AtBytes(buf, p, EncodeTexts(ts));
    if ts != [] {
      AtSplit(buf, p, EncodeText(ts[0]), EncodeTexts(ts[1..]));
      AcceptText(ts[0], buf, p);
      AcceptTexts(ts[1..], buf, p + |EncodeText(ts[0])|);
    }
  }

  /** An array of strings or structs: the count, the rows, and padding to four bytes. */
  lemma AcceptRowArray(ms: Option<seq<Flat>>, n: nat, body: seq<Byte>, aligned: bool, buf: seq<Byte>, p: nat)
    requires n < U32 && At(buf, p, Padded(LittleEndian(n, 4) + body, 4))
    requires At(buf, p + 4, body) ==>
      p + 4 <= |buf| && CheckRows(ms, n, buf, p + 4) == if aligned then Some(p + 4 + |body|) else None
    ensures p <= |buf|
    ensures CheckRowArray(ms, buf, p)
         == if aligned then Some(p + |Padded(LittleEndian(n, 4) + body, 4)|) else None
  {
    hide At, CheckRows;
    var head := LittleEndian(n, 4);
    var all := Padded(head + body, 4);
    var pad := Zeros(|all| - |head + body|);
    ValueOfLittleEndian(n, 4);
    assert all == head + (body + pad);
    AtSplit(buf, p, head, body + pad);
    AtBytes(buf, p, head);
    AtSplit(buf, p + 4, body, pad);
  }

  lemma AcceptElem(e: Elem, v: Val, buf: seq<Byte>, p: nat)
    requires SupportedElem(e) && Typed(e, v) && At(buf, p, EncodeElem(e, v))
    ensures p <= |buf|
    ensures CheckElem(e, buf, p) == if AlignedElem(e, v, p) then Some(p + |EncodeElem(e, v)|) else None
  {
    hide At, SupportedMembers, EncodeFlat, EncodeStruct, EncodeRows, EncodeTexts, TypedFlat, TypedFlats, TypedRows,
      CheckFlat, CheckStruct, CheckRowArray, AlignedFlats, AlignedRows;
    match e
    case One(f) => AcceptOne(f, v.v, buf, p);
    case Struct(ms) => AcceptStruct(ms, v.vs, buf, p);
    case StrArr => AcceptStrArr(v.ts, buf, p);
    case StructArr(ms) => AcceptStructArr(ms, v.rows, buf, p);
  }

  lemma AcceptOne(f: Flat, v: FlatVal, buf: seq<Byte>, p: nat)
    requires SupportedFlat(f) && TypedFlat(f, v) && At(buf, p, EncodeFlat(f, v))
    ensures p <= |buf|
    ensures CheckFlat(f, buf, p) == if AlignedFlats([f], [v], p) then Some(p + |EncodeFlat(f, v)|) else None
  {
    AcceptFlat(f, v, buf, p);
    assert [f][1..] == [] && [v][1..] == [];
    assert AlignedFlats([], [], p + |EncodeFlat(f, v)|);
  }

  lemma AcceptStrArr(ts: seq<seq<Byte>>, buf: seq<Byte>, p: nat)
    requires Typed(StrArr, Texts(ts)) && At(buf, p, EncodeElem(StrArr, Texts(ts)))
    ensures p <= |buf|
    ensures CheckElem(StrArr, buf, p) == Some(p + |EncodeElem(StrArr, Texts(ts))|)
  {
    hide At, CheckRows, CheckRowArray, EncodeTexts;
    if At(buf, p + 4, EncodeTexts(ts)) {
      AcceptTexts(ts, buf, p + 4);
    }
    AcceptRowArray(None, |ts|, EncodeTexts(ts), true, buf, p);
  }

  lemma AcceptStructArr(ms: seq<Flat>, rows: seq<seq<FlatVal>>, buf: seq<Byte>, p: nat)
    requires SupportedMembers(ms) && Typed(StructArr(ms), Rows(rows))
    requires At(buf, p, EncodeElem(StructArr(ms), Rows(rows)))
    ensures p <= |buf|
    ensures CheckElem(StructArr(ms), buf, p)
         == if AlignedRows(ms, rows, p + 4) then Some(p + |EncodeElem(StructArr(ms), Rows(rows))|) else None
  {
    hide At, CheckRows, CheckRowArray, EncodeRows, AlignedRows, SupportedMembers, TypedRows;
    if At(buf, p + 4, EncodeRows(ms, rows)) {
      AcceptRows(ms, rows, buf, p + 4);
    }
    AcceptRowArray(Some(ms), |rows|, EncodeRows(ms, rows), AlignedRows(ms, rows, p + 4), buf, p);
  }

  /** The validator's answer for values laid out at `p` with any bytes before and behind them. */
  lemma {:induction false} AcceptAll(es: seq<Elem>, vs: seq<Val>, buf: seq<Byte>, p: nat)
    requires (forall e :: e in es ==> SupportedElem(e)) && TypedAll(es, vs) && At(buf, p, EncodeAll(es, vs))
    ensures p <= |buf|
    ensures CheckAll(es, buf, p) == if AlignedAll(es, vs, p) then Some(p + |EncodeAll(es, vs)|) else None
    decreases |es|
  {
    hide At, SupportedElem, CheckElem, EncodeElem, Typed, AlignedElem;
    AtBytes(buf, p, EncodeAll(es, vs));
    if es != [] {
      assert Typed(es[0], vs[0]) && SupportedElem(es[0]);
      AtSplit(buf, p, EncodeElem(es[0], vs[0]), EncodeAll(es[1..], vs[1..]));
      AcceptElem(es[0], vs[0], buf, p);
      AcceptAll(es[1..], vs[1..], buf, p + |EncodeElem(es[0], vs[0])|);
    }
  }

  // ------------------------------------------------------------------- decoding

  function DecodeText(buf: seq<Byte>, p: nat): seq<Byte>
    requires p <= |buf| && CheckFlat(Str, buf, p).Some?
  {
    var n := Value(buf[p..p + 4]);
    if n == 0 then [] else buf[p + 4..p + 4 + n - 1]
  }

  /** The `n` integers of `k` bytes that start at `p`. */
  function DecodeNums(buf: seq<Byte>, p: nat, k: nat, n: nat): (r: seq<nat>)
    requires p + k * n <= |buf|
    ensures |r| == n
    decreases n
  {
    if n == 0 then [] else
      assert k * n == k + k * (n - 1);
      [Value(buf[p..p + k])] + DecodeNums(buf, p + k, k, n - 1)
  }

  function DecodeFlat(f: Flat, buf: seq<Byte>, p: nat): FlatVal
    requires p <= |buf| && CheckFlat(f, buf, p).Some?
  {
    match f
    case Fixed(c) => Num(Value(buf[p..p + SizeOf(c)]))
    case Str => Text(DecodeText(buf, p))
    case FixedArr(c) => Nums(DecodeNums(buf, p + 4, SizeOf(c), Value(buf[p..p + 4])))
  }

  function DecodeFlats(fs: seq<Flat>, buf: seq<Byte>, p: nat): seq<FlatVal>
    requires p <= |buf| && CheckFlats(fs, buf, p).Some?
  {
    if fs == [] then []
    else [DecodeFlat(fs[0], buf, p)] + DecodeFlats(fs[1..], buf, CheckFlat(fs[0], buf, p).value)
  }

  function DecodeRows(ms: seq<Flat>, n: nat, buf: seq<Byte>, p: nat): (r: seq<seq<FlatVal>>)
    requires p <= |buf| && CheckRows(Some(ms), n, buf, p).Some?
    ensures |r| == n
  {
    if n == 0 then []
    else [DecodeFlats(ms, buf, p)] + DecodeRows(ms, n - 1, buf, CheckStruct(ms, buf, p).value)
  }

  function DecodeTexts(n: nat, buf: seq<Byte>, p: nat): (r: seq<seq<Byte>>)
    requires p <= |buf| && CheckRows(None, n, buf, p).Some?
    ensures |r| == n
  {
    if n == 0 then []
    else [DecodeText(buf, p)] + DecodeTexts(n - 1, buf, CheckFlat(Str, buf, p).value)
  }

  function DecodeElem(e: Elem, buf: seq<Byte>, p: nat): Val
    requires p <= |buf| && CheckElem(e, buf, p).Some?
  {
    match e
    case One(f) => OneVal(DecodeFlat(f, buf, p))
    case StrArr => Texts(DecodeTexts(Value(buf[p..p + 4]), buf, p + 4))
    case Struct(ms) => Row(DecodeFlats(ms, buf, p))
    case StructArr(ms) => Rows(DecodeRows(ms, Value(buf[p..p + 4]), buf, p + 4))
  }

  /** The values in a body that the validator accepts. */
  function DecodeAll(es: seq<Elem>, buf: seq<Byte>, p: nat): seq<Val>
    requires p <= |buf| && CheckAll(es, buf, p).Some?
  {
    if es == [] then []
    else [DecodeElem(es[0], buf, p)] + DecodeAll(es[1..], buf, CheckElem(es[0], buf, p).value)
  }

  lemma RecoverText(s: seq<Byte>, buf: seq<Byte>, p: nat)
    requires IsText(s) && At(buf, p, EncodeText(s)) && p <= |buf| && CheckFlat(Str, buf, p).Some?
    ensures DecodeText(buf, p) == s
  {
    var n := if s == [] then 0 else |s| + 1;
    var body := if s == [] then [] else s + [0];
    var head := LittleEndian(n, 4);
    var pad := Zeros(|EncodeText(s)| - |head + body|);
    ValueOfLittleEndian(n, 4);
    assert EncodeText(s) == head + (body + pad);
    AtSplit(buf, p, head, body + pad);
    AtBytes(buf, p, head);
    AtSplit(buf, p + 4, body, pad);
    AtBytes(buf, p + 4, body);
    if s != [] {
      assert buf[p + 4..p + 4 + n - 1] == buf[p + 4..p + 4 + n][..n - 1] == body[..n - 1];
    }
  }

  lemma {:induction false} RecoverNums(ns: seq<nat>, k: nat, buf: seq<Byte>, p: nat)
    requires (forall n :: n in ns ==> n < Span(k)) && At(buf, p, EncodeNums(ns, k)) && p + k * |ns| <= |buf|
    ensures DecodeNums(buf, p, k, |ns|) == ns
    decreases |ns|
  {
    hide At, Value, LittleEndian, Span;
    if ns != [] {
      assert k * |ns| == k + k * (|ns| - 1);
      AtSplit(buf, p, LittleEndian(ns[0], k), EncodeNums(ns[1..], k));
      AtBytes(buf, p, LittleEndian(ns[0], k));
      assert ns[0] in ns && forall n :: n in ns[1..] ==> n in ns;
      ValueOfLittleEndian(ns[0], k);
      RecoverNums(ns[1..], k, buf, p + k);
    }
  }

  lemma RecoverArray(ns: seq<nat>, k: nat, buf: seq<Byte>, p: nat)
    requires |ns| < U32 && (forall n :: n in ns ==> n < Span(k))
    requires At(buf, p, Padded(LittleEndian(|ns|, 4) + EncodeNums(ns, k), 4))
    ensures p + 4 + k * |ns| <= |buf| && Value(buf[p..p + 4]) == |ns| && DecodeNums(buf, p + 4, k, |ns|) == ns
  {
    hide LittleEndian, EncodeNums, DecodeNums, Span, Value, Ceilg;
    RowArrayParts(|ns|, EncodeNums(ns, k), buf, p);
    RecoverNums(ns, k, buf, p + 4);
  }

  lemma RecoverFlat(f: Flat, v: FlatVal, buf: seq<Byte>, p: nat)
    requires TypedFlat(f, v) && At(buf, p, EncodeFlat(f, v))
    requires p <= |buf| && CheckFlat(f, buf, p).Some?
    ensures DecodeFlat(f, buf, p) == v
  {
    hide At, SizeOf, LittleEndian, Span, EncodeText, DecodeText, EncodeNums, DecodeNums, Value, Ceilg;
    match f
    case Fixed(c) =>
      AtBytes(buf, p, LittleEndian(v.n, SizeOf(c)));
      ValueOfLittleEndian(v.n, SizeOf(c));
    case Str => RecoverText(v.s, buf, p);
    case FixedArr(c) =>
      RecoverArray(v.ns, SizeOf(c), buf, p);
  }

  lemma {:induction false} RecoverFlats(fs: seq<Flat>, vs: seq<FlatVal>, buf: seq<Byte>, p: nat)
    requires SupportedFlats(fs) && TypedFlats(fs, vs) && At(buf, p, EncodeFlats(fs, vs))
    requires p <= |buf| && CheckFlats(fs, buf, p).Some?
    ensures DecodeFlats(fs, buf, p) == vs
    decreases |fs|
  {
    hide At, SupportedFlat, SupportedFlats, CheckFlat, EncodeFlat, EncodeFlats, TypedFlats, TypedFlat, AlignedFlats,
      OnGrain, DecodeFlat;
    FlatsUnfold(fs, vs, buf, p);
    if fs != [] {
      AtSplit(buf, p, EncodeFlat(fs[0], vs[0]), EncodeFlats(fs[1..], vs[1..]));
      AcceptFlat(fs[0], vs[0], buf, p);
      RecoverFlat(fs[0], vs[0], buf, p);
      RecoverFlats(fs[1..], vs[1..], buf, p + |EncodeFlat(fs[0], vs[0])|);
      assert vs == [vs[0]] + vs[1..];
    }
  }

  lemma RecoverStruct(ms: seq<Flat>, vs: seq<FlatVal>, buf: seq<Byte>, p: nat)
    requires SupportedMembers(ms) && TypedFlats(ms, vs) && At(buf, p, EncodeStruct(ms, vs))
    requires p <= |buf| && CheckFlats(ms, buf, p).Some?
    ensures DecodeFlats(ms, buf, p) == vs
  {
    hide At, CheckFlats, EncodeFlats, DecodeFlats, TypedFlats, AlignOf;
    var body := EncodeFlats(ms, vs);
    var pad := Zeros(|EncodeStruct(ms, vs)| - |body|);
    assert EncodeStruct(ms, vs) == body + pad;
    AtSplit(buf, p, body, pad);
    RecoverFlats(ms, vs, buf, p);
  }

  lemma {:induction false} RecoverRows(ms: seq<Flat>, rows: seq<seq<FlatVal>>, buf: seq<Byte>, p: nat)
    requires SupportedMembers(ms) && TypedRows(ms, rows) && At(buf, p, EncodeRows(ms, rows))
    requires p <= |buf| && CheckRows(Some(ms), |rows|, buf, p).Some?
    ensures DecodeRows(ms, |rows|, buf, p) == rows
    decreases |rows|
  {
    hide At, SupportedMembers, CheckFlat, CheckFlats, EncodeStruct, EncodeRows, TypedFlats, TypedRows, AlignedFlats,
      AlignedRows, DecodeFlats;
    RowsUnfold(ms, rows, buf, p);
    if rows != [] {
      AtSplit(buf, p, EncodeStruct(ms, rows[0]), EncodeRows(ms, rows[1..]));
      AcceptStruct(ms, rows[0], buf, p);
      RecoverStruct(ms, rows[0], buf, p);
      RecoverRows(ms, rows[1..], buf, p + |EncodeStruct(ms, rows[0])|);
      assert rows == [rows[0]] + rows[1..];
    }
  }

  lemma {:induction false} RecoverTexts(ts: seq<seq<Byte>>, buf: seq<Byte>, p: nat)
    requires (forall t :: t in ts ==> IsText(t)) && At(buf, p, EncodeTexts(ts))
    requires p <= |buf| && CheckRows(None, |ts|, buf, p).Some?
    ensures DecodeTexts(|ts|, buf, p) == ts
    decreases |ts|
  {
    hide At, CheckFlat, EncodeText, IsText, DecodeText;
    if ts != [] {
      AtSplit(buf, p, EncodeText(ts[0]), EncodeTexts(ts[1..]));
      AcceptText(ts[0], buf, p);
      RecoverText(ts[0], buf, p);
      RecoverTexts(ts[1..], buf, p + |EncodeText(ts[0])|);
      assert ts == [ts[0]] + ts[1..];
    }
  }

  lemma RowArrayParts(n: nat, body: seq<Byte>, buf: seq<Byte>, p: nat)
    requires n < U32 && At(buf, p, Padded(LittleEndian(n, 4) + body, 4))
    ensures p + 4 <= |buf| && Value(buf[p..p + 4]) == n && At(buf, p + 4, body)
  {
    hide At;
    var head := LittleEndian(n, 4);
    var all := Padded(head + body, 4);
    var pad := Zeros(|all| - |head + body|);
    ValueOfLittleEndian(n, 4);
    assert all == head + (body + pad);
    AtSplit(buf, p, head, body + pad);
    AtBytes(buf, p, head);
    AtSplit(buf, p + 4, body, pad);
  }

  lemma RecoverElem(e: Elem, v: Val, buf: seq<Byte>, p: nat)
    requires SupportedElem(e) && Typed(e, v) && At(buf, p, EncodeElem(e, v))
    requires p <= |buf| && CheckElem(e, buf, p).Some?
    ensures DecodeElem(e, buf, p) == v
  {
    hide At, EncodeFlat, EncodeStruct, EncodeRows, EncodeTexts, TypedFlat, TypedFlats, TypedRows, CheckFlat,
      CheckFlats, CheckRows, DecodeFlat, DecodeFlats, DecodeRows, DecodeTexts, SupportedMembers, AlignOf;
    match e
    case One(f) => RecoverFlat(f, v.v, buf, p);
    case Struct(ms) => RecoverStruct(ms, v.vs, buf, p);
    case StrArr =>
      RowArrayParts(|v.ts|, EncodeTexts(v.ts), buf, p);
      RecoverTexts(v.ts, buf, p + 4);
    case StructArr(ms) =>
      RowArrayParts(|v.rows|, EncodeRows(ms, v.rows), buf, p);
      RecoverRows(ms, v.rows, buf, p + 4);
  }

  /** Reading back what was written gives the same values. */
  lemma {:induction false} RecoverAll(es: seq<Elem>, vs: seq<Val>, buf: seq<Byte>, p: nat)
    requires (forall e :: e in es ==> SupportedElem(e)) && TypedAll(es, vs) && At(buf, p, EncodeAll(es, vs))
    requires p <= |buf| && CheckAll(es, buf, p).Some?
    ensures DecodeAll(es, buf, p) == vs
    decreases |es|
  {
    hide At, SupportedElem, CheckElem, EncodeElem, Typed, AlignedElem, DecodeElem;
    if es != [] {
      assert Typed(es[0], vs[0]) && SupportedElem(es[0]);
      AtSplit(buf, p, EncodeElem(es[0], vs[0]), EncodeAll(es[1..], vs[1..]));
      AcceptElem(es[0], vs[0], buf, p);
      RecoverElem(es[0], vs[0], buf, p);
      RecoverAll(es[1..], vs[1..], buf, p + |EncodeElem(es[0], vs[0])|);
      assert vs == [vs[0]] + vs[1..];
    }
  }

  // -------------------------------------------------------------- texts as strings

  /** No text has a zero inside, so each is the C string that its reader returns. */
  predicate FlatZeroFree(v: FlatVal) {
    v.Text? ==> 0 !in v.s
  }

  predicate RowZeroFree(vs: seq<FlatVal>) {
    forall v :: v in vs ==> FlatZeroFree(v)
  }

  predicate RowsZeroFree(rows: seq<seq<FlatVal>>) {
    forall r :: r in rows ==> RowZeroFree(r)
  }

  predicate ZeroFree(v: Val) {
    match v
    case OneVal(x) => FlatZeroFree(x)
    case Texts(ts) => forall t :: t in ts ==> 0 !in t
    case Row(vs) => RowZeroFree(vs)
    case Rows(rows) => RowsZeroFree(rows)
  }

  predicate AllZeroFree(vs: seq<Val>) {
    forall v :: v in vs ==> ZeroFree(v)
  }

  /** Values that a writer takes are read as C strings. */
  lemma TypedIsZeroFree(es: seq<Elem>, vs: seq<Val>)
    requires TypedAll(es, vs)
    ensures AllZeroFree(vs)
  {
    forall v | v in vs
      ensures ZeroFree(v)
    {
      var i :| 0 <= i < |vs| && vs[i] == v;
      assert Typed(es[i], vs[i]);
      TypedElemIsZeroFree(es[i], v);
    }
  }

  lemma TypedElemIsZeroFree(e: Elem, v: Val)
    requires Typed(e, v)
    ensures ZeroFree(v)
  {
    match v
    case OneVal(_) =>
    case Texts(ts) => assert forall t :: t in ts ==> IsText(t);
    case Row(vs) => TypedRowIsZeroFree(e.members, vs);
    case Rows(rows) =>
      forall r | r in rows
        ensures RowZeroFree(r)
      {
        TypedRowIsZeroFree(e.members, r);
      }
  }

  lemma TypedRowIsZeroFree(fs: seq<Flat>, vs: seq<FlatVal>)
    requires TypedFlats(fs, vs)
    ensures RowZeroFree(vs)
  {
    forall v | v in vs
      ensures FlatZeroFree(v)
    {
      var i :| 0 <= i < |vs| && vs[i] == v;
      assert TypedFlat(fs[i], vs[i]);
    }
  }

  // ---------------------------------------------------------------- main results

  /** Values written by the writers are accepted with exactly their size, whatever follows in the
      buffer, if and only if every fixed-size field is at a multiple of its size, and then
      they are read back unchanged. */
  lemma RoundTrip(es: seq<Elem>, vs: seq<Val>, rest: seq<Byte>)
    requires SupportedSignature(es) && TypedAll(es, vs)
    ensures var body := EncodeAll(es, vs);
            && CheckAll(es, body + rest, 0) == (if AlignedAll(es, vs, 0) then Some(|body|) else None)
            && (AlignedAll(es, vs, 0) ==> DecodeAll(es, body + rest, 0) == vs)
  {
    var body := EncodeAll(es, vs);
    assert (body + rest)[0..|body|] == body;
    AcceptAll(es, vs, body + rest, 0);
    if AlignedAll(es, vs, 0) {
      RecoverAll(es, vs, body + rest, 0);
    }
  }
}
