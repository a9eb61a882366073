/** Bytes, little-endian integers and the rounding functions of util.h. */
module Bytes {

  type Byte = n: int | 0 <= n < 0x100

  function Floorg(n: nat, grain: nat): (r: nat)
    requires grain > 0
    ensures r <= n < r + grain && r % grain == 0
  {
    DivisionFacts(n, grain);
    n - n % grain
  }

  /** The least multiple of `grain` that is not below `n`. */
  function Ceilg(n: nat, grain: nat): (r: nat)
    requires grain > 0
    ensures n <= r < n + grain && r % grain == 0
  {
    Floorg(n + grain - 1, grain)
  }

  function DivideCeil(n1: nat, n2: nat): (r: nat)
    requires n2 > 0
    ensures r * n2 >= n1 && (r - 1) * n2 < n1
  {
    DivisionFacts(n1 + n2 - 1, n2);
    (n1 + n2 - 1) / n2
  }

  lemma DivisionFacts(n: nat, grain: nat)
    requires grain > 0
    ensures n == grain * (n / grain) + n % grain && (n - n % grain) % grain == 0
  {
    DivisionIsUnique(n - n % grain, grain, n / grain, 0);
  }

  lemma DivisionIsUnique(n: nat, grain: nat, q: int, r: nat)
    requires n == grain * q + r && r < grain
    ensures n / grain == q && n % grain == r
  {
    var d := n / grain;
    assert n == grain * d + n % grain;
    Multiples(grain, d, q);
    Multiples(grain, q, d);
  }

  lemma {:induction false} Multiples(grain: nat, a: int, b: int)
    ensures a < b ==> grain * a + grain <= grain * b
    decreases b - a
  {
    if a < b {
      Multiples(grain, a, b - 1);
      assert grain * b == grain * (b - 1) + grain;
    }
  }

  lemma CeilingOfWord(n: nat)
    ensures Ceilg(n, 4) == 4 * ((n + 3) / 4)
  {
  }

  lemma CeilingOfBody(n: nat)
    ensures Ceilg(n, 8) == 8 * ((n + 7) / 8)
  {
  }

  function Zeros(n: nat): (r: seq<Byte>)
    ensures |r| == n && forall i :: 0 <= i < n ==> r[i] == 0
  {
    seq(n, i => 0)
  }

  /** How many values `k` bytes can hold. */
  function Span(k: nat): (r: nat)
    ensures r > 0
  {
    if k == 0 then 1 else 0x100 * Span(k - 1)
  }

  /** The low `k` bytes of `n`, lowest first. */
  function LittleEndian(n: nat, k: nat): (r: seq<Byte>)
    ensures |r| == k
  {
    if k == 0 then [] else [n % 0x100] + LittleEndian(n / 0x100, k - 1)
  }

  function Value(b: seq<Byte>): nat {
    if b == [] then 0 else b[0] + 0x100 * Value(b[1..])
  }

  lemma {:induction false} ValueOfLittleEndian(n: nat, k: nat)
    requires n < Span(k)
    ensures Value(LittleEndian(n, k)) == n
  {
    if k > 0 {
      ValueOfLittleEndian(n / 0x100, k - 1);
      assert LittleEndian(n, k)[1..] == LittleEndian(n / 0x100, k - 1);
    }
  }

  /** Byte `i` of an integer has the weight 256 to the `i`. */
  lemma {:induction false} LittleEndianAt(n: nat, k: nat, i: nat)
    requires i < k
    ensures LittleEndian(n, k)[i] == n / Span(i) % 0x100
  {
    if i > 0 {
      LittleEndianAt(n / 0x100, k - 1, i - 1);
      DivisionTwice(n, 0x100, Span(i - 1));
    }
  }

  lemma DivisionTwice(n: nat, a: nat, b: nat)
    requires a > 0 && b > 0
    ensures a * b > 0 && n / a / b == n / (a * b)
  {
    var q, r, s := n / a / b, n / a % b, n % a;
    assert n == a * (n / a) + s && n / a == b * q + r;
    assert a * (b * q + r) == a * b * q + a * r;
    Multiples(a, r, b);
    Multiples(a, -1, r);
    DivisionIsUnique(n, a * b, q, a * r + s);
  }

  /** No two rows of bytes have the same value. */
  lemma {:induction false} LittleEndianOfValue(b: seq<Byte>)
    ensures LittleEndian(Value(b), |b|) == b
  {
    if b != [] {
      LittleEndianOfValue(b[1..]);
      assert Value(b) / 0x100 == Value(b[1..]);
    }
  }

  lemma {:induction false} ValueBound(b: seq<Byte>)
    ensures Value(b) < Span(|b|)
  {
    if b != [] {
      ValueBound(b[1..]);
    }
  }

  /** `b` with zero bytes up to a multiple of `grain`. */
  function Padded(b: seq<Byte>, grain: nat): (r: seq<Byte>)
    requires grain > 0
    ensures |r| == Ceilg(|b|, grain) && r[..|b|] == b
  {
    b + Zeros(Ceilg(|b|, grain) - |b|)
  }

  lemma PaddedWithZeros(b: seq<Byte>, grain: nat)
    requires grain > 0
    ensures forall i :: |b| <= i < |Padded(b, grain)| ==> Padded(b, grain)[i] == 0
  {
    hide Ceilg;
  }

  /** `data` was written at `start`, and nothing else changed. */
  ghost predicate Written<T>(before: seq<T>, start: nat, data: seq<T>, after: seq<T>) {
    start + |data| <= |before| && after == before[..start] + data + before[start + |data|..]
  }

  lemma WrittenNothing(before: seq<Byte>, start: nat)
    requires start <= |before|
    ensures Written(before, start, [], before)
  {
  }

  lemma WrittenTwice(before: seq<Byte>, start: nat, a: seq<Byte>, mid: seq<Byte>, b: seq<Byte>, after: seq<Byte>)
    requires Written(before, start, a, mid) && Written(mid, start + |a|, b, after)
    ensures Written(before, start, a + b, after)
  {
    assert mid[..start + |a|] == before[..start] + a;
    assert mid[start + |a| + |b|..] == before[start + |a| + |b|..];
  }

  lemma WrittenThrice(before: seq<Byte>, start: nat, a: seq<Byte>, m1: seq<Byte>, b: seq<Byte>, m2: seq<Byte>,
                      c: seq<Byte>, after: seq<Byte>)
    requires Written(before, start, a, m1) && Written(m1, start + |a|, b, m2)
    requires Written(m2, start + |a| + |b|, c, after)
    ensures Written(before, start, a + b + c, after)
  {
    hide Written;
    WrittenTwice(before, start, a, m1, b, m2);
    WrittenTwice(before, start, a + b, m2, c, after);
  }

  // --------------------------------------------------------- what is at a place

  ghost predicate At(buf: seq<Byte>, p: nat, b: seq<Byte>) {
    p + |b| <= |buf| && buf[p..p + |b|] == b
  }

  lemma AtSplit(buf: seq<Byte>, p: nat, a: seq<Byte>, b: seq<Byte>)
    requires At(buf, p, a + b)
    ensures At(buf, p, a) && At(buf, p + |a|, b)
    ensures p + |a| + |b| <= |buf|
  {
    var s := buf[p..p + |a + b|];
    assert s[..|a|] == a && s[|a|..] == b;
    assert buf[p..p + |a|] == s[..|a|];
    assert buf[p + |a|..p + |a| + |b|] == s[|a|..];
  }

  lemma AtBytes(buf: seq<Byte>, p: nat, b: seq<Byte>)
    requires At(buf, p, b)
    ensures p + |b| <= |buf| && buf[p..p + |b|] == b
  {
  }

  // -------------------------------------------------------------------- strings

  /** The index of the first terminator from `i` on, or the end of the buffer. */
  function StringEnd(d: seq<Byte>, i: nat): (r: nat)
    requires i <= |d|
    ensures i <= r <= |d|
    ensures forall k :: i <= k < r ==> d[k] != 0
    ensures r < |d| ==> d[r] == 0
    decreases |d| - i
  {
    if i == |d| || d[i] == 0 then i else StringEnd(d, i + 1)
  }

  method StringLength(d: seq<Byte>, i: nat) returns (n: nat)
    requires i <= |d|
    ensures i + n == StringEnd(d, i)
  {
    n := 0;
    while i + n < |d| && d[i + n] != 0
      invariant i + n <= |d| && StringEnd(d, i) == StringEnd(d, i + n)
    {
      n := n + 1;
    }
  }
}
