/**
 * The growing array of vector.c and vector.h as a refinement of a sequence, with the cost of its growth.
 */
module Vectors {
  import opened Bytes

  function Fill<T>(n: nat, x: T): (r: seq<T>)
    ensures |r| == n && forall i :: 0 <= i < n ==> r[i] == x
  {
    seq(n, i => x)
  }

  function Max(a: nat, b: nat): nat {
    if a < b then b else a
  }

  /** `s` with `es` put in before the element at `ip`. */
  function Inserted<T>(s: seq<T>, ip: nat, es: seq<T>): (r: seq<T>)
    requires ip <= |s|
    ensures |r| == |s| + |es|
  {
    s[..ip] + es + s[ip..]
  }

  /** A block of memory in which `n` elements were copied from `from` to `to`. */
  ghost predicate Moved<T>(before: seq<T>, from: nat, to: nat, n: nat, after: seq<T>) {
    from + n <= |before| && to + n <= |before| && after == before[..to] + before[from..from + n] + before[to + n..]
  }

  /** Elements behind `ip` moved up by `|es|`, and `es` stored in the gap. */
  lemma GapFilled<T>(s: seq<T>, c: seq<T>, size: nat, ip: nat, es: seq<T>, moved: seq<T>, after: seq<T>)
    requires ip <= size && size + |es| <= |s| && c == s[..size]
    requires Moved(s, ip, ip + |es|, size - ip, moved) && Written(moved, ip, es, after)
    ensures |after| == |s| && after[..size + |es|] == Inserted(c, ip, es)
  {
    var end := s[size + |es|..];
    assert moved == s[..ip + |es|] + s[ip..size] + end;
    assert moved[ip + |es|..] == s[ip..size] + end;
    assert moved[..ip] == s[..size][..ip] && s[ip..size] == s[..size][ip..];
    assert after == s[..size][..ip] + es + s[..size][ip..] + end;
  }

  lemma Prefix<T>(d: array<T>, n: nat)
    requires n <= d.Length
    ensures d[..n] == d[..][..n]
  {
  }

  /** Elements stored over as many others. */
  lemma Overwritten<T>(s: seq<T>, front: seq<T>, gap: seq<T>, back: seq<T>, es: seq<T>, after: seq<T>)
    requires |gap| == |es| && front + gap + back <= s && Written(s, |front|, es, after)
    ensures |after| == |s| && front + es + back <= after
  {
    var rest := s[|front + gap + back|..];
    assert s == front + gap + back + rest;
    assert s[|front| + |es|..] == back + rest && s[..|front|] == front;
    assert after == front + es + back + rest;
  }

  lemma Closed<T>(s: seq<T>, c: seq<T>, size: nat, ep: nat, n: nat, after: seq<T>)
    requires ep + n <= size <= |s| && c == s[..size] && Moved(s, ep + n, ep, size - (ep + n), after)
    ensures |after| == |s| && after[..size - n] == c[..ep] + c[ep + n..]
  {
    assert after == s[..ep] + s[ep + n..size] + s[size - n..];
  }

  method MemMove<T>(a: array<T>, from: nat, to: nat, n: nat)
    requires from + n <= a.Length && to + n <= a.Length
    modifies a
    ensures Moved(old(a[..]), from, to, n, a[..])
  {
    forall i | 0 <= i < n {
      a[to + i] := a[from + i];
    }
  }

  method Store<T>(a: array<T>, at: nat, data: seq<T>)
    requires at + |data| <= a.Length
    modifies a
    ensures Written(old(a[..]), at, data, a[..])
  {
    forall i | 0 <= i < |data| {
      a[at + i] := data[i];
    }
  }

  method ShiftAndStore<T>(d: array<T>, size: nat, ip: nat, es: seq<T>)
    requires ip <= size && size + |es| <= d.Length
    modifies d
    ensures d[..][..size + |es|] == Inserted(old(d[..])[..size], ip, es)
  {
    hide Moved, Written, Inserted;
    ghost var s := d[..];
    MemMove(d, ip, ip + |es|, size - ip);
    ghost var moved := d[..];
    Store(d, ip, es);
    GapFilled(s, s[..size], size, ip, es, moved, d[..]);
  }

  /** `n`, doubled until there is room for `sz`. */
  function Doubled(n: nat, sz: nat): (r: nat)
    requires n > 0
    ensures n <= r && sz <= r && (n < sz ==> 2 * n <= r < 2 * sz)
    decreases sz - n
  {
    if n >= sz then n else Doubled(2 * n, sz)
  }

  /** The allocation after room was made for `sz` elements. */
  function Grown(room: nat, sz: nat): (r: nat)
    ensures room <= r && sz <= r && (room < sz ==> 2 * room <= r < 2 * sz)
  {
    if room >= sz then room else Doubled(if room == 0 then 1 else room, sz)
  }

  /** The allocation after `n` push_backs on an empty vector, and how many elements its growth copied. */
  function Pushed(n: nat): (nat, nat) {
    if n == 0 then (0, 0)
    else
      var (room, copied) := Pushed(n - 1);
      (Grown(room, n), copied + if room < n then room else 0)
  }

  /** The copies are one fewer than the allocation, and so fewer than two for each element. */
  lemma {:induction false} PushesAreCheap(n: nat)
    requires n > 0
    ensures n <= Pushed(n).0 < 2 * n && Pushed(n).1 < 2 * n
    ensures Pushed(n).1 == Pushed(n).0 - 1
  {
    if n > 1 {
      PushesAreCheap(n - 1);
      var a := Pushed(n - 1).0;
      assert a < n ==> a == n - 1 && Grown(a, n) == Doubled(2 * a, n);
    }
  }

  class Vector<T(!new)> {
    var d: array<T>
    var size: nat
    const zero: T

    /** The elements that reallocations copied, and the largest size asked for, since the vector was
        last empty of memory. */
    ghost var copied: nat
    ghost var peak: nat

    ghost predicate Valid()
      reads this
    {
      && size <= d.Length && size <= peak
      && (peak == 0 ==> d.Length == 0) && (peak > 0 ==> d.Length < 2 * peak)
      && (d.Length == 0 ==> copied == 0) && (d.Length > 0 ==> copied < d.Length)
    }

    ghost function Contents(): (s: seq<T>)
      requires Valid()
      reads this, d
    {
      d[..size]
    }

    constructor (zero: T)
      ensures Valid() && fresh(d) && this.zero == zero && Contents() == [] && copied == peak == 0
    {
      this.zero := zero;
      d, size := new T[0], 0;
      copied, peak := 0, 0;
    }

    ghost predicate GrownFor(sz: nat, room: nat, copiedBefore: nat)
      reads this
    {
      d.Length == Grown(room, sz) && copied == copiedBefore + if room < sz then room else 0
    }

    /** Makes room for `sz` elements; memory that is added is zero. */
    method Reserve(sz: nat)
      requires Valid()
      modifies this`d, this`copied, this`peak
      ensures Valid() && peak == Max(old(peak), sz)
      ensures d == old(d) || fresh(d)
      ensures sz <= d.Length && (old(d.Length) >= sz <==> d == old(d))
      ensures old(d.Length) < sz ==> d.Length < 2 * sz
      ensures GrownFor(sz, old(d.Length), old(copied))
      ensures d[..] == old(d[..]) + Fill(d.Length - old(d.Length), zero)
    {
      peak := Max(peak, sz);
      if d.Length >= sz {
        return;
      }
      var nsz := d.Length + if d.Length == 0 then 1 else 0;
      while nsz < sz
        invariant 0 < nsz && (nsz < 2 * sz) && (nsz > d.Length ==> nsz >= 2 * d.Length)
        invariant nsz >= d.Length && Grown(d.Length, sz) == Doubled(nsz, sz)
        decreases sz - nsz
      {
        nsz := nsz * 2;
      }
      var old_d, z := d, zero;
      d := new T[nsz](i => z);
      forall i | 0 <= i < old_d.Length {
        d[i] := old_d[i];
      }
      copied := copied + old_d.Length;
    }

    method Deallocate()
      requires Valid()
      modifies this`d, this`size, this`copied, this`peak
      ensures Valid() && fresh(d) && d.Length == 0 && Contents() == []
    {
      d, size := new T[0], 0;
      copied, peak := 0, 0;
    }

    /** Opens a gap of `n` zero elements at `ip`. */
    method EmplaceN(ip: nat, n: nat)
      requires Valid() && ip <= size
      modifies this`d, this`size, this`copied, this`peak, d
      ensures Valid() && (d == old(d) || fresh(d)) && peak == Max(old(peak), old(size) + n)
      ensures Contents() == Inserted(old(Contents()), ip, Fill(n, zero))
      ensures GrownFor(old(size) + n, old(d.Length), old(copied))
    {
      Reserve(size + n);
      OpenGap(ip, Fill(n, zero));
    }

    /** Moves the elements behind `ip` up, into memory that is there, and stores `es` in the gap. */
    method OpenGap(ip: nat, es: seq<T>)
      requires Valid() && ip <= size && size + |es| <= d.Length && size + |es| <= peak
      modifies this`size, d
      ensures Valid() && size == old(size) + |es|
      ensures Contents() == Inserted(old(Contents()), ip, es)
    {
      hide Moved, Written, Inserted;
      Prefix(d, size);
      ShiftAndStore(d, size, ip, es);
      size := size + |es|;
      Prefix(d, size);
    }

    method Emplace(ip: nat)
      requires Valid() && ip <= size
      modifies this`d, this`size, this`copied, this`peak, d
      ensures Valid() && (d == old(d) || fresh(d)) && peak == Max(old(peak), old(size) + 1)
      ensures Contents() == Inserted(old(Contents()), ip, [zero])
      ensures GrownFor(old(size) + 1, old(d.Length), old(copied))
    {
      Reserve(size + 1);
      OpenGap(ip, [zero]);
    }

    method InsertN(ip: nat, es: seq<T>)
      requires Valid() && ip <= size
      modifies this`d, this`size, this`copied, this`peak, d
      ensures Valid() && (d == old(d) || fresh(d)) && peak == Max(old(peak), old(size) + |es|)
      ensures Contents() == Inserted(old(Contents()), ip, es)
      ensures GrownFor(old(size) + |es|, old(d.Length), old(copied))
    {
      hide Written;
      ghost var c := Contents();
      EmplaceN(ip, |es|);
      ghost var s := d[..];
      assert s[..size] == c[..ip] + Fill(|es|, zero) + c[ip..];
      Store(d, ip, es);
      Overwritten(s, c[..ip], Fill(|es|, zero), c[ip..], es, d[..]);
    }

    method Insert(ip: nat, e: T)
      requires Valid() && ip <= size
      modifies this`d, this`size, this`copied, this`peak, d
      ensures Valid() && (d == old(d) || fresh(d)) && peak == Max(old(peak), old(size) + 1)
      ensures Contents() == Inserted(old(Contents()), ip, [e])
      ensures GrownFor(old(size) + 1, old(d.Length), old(copied))
    {
      hide Written;
      ghost var c := Contents();
      Emplace(ip);
      ghost var s := d[..];
      assert s[..size] == c[..ip] + [zero] + c[ip..];
      Store(d, ip, [e]);
      Overwritten(s, c[..ip], [zero], c[ip..], [e], d[..]);
    }

    method EraseN(ep: nat, n: nat)
      requires Valid() && ep + n <= size
      modifies this`size, d
      ensures Valid() && Contents() == old(Contents())[..ep] + old(Contents())[ep + n..]
    {
      hide Moved;
      ghost var s, c := d[..], Contents();
      Prefix(d, size);
      MemMove(d, ep + n, ep, size - (ep + n));
      Closed(s, c, size, ep, n, d[..]);
      size := size - n;
      Prefix(d, size);
    }

    method Erase(ep: nat)
      requires Valid() && ep < size
      modifies this`size, d
      ensures Valid() && Contents() == old(Contents())[..ep] + old(Contents())[ep + 1..]
    {
      EraseN(ep, 1);
    }

    method PushBack(e: T)
      requires Valid()
      modifies this`d, this`size, this`copied, this`peak, d
      ensures Valid() && (d == old(d) || fresh(d)) && peak == Max(old(peak), old(size) + 1)
      ensures Contents() == old(Contents()) + [e]
      ensures old((d.Length, copied) == Pushed(size)) ==> (d.Length, copied) == Pushed(size)
    {
      Insert(size, e);
    }

    method PopBack()
      requires Valid() && size > 0
      modifies this`size, d
      ensures Valid() && Contents() == old(Contents())[..old(size) - 1]
    {
      Erase(size - 1);
    }

    method Clear()
      requires Valid()
      modifies this`size
      ensures Valid() && Contents() == []
    {
      size := 0;
    }

    /** Elements beyond the old size are those that lie in the memory, zero where it is new. */
    method Resize(sz: nat)
      requires Valid()
      modifies this`d, this`size, this`copied, this`peak
      ensures Valid() && (d == old(d) || fresh(d)) && size == sz && peak == Max(old(peak), sz)
      ensures Contents() == (old(d[..]) + Fill(Max(old(d.Length), sz) - old(d.Length), zero))[..sz]
      ensures GrownFor(sz, old(d.Length), old(copied))
    {
      Reserve(sz);
      size := sz;
    }

    method Swap(v: Vector<T>)
      requires Valid() && v.Valid() && v != this
      modifies this, v
      ensures Valid() && v.Valid() && d == old(v.d) && v.d == old(d)
      ensures Contents() == old(v.Contents()) && v.Contents() == old(Contents())
      ensures copied == old(v.copied) && v.copied == old(copied) && peak == old(v.peak) && v.peak == old(peak)
    {
      d, v.d := v.d, d;
      size, v.size := v.size, size;
      copied, v.copied := v.copied, copied;
      peak, v.peak := v.peak, peak;
    }

    // ------------------------------------------------------------ sorted vectors

    /** `_vector_bound`, a binary search: `f` ends the elements that compare below `cmpv`, when these
        come first; in any case the elements on both sides of `f` are told apart. */
    method Bound(cmp: (T, T) -> int, cmpv: int, e: T) returns (f: nat)
      requires Valid()
      ensures f <= size
      ensures f > 0 ==> cmpv > cmp(d[f - 1], e)
      ensures f < size ==> cmpv <= cmp(d[f], e)
      ensures Divided(Contents(), cmp, cmpv, e) ==> forall i :: 0 <= i < size ==> (i < f <==> cmpv > cmp(d[i], e))
    {
      f := 0;
      var l := size;
      while f < l
        invariant f <= l <= size
        invariant f > 0 ==> cmpv > cmp(d[f - 1], e)
        invariant l < size ==> cmpv <= cmp(d[l], e)
      {
        var m := (f + l) / 2;
        if cmpv > cmp(d[m], e) {
          f := m + 1;
        } else {
          l := m;
        }
      }
      ghost var s := Contents();
      if Divided(s, cmp, cmpv, e) {
        forall i | 0 <= i < size
          ensures i < f <==> cmpv > cmp(d[i], e)
        {
          if i < f - 1 {
            assert cmpv > cmp(s[f - 1], e);
          } else if i > f {
            assert cmpv <= cmp(s[f], e);
          }
        }
      }
    }

    /** The first place where `e` could stand in a sorted vector. */
    method LowerBound(cmp: (T, T) -> int, e: T) returns (f: nat)
      requires Valid()
      ensures f <= size
      ensures Ordering(cmp) && Sorted(Contents(), cmp) ==>
                forall i :: 0 <= i < size ==> (i < f <==> cmp(Contents()[i], e) < 0)
    {
      f := Bound(cmp, 0, e);
      if Ordering(cmp) && Sorted(Contents(), cmp) {
        SortedIsDivided(Contents(), cmp, e);
      }
    }

    /** The last place where `e` could stand in a sorted vector. */
    method UpperBound(cmp: (T, T) -> int, e: T) returns (f: nat)
      requires Valid()
      ensures f <= size
      ensures Ordering(cmp) && Sorted(Contents(), cmp) ==>
                forall i :: 0 <= i < size ==> (i < f <==> cmp(Contents()[i], e) <= 0)
    {
      f := Bound(cmp, 1, e);
      if Ordering(cmp) && Sorted(Contents(), cmp) {
        SortedIsDivided(Contents(), cmp, e);
      }
    }

    /** A sorted vector stays sorted, and the new element comes last among its equals. */
    method InsertSorted(cmp: (T, T) -> int, e: T) returns (ip: nat)
      requires Valid()
      modifies this`d, this`size, this`copied, this`peak, d
      ensures Valid() && (d == old(d) || fresh(d)) && ip <= old(size) && peak == Max(old(peak), old(size) + 1)
      ensures Contents() == Inserted(old(Contents()), ip, [e])
      ensures Ordering(cmp) && Sorted(old(Contents()), cmp) ==> Sorted(Contents(), cmp)
      ensures Ordering(cmp) && Sorted(old(Contents()), cmp) ==>
                forall k :: Equals(Contents(), cmp, k)
                         == Equals(old(Contents()), cmp, k) + if cmp(e, k) == 0 then [e] else []
      ensures GrownFor(old(size) + 1, old(d.Length), old(copied))
    {
      hide Ordering, Sorted, Equals, Inserted;
      ip := UpperBound(cmp, e);
      ghost var s := Contents();
      Insert(ip, e);
      if Ordering(cmp) && Sorted(s, cmp) {
        InsertedInOrder(s, cmp, e, ip);
      }
    }
  }

  // ------------------------------------------------------------------- orderings

  /** What a comparison function of the C library promises. */
  ghost predicate Ordering<T(!new)>(cmp: (T, T) -> int) {
    && (forall a, b :: cmp(a, b) < 0 <==> cmp(b, a) > 0)
    && (forall a, b, c :: cmp(a, b) <= 0 && cmp(b, c) <= 0 ==> cmp(a, c) <= 0)
  }

  ghost predicate Sorted<T>(s: seq<T>, cmp: (T, T) -> int) {
    forall i, j :: 0 <= i < j < |s| ==> cmp(s[i], s[j]) <= 0
  }

  /** The elements that compare below `cmpv` come first. */
  ghost predicate Divided<T>(s: seq<T>, cmp: (T, T) -> int, cmpv: int, e: T) {
    forall i, j :: 0 <= i < j < |s| && cmpv > cmp(s[j], e) ==> cmpv > cmp(s[i], e)
  }

  /** The elements of `s` that equal `k`, in their order. */
  ghost function Equals<T>(s: seq<T>, cmp: (T, T) -> int, k: T): seq<T> {
    if s == [] then [] else (if cmp(s[0], k) == 0 then [s[0]] else []) + Equals(s[1..], cmp, k)
  }

  lemma Transitive<T(!new)>(cmp: (T, T) -> int, a: T, b: T, c: T)
    requires Ordering(cmp)
    ensures cmp(a, b) <= 0 && cmp(b, c) <= 0 ==> cmp(a, c) <= 0
    ensures cmp(a, b) <= 0 && cmp(b, c) < 0 ==> cmp(a, c) < 0
    ensures cmp(a, b) > 0 && cmp(b, c) == 0 ==> cmp(a, c) != 0
  {
    assert cmp(c, a) <= 0 && cmp(a, b) <= 0 ==> cmp(c, b) <= 0;
    assert cmp(a, c) <= 0 && cmp(c, b) <= 0 ==> cmp(a, b) <= 0;
  }

  lemma SortedIsDivided<T(!new)>(s: seq<T>, cmp: (T, T) -> int, e: T)
    requires Ordering(cmp) && Sorted(s, cmp)
    ensures Divided(s, cmp, 0, e) && Divided(s, cmp, 1, e)
  {
    forall i, j | 0 <= i < j < |s|
      ensures cmp(s[j], e) < 0 ==> cmp(s[i], e) < 0
      ensures cmp(s[j], e) <= 0 ==> cmp(s[i], e) <= 0
    {
      assert cmp(s[i], s[j]) <= 0;
      Transitive(cmp, s[i], s[j], e);
    }
  }

  lemma EqualsFirst<T>(s: seq<T>, cmp: (T, T) -> int, k: T)
    requires s != []
    ensures Equals(s, cmp, k) == (if cmp(s[0], k) == 0 then [s[0]] else []) + Equals(s[1..], cmp, k)
  {
  }

  lemma {:induction false} EqualsConcat<T>(a: seq<T>, b: seq<T>, cmp: (T, T) -> int, k: T)
    ensures Equals(a + b, cmp, k) == Equals(a, cmp, k) + Equals(b, cmp, k)
    decreases |a|
  {
    if a == [] {
      assert a + b == b && Equals(a, cmp, k) == [];
    } else {
      assert (a + b)[1..] == a[1..] + b && (a + b)[0] == a[0];
      EqualsConcat(a[1..], b, cmp, k);
      hide Equals;
      EqualsFirst(a, cmp, k);
      EqualsFirst(a + b, cmp, k);
    }
  }

  lemma {:induction false} EqualsNone<T>(s: seq<T>, cmp: (T, T) -> int, k: T)
    requires forall x :: x in s ==> cmp(x, k) != 0
    ensures Equals(s, cmp, k) == []
    decreases |s|
  {
    if s != [] {
      EqualsNone(s[1..], cmp, k);
    }
  }

  lemma InsertedInOrder<T(!new)>(s: seq<T>, cmp: (T, T) -> int, e: T, ip: nat)
    requires Ordering(cmp) && Sorted(s, cmp) && ip <= |s|
    requires forall i :: 0 <= i < |s| ==> (i < ip <==> cmp(s[i], e) <= 0)
    ensures Sorted(Inserted(s, ip, [e]), cmp)
    ensures forall k :: Equals(Inserted(s, ip, [e]), cmp, k)
                     == Equals(s, cmp, k) + if cmp(e, k) == 0 then [e] else []
  {
    InsertedIsSorted(s, cmp, e, ip);
    forall k
      ensures Equals(Inserted(s, ip, [e]), cmp, k) == Equals(s, cmp, k) + if cmp(e, k) == 0 then [e] else []
    {
      InsertedLast(s, cmp, e, ip, k);
    }
  }

  lemma InsertedIsSorted<T(!new)>(s: seq<T>, cmp: (T, T) -> int, e: T, ip: nat)
    requires Ordering(cmp) && Sorted(s, cmp) && ip <= |s|
    requires forall i :: 0 <= i < |s| ==> (i < ip <==> cmp(s[i], e) <= 0)
    ensures Sorted(s[..ip] + [e] + s[ip..], cmp)
  {
    var t := s[..ip] + [e] + s[ip..];
    forall i, j | 0 <= i < j < |t|
      ensures cmp(t[i], t[j]) <= 0
    {
      var i', j' := if i < ip then i else i - 1, if j < ip then j else j - 1;
      if i == ip {
        assert t[j] == s[j'] && cmp(s[j'], e) > 0;
      } else if j == ip {
        assert t[i] == s[i'];
      } else {
        assert t[i] == s[i'] && t[j] == s[j'];
      }
    }
  }

  lemma InsertedLast<T(!new)>(s: seq<T>, cmp: (T, T) -> int, e: T, ip: nat, k: T)
    requires Ordering(cmp) && ip <= |s|
    requires forall i :: ip <= i < |s| ==> cmp(s[i], e) > 0
    ensures Equals(s[..ip] + [e] + s[ip..], cmp, k) == Equals(s, cmp, k) + if cmp(e, k) == 0 then [e] else []
  {
    hide Equals;
    assert s == s[..ip] + s[ip..];
    forall x | x in s[ip..]
      ensures cmp(e, k) == 0 ==> cmp(x, k) != 0
    {
      Transitive(cmp, x, e, k);
    }
    EqualsBetween(s[..ip], e, s[ip..], cmp, k);
  }

  lemma EqualsBetween<T>(a: seq<T>, e: T, b: seq<T>, cmp: (T, T) -> int, k: T)
    requires cmp(e, k) == 0 ==> forall x :: x in b ==> cmp(x, k) != 0
    ensures Equals(a + [e] + b, cmp, k) == Equals(a + b, cmp, k) + if cmp(e, k) == 0 then [e] else []
  {
    hide Equals;
    EqualsConcat(a + [e], b, cmp, k);
    EqualsConcat(a, [e], cmp, k);
    EqualsConcat(a, b, cmp, k);
    EqualsOne(e, cmp, k);
    if cmp(e, k) == 0 {
      EqualsNone(b, cmp, k);
    }
  }

  lemma EqualsOne<T>(e: T, cmp: (T, T) -> int, k: T)
    ensures Equals([e], cmp, k) == if cmp(e, k) == 0 then [e] else []
  {
    assert [e][1..] == [];
  }
}
