/**
 * The signature validator of msg.c: a recursive descent over the letters of a
 * signature and the bytes of a message body. It computes the layout check of
 * `Signatures`, stays inside the buffer, and reads no misaligned count.
 */
module Validator {
  import opened Bytes
  import opened Signatures
  import opened Marshalling
  import opened Streams

  /** `text` stands at `i` in the signature. */
  predicate Reads(sig: string, i: nat, text: string) {
    i + |text| <= |sig| && sig[i..i + |text|] == text
  }

  function LetterAlign(c: char): (r: nat)
    ensures r <= 8
  {
    if SizeOf(c) > 0 then SizeOf(c) else 4
  }

  function LettersAlign(s: string): (r: nat)
    ensures r <= 8
  {
    if s == [] then 0
    else if LettersAlign(s[..|s| - 1]) < LetterAlign(s[|s| - 1]) then LetterAlign(s[|s| - 1])
    else LettersAlign(s[..|s| - 1])
  }

  predicate NoParens(s: string) {
    '(' !in s && ')' !in s
  }

  method SigElementSize(c: char) returns (sz: nat)
    ensures sz == SizeOf(c)
  {
    var syms := [('y', 1), ('b', 1), ('n', 2), ('q', 2), ('i', 4), ('u', 4), ('h', 4), ('x', 8), ('t', 8)];
    for i := 0 to |syms|
      invariant forall j :: 0 <= j < i ==> syms[j].0 != c
    {
      if syms[i].0 == c {
        return syms[i].1;
      }
    }
    assert forall j :: 0 <= j < 9 ==> syms[j].0 != c;
    assert c != syms[0].0 && c != syms[1].0 && c != syms[2].0 && c != syms[3].0 && c != syms[4].0;
    assert c != syms[5].0 && c != syms[6].0 && c != syms[7].0 && c != syms[8].0;
    return 0;
  }

  /** Steps over one letter, or over a struct with its parentheses. */
  method SkipOneSigElement(sig: string, i: nat, ghost inner: string) returns (j: nat)
    requires i < |sig| && sig[i] != ')'
    requires sig[i] == '(' ==> NoParens(inner) && Reads(sig, i, "(" + inner + ")")
    ensures j == if sig[i] == '(' then i + |inner| + 2 else i + 1
  {
    ghost var end := i + |inner| + 1;
    if sig[i] == '(' {
      StructLetters(sig, i, inner);
    }
    var parens := 0;
    j := i;
    while true
      invariant i <= j < |sig|
      invariant parens == if i < j then 1 else 0
      invariant sig[i] == '(' ==> j <= end
      invariant sig[i] != '(' ==> j == i
      decreases |sig| - j
    {
      if sig[j] == '(' {
        parens := parens + 1;
      } else if sig[j] == ')' {
        parens := (parens + U32 - 1) % U32;
      }
      j := j + 1;
      if j == |sig| || parens == 0 {
        break;
      }
    }
  }

  lemma StructLetters(sig: string, i: nat, inner: string)
    requires NoParens(inner) && Reads(sig, i, "(" + inner + ")")
    ensures i + |inner| + 1 < |sig| && sig[i] == '(' && sig[i + |inner| + 1] == ')'
    ensures forall k :: i < k <= i + |inner| ==> sig[k] != '(' && sig[k] != ')' && sig[k] == inner[k - i - 1]
  {
    var text := "(" + inner + ")";
    assert sig[i] == sig[i..i + |text|][0] && sig[i + |inner| + 1] == sig[i..i + |text|][|inner| + 1];
    forall k | i < k <= i + |inner|
      ensures sig[k] == inner[k - i - 1]
    {
      assert sig[k] == sig[i..i + |text|][k - i] == text[k - i];
    }
  }

  /** Alignment of the element at `i`; for a struct, that of its members. */
  method SigAlignment(sig: string, i: nat, ghost members: seq<Flat>) returns (sz: nat)
    requires i < |sig| && (PlainLetter(sig[i]) || sig[i] == '(')
    requires sig[i] == '(' ==> SupportedFlats(members) && Reads(sig, i, PrintElem(Struct(members)))
    ensures sz == if sig[i] == '(' then LettersAlign(PrintFlats(members)) else LetterAlign(sig[i])
    decreases if sig[i] == '(' then 1 else 0, 1
  {
    sz := SigElementSize(sig[i]);
    if sz > 0 {
      return;
    }
    if sig[i] == 'a' || sig[i] == 's' {
      return 4;
    }
    sz := StructAlignment(sig, i, members);
  }

  /** The struct case: the largest alignment of the letters up to the closing parenthesis. */
  method StructAlignment(sig: string, i: nat, ghost members: seq<Flat>) returns (sz: nat)
    requires i < |sig| && sig[i] == '('
    requires SupportedFlats(members) && Reads(sig, i, PrintElem(Struct(members)))
    ensures sz == LettersAlign(PrintFlats(members))
    decreases 1, 0
  {
    hide PrintFlats, PrintElem, SupportedFlats, SizeOf, LettersAlign, LetterAlign, Reads, NoParens;
    ghost var inner := PrintFlats(members);
    StructMembers(sig, i, members);
    var elend := SkipOneSigElement(sig, i, inner);
    elend := elend - 1;
    var k := i + 1;
    ghost var n := 0;
    Ends(inner);
    sz := 0;
    while k < elend
      invariant k == i + 1 + n && n <= |inner| && elend == i + 1 + |inner|
      invariant sz == LettersAlign(inner[..n])
    {
      LettersStep(inner, n);
      n := n + 1;
      var elal := SigAlignment(sig, k, []);
      if elal > sz {
        sz := elal;
      }
      k := SkipOneSigElement(sig, k, "");
    }
  }

  lemma Ends(s: string)
    ensures s[..0] == "" && s[..|s|] == s
  {
  }

  lemma LettersStep(s: string, n: nat)
    requires n < |s|
    ensures LettersAlign(s[..n + 1])
         == if LettersAlign(s[..n]) < LetterAlign(s[n]) then LetterAlign(s[n]) else LettersAlign(s[..n])
  {
    assert s[..n + 1][..n] == s[..n];
  }

  predicate PlainLetter(c: char) {
    (SizeOf(c) > 0 || c == 'a' || c == 's') && c != '(' && c != ')'
  }

  lemma StructMembers(sig: string, i: nat, ms: seq<Flat>)
    requires SupportedFlats(ms) && Reads(sig, i, PrintElem(Struct(ms)))
    ensures var inner := PrintFlats(ms);
            && NoParens(inner) && Reads(sig, i, "(" + inner + ")") && i + |inner| + 1 < |sig|
            && sig[i] == '(' && sig[i + |inner| + 1] == ')' && LettersAlign("") == 0
            && forall k :: i < k <= i + |inner| ==> sig[k] == inner[k - i - 1] && PlainLetter(sig[k])
  {
    FlatLetters(ms);
    StructLetters(sig, i, PrintFlats(ms));
    forall k | i < k <= i + |PrintFlats(ms)|
      ensures PlainLetter(sig[k])
    {
      assert PrintFlats(ms)[k - i - 1] in PrintFlats(ms);
    }
  }

  lemma {:induction false} FlatLetters(ms: seq<Flat>)
    requires SupportedFlats(ms)
    ensures forall c :: c in PrintFlats(ms) ==> SizeOf(c) > 0 || c == 'a' || c == 's'
    ensures NoParens(PrintFlats(ms))
    decreases |ms|
  {
    if ms != [] {
      assert ms[0] in ms && forall f :: f in ms[1..] ==> f in ms;
      FlatLetters(ms[1..]);
    }
    assert SizeOf('(') == 0 && SizeOf(')') == 0;
  }

  lemma {:induction false} LettersConcat(a: string, b: string)
    ensures LettersAlign(a + b) == if LettersAlign(a) < LettersAlign(b) then LettersAlign(b) else LettersAlign(a)
    decreases |b|
  {
    if b == [] {
      assert a + b == a;
    } else {
      assert (a + b)[..|a + b| - 1] == a + b[..|b| - 1];
      LettersConcat(a, b[..|b| - 1]);
    }
  }

  /** The code takes the largest alignment of the letters; it is that of the members. */
  lemma {:induction false} LettersOfMembers(ms: seq<Flat>)
    requires SupportedFlats(ms)
    ensures LettersAlign(PrintFlats(ms)) == AlignOf(ms)
    decreases |ms|
  {
    hide LettersAlign;
    if ms != [] {
      assert ms[0] in ms && forall f :: f in ms[1..] ==> f in ms;
      LettersOfMembers(ms[1..]);
      LettersConcat(PrintFlat(ms[0]), PrintFlats(ms[1..]));
      LettersOfFlat(ms[0]);
    }
    NoLetters();
  }

  lemma NoLetters()
    ensures LettersAlign("") == 0
  {
  }

  lemma LettersOfFlat(f: Flat)
    requires SupportedFlat(f)
    ensures LettersAlign(PrintFlat(f)) == AlignOfFlat(f)
  {
    OneLetter(PrintFlat(f)[0]);
    if f.FixedArr? {
      OneLetter(f.c);
      LettersConcat("a", [f.c]);
    }
  }

  lemma OneLetter(c: char)
    ensures LettersAlign([c]) == LetterAlign(c)
  {
    assert [c][..0] == [];
  }

  method ReadPadding(s: RStm, sz: nat, grain: nat) returns (alignsz: nat)
    requires grain > 0 && s.p <= |s.buf| == s.end && sz <= s.p
    modifies s`p
    ensures s.p == old(s.p) + alignsz == SkipPadding(s.buf, old(s.p) - sz, old(s.p), grain)
  {
    alignsz := Ceilg(sz, grain) - sz;
    if !s.CanRead(alignsz) {
      return 0;
    }
    s.Skip(alignsz);
  }

  function Advance(e: Elem): nat {
    if e.Struct? then |PrintElem(e)| - 1 else |PrintElem(e)|
  }

  predicate AllFixed(ms: seq<Flat>) {
    forall f :: f in ms ==> f.Fixed?
  }

  /** No count of `e` is read at an address that is not a multiple of four. */
  predicate Ready(e: Elem, buf: seq<Byte>, p: nat) {
    match e
    case One(f) => f.Fixed? || Phase(buf, p, 0)
    case StrArr => Phase(buf, p, 0)
    case Struct(ms) => AllFixed(ms) || Phase(buf, p, 0)
    case StructArr(_) => Phase(buf, p, 0)
  }

  lemma CountAligned(buf: seq<Byte>, p: nat)
    requires Phase(buf, p, 0) && p + 4 <= |buf|
    ensures p % 4 == 0 && Phase(buf, p + 4, 0)
  {
  }

  /** What validating element `e` at `i` of the signature and `p` of the buffer must give: the size of
      the element, or 0 if it is not there, the place behind it in the signature, and in the buffer. */
  predicate Validated(e: Elem, i: nat, buf: seq<Byte>, p: nat, sz: nat, j: nat, q: nat) {
    && p <= q <= |buf|
    && match CheckElem(e, buf, p)
       case None => sz == 0
       case Some(end) => sz == end - p && q == end && j == i + Advance(e)
  }

  function Rank(e: Elem): nat {
    match e
    case One(_) => 0
    case Struct(_) => 1
    case StrArr => 2
    case StructArr(_) => 2
  }

  lemma ReadsSplit(sig: string, i: nat, a: string, b: string)
    requires Reads(sig, i, a + b)
    ensures Reads(sig, i, a) && Reads(sig, i + |a|, b)
  {
    var s := sig[i..i + |a + b|];
    assert s[..|a|] == a && s[|a|..] == b;
    assert sig[i..i + |a|] == s[..|a|];
    assert sig[i + |a|..i + |a| + |b|] == s[|a|..];
  }

  lemma ReadsLetter(sig: string, i: nat, text: string)
    requires Reads(sig, i, text) && text != []
    ensures i < |sig| && sig[i] == text[0]
  {
    assert sig[i..i + |text|][0] == sig[i];
  }

  /** What the member loop of a struct keeps between members. */
  ghost predicate Members(sig: string, k: nat, all: seq<Flat>, rest: seq<Flat>, off: nat, buf: seq<Byte>, start: nat,
                          p: nat) {
    && start <= p <= |buf| && Reads(sig, k, PrintFlats(rest) + ")") && SupportedFlats(rest)
    && CheckFlats(all, buf, start) == CheckFlats(rest, buf, p)
    && off < 4 && (AllFixed(rest) || (Phase(buf, p, off) && CountsAligned(rest, off)))
  }

  function NextOff(f: Flat, off: nat): nat {
    if f.Fixed? then (off + SizeOf(f.c)) % 4 else 0
  }

  lemma MembersStart(sig: string, i: nat, ms: seq<Flat>, buf: seq<Byte>, p: nat)
    requires SupportedMembers(ms) && Reads(sig, i, PrintElem(Struct(ms))) && p <= |buf| && Ready(Struct(ms), buf, p)
    ensures Members(sig, i + 1, ms, ms, 0, buf, p, p)
  {
    hide Reads, CheckFlats, Phase, CountsAligned, SupportedFlats, AlignOf, PrintFlats;
    assert PrintElem(Struct(ms)) == "(" + (PrintFlats(ms) + ")");
    ReadsSplit(sig, i, "(", PrintFlats(ms) + ")");
  }

  lemma MembersNext(sig: string, k: nat, all: seq<Flat>, rest: seq<Flat>, off: nat, buf: seq<Byte>, start: nat, p: nat)
    requires Members(sig, k, all, rest, off, buf, start, p)
    ensures k < |sig| && (rest == [] <==> sig[k] == ')')
    ensures rest != [] ==>
      && SupportedFlat(rest[0]) && Reads(sig, k, PrintFlat(rest[0])) && Ready(One(rest[0]), buf, p)
      && match CheckFlat(rest[0], buf, p)
         case None => CheckFlats(all, buf, start) == None
         case Some(q) => Members(sig, k + |PrintFlat(rest[0])|, all, rest[1..], NextOff(rest[0], off), buf, start, q)
  {
    hide Reads, CheckFlat, Phase;
    if rest == [] {
      assert PrintFlats(rest) + ")" == ")";
      ReadsLetter(sig, k, ")");
    } else {
      var f := rest[0];
      assert f in rest && forall g :: g in rest[1..] ==> g in rest;
      assert PrintFlats(rest) + ")" == PrintFlat(f) + (PrintFlats(rest[1..]) + ")");
      ReadsSplit(sig, k, PrintFlat(f), PrintFlats(rest[1..]) + ")");
      ReadsLetter(sig, k, PrintFlat(f));
      if CheckFlat(f, buf, p).Some? {
        if !AllFixed(rest) {
          FlatPhase(f, buf, p, off);
        }
      }
    }
  }

  method ValidateStruct(sig: string, i: nat, s: RStm, ghost ms: seq<Flat>) returns (sz: nat, j: nat)
    requires SupportedMembers(ms) && Reads(sig, i, PrintElem(Struct(ms)))
    requires s.p <= |s.buf| == s.end && Ready(Struct(ms), s.buf, s.p)
    modifies s`p
    ensures Validated(Struct(ms), i, s.buf, old(s.p), sz, j, s.p)
    decreases 1, 0
  {
    hide Reads, CheckFlat, CheckFlats, Phase, Members, CountsAligned, PrintFlat, SupportedFlat, SupportedFlats,
      Validated, NextOff, Ready, PrintElem, LettersAlign, AlignOf;
    ghost var start := s.p;
    StructAt(sig, i, ms);
    var sal := SigAlignment(sig, i, ms);
    MembersStart(sig, i, ms, s.buf, s.p);
    j := i + 1;
    sz := 0;
    ghost var rest, off: nat := ms, 0;
    while j < |sig| && sig[j] != ')'
      invariant Members(sig, j, ms, rest, off, s.buf, start, s.p)
      invariant start <= s.p <= |s.buf| == s.end && sz == s.p - start
      invariant j + |PrintFlats(rest)| == i + 1 + |PrintFlats(ms)|
      decreases |rest|
    {
      MembersNext(sig, j, ms, rest, off, s.buf, start, s.p);
      ghost var p := s.p;
      var ssz;
      ghost var k := j;
      PrintOne(rest[0]);
      ssz, j := ValidateSigElement(sig, j, s, One(rest[0]));
      ValidatedMember(rest[0], k, s.buf, p, ssz, j, s.p);
      if ssz == 0 {
        NoStruct(ms, i, s.buf, start, j, s.p);
        return 0, j;
      }
      off := NextOff(rest[0], off);
      rest := rest[1..];
      sz := sz + ssz;
    }
    MembersNext(sig, j, ms, rest, off, s.buf, start, s.p);
    ghost var q := s.p;
    var pad := ReadPadding(s, sz, sal);
    sz := sz + pad;
    StructDone(sig, i, ms, rest, j, off, s.buf, start, q);
  }

  lemma PrintOne(f: Flat)
    ensures PrintElem(One(f)) == PrintFlat(f) && (SupportedElem(One(f)) <==> SupportedFlat(f))
  {
  }

  lemma ValidatedMember(f: Flat, i: nat, buf: seq<Byte>, p: nat, sz: nat, j: nat, q: nat)
    requires SupportedFlat(f) && p <= |buf| && Validated(One(f), i, buf, p, sz, j, q)
    ensures p <= q <= |buf|
    ensures CheckFlat(f, buf, p) == if sz == 0 then None else Some(q)
    ensures sz != 0 ==> sz == q - p && j == i + |PrintFlat(f)|
  {
  }

  lemma NoStruct(ms: seq<Flat>, i: nat, buf: seq<Byte>, p: nat, j: nat, q: nat)
    requires p <= q <= |buf| && CheckFlats(ms, buf, p) == None
    ensures Validated(Struct(ms), i, buf, p, 0, j, q)
  {
  }

  lemma StructDone(sig: string, i: nat, ms: seq<Flat>, rest: seq<Flat>, j: nat, off: nat, buf: seq<Byte>, p: nat,
                   q: nat)
    requires Members(sig, j, ms, rest, off, buf, p, q) && rest == [] && AlignOf(ms) > 0
    requires j == i + 1 + |PrintFlats(ms)|
    ensures var r := SkipPadding(buf, p, q, AlignOf(ms)); Validated(Struct(ms), i, buf, p, r - p, j, r)
  {
  }

  lemma StructAt(sig: string, i: nat, ms: seq<Flat>)
    requires SupportedMembers(ms) && Reads(sig, i, PrintElem(Struct(ms)))
    ensures i < |sig| && sig[i] == '(' && LettersAlign(PrintFlats(ms)) == AlignOf(ms) && SupportedFlats(ms)
    ensures AlignOf(ms) > 0
  {
    StructMembers(sig, i, ms);
    LettersOfMembers(ms);
    assert ms[0] in ms;
  }

  /** The array and string case. */
  method ValidateCounted(sig: string, i: nat, s: RStm, ghost e: Elem) returns (sz: nat, j: nat)
    requires SupportedElem(e) && Reads(sig, i, PrintElem(e)) && i < |sig| && (sig[i] == 'a' || sig[i] == 's')
    requires s.p <= |s.buf| == s.end && Phase(s.buf, s.p, 0) && !e.Struct? && (e.One? ==> !e.f.Fixed?)
    modifies s`p
    ensures Validated(e, i, s.buf, old(s.p), sz, j, s.p)
    decreases Rank(e), 1
  {
    hide Validated, CheckElem, CheckRows, CheckFlat, SkipPadding, Value, Ready, Phase, Reads, PrintElem, PrintFlats,
      PrintFlat, SupportedMembers, LettersAlign, AlignOf, PlainLetter, NoParens;
    ghost var start := s.p;
    CountedCheck(e, s.buf, start);
    if !s.CanRead(4) {
      sz, j := 0, i;
      NotValidated(e, i, s.buf, start, j, s.p);
      return;
    }
    CountAligned(s.buf, s.p);
    var nel := s.ReadPod(4);
    sz := 4;
    var elsz, elal := 1, 4;
    j := i + 1;
    if sig[i] == 'a' {
      ArrayAt(sig, i, e);
      elsz := SigElementSize(sig[j]);
      elal := SigAlignment(sig, j, if e.StructArr? then e.members else []);
      if elal < 4 {
        elal := 4;
      }
    } else {
      StringAt(sig, i, e);
    }
    assert elal == 4;
    if elsz > 0 {
      var fits, skipped := SkipFixed(s, elsz, elal, nel);
      if !fits {
        sz := 0;
        NotValidated(e, i, s.buf, start, j, s.p);
        return;
      }
      sz := sz + skipped;
    } else {
      sz := ValidateRows(sig, j, s, nel, e);
      if sz == 0 {
        NotValidated(e, i, s.buf, start, j, s.p);
        return;
      }
    }
    if sig[j - 1] == 'a' {
      j := SkipOneSigElement(sig, j, if e.StructArr? then PrintFlats(e.members) else "");
    } else {
      s.Unread(1);
      var last := s.ReadPod(1);
      OneByte(s.buf, s.p);
      if last != 0 {
        sz := 0;
        NotValidated(e, i, s.buf, start, j, s.p);
        return;
      }
    }
    var pad := ReadPadding(s, sz, elal);
    sz := sz + pad;
    CountedDone(e, i, s.buf, start, s.p, j);
  }

  /** Skips an array of fixed-size elements at once. */
  method SkipFixed(s: RStm, elsz: nat, elal: nat, nel: nat) returns (fits: bool, skipped: nat)
    requires s.p <= |s.buf| == s.end && s.p % 4 == 0 && elal == 4
    modifies s`p
    ensures skipped == elsz * nel && fits == (old(s.p) + elsz * nel <= |s.buf|)
    ensures s.p == if fits then old(s.p) + skipped else old(s.p)
  {
    hide Ceilg;
    AlignedIsCeil(s.p, 4);
    s.ReadAlign(elal);
    skipped := elsz * nel;
    fits := s.CanRead(skipped);
    if fits {
      s.Skip(skipped);
    }
  }

  lemma OneByte(buf: seq<Byte>, p: nat)
    requires 1 <= p <= |buf|
    ensures Value(buf[p - 1..p]) == buf[p - 1]
  {
    assert buf[p - 1..p] == [buf[p - 1]];
    assert Value([]) == 0;
  }

  lemma NotValidated(e: Elem, i: nat, buf: seq<Byte>, p: nat, j: nat, q: nat)
    requires p <= q <= |buf| && CheckElem(e, buf, p) == None
    ensures Validated(e, i, buf, p, 0, j, q)
  {
  }

  lemma CountedDone(e: Elem, i: nat, buf: seq<Byte>, p: nat, q: nat, j: nat)
    requires p <= q <= |buf| && CheckElem(e, buf, p) == Some(q)
    requires !e.Struct? && (e.One? ==> !e.f.Fixed?)
    requires j == i + match e
                      case One(f) => if f.Str? then 1 else 2
                      case StrArr => 2
                      case StructArr(ms) => |PrintFlats(ms)| + 3
                      case _ => 0
    ensures Validated(e, i, buf, p, q - p, j, q)
  {
  }

  /** The layout check of a counted element, as the code goes about it. */
  lemma CountedCheck(e: Elem, buf: seq<Byte>, p: nat)
    requires p <= |buf| && !e.Struct? && (e.One? ==> !e.f.Fixed?)
    ensures p + 4 > |buf| ==> CheckElem(e, buf, p) == None
    ensures p + 4 <= |buf| ==>
      var n := Value(buf[p..p + 4]);
      if e.One? then
        var end := p + 4 + (if e.f.Str? then 1 else SizeOf(e.f.c)) * n;
        CheckElem(e, buf, p) ==
          if end > |buf| || (e.f.Str? && buf[end - 1] != 0) then None else Some(SkipPadding(buf, p, end, 4))
      else
        CheckElem(e, buf, p) == match CheckRows(MembersOf(e), n, buf, p + 4)
                                case None => None
                                case Some(q) => Some(SkipPadding(buf, p, q, 4))
  {
    match e
    case One(f) => hide SkipPadding, SizeOf, Value;
    case _ => hide SkipPadding, CheckRows, Value;
  }

  /** Validates `nel` array elements, each against the same part of the signature. Returns
      the size with the four bytes of the count, or 0. */
  method ValidateRows(sig: string, j: nat, s: RStm, nel: nat, ghost e: Elem) returns (sz: nat)
    requires e.StrArr? || (e.StructArr? && SupportedMembers(e.members))
    requires Reads(sig, j, PrintElem(RowOf(e))) && s.p <= |s.buf| == s.end && Phase(s.buf, s.p, 0)
    modifies s`p
    ensures old(s.p) <= s.p <= |s.buf|
    ensures match CheckRows(MembersOf(e), nel, s.buf, old(s.p))
            case None => sz == 0
            case Some(q) => s.p == q && sz == 4 + q - old(s.p)
    decreases Rank(e), 0
  {
    hide CheckRows, CheckElem, Reads, PrintElem, Phase, SupportedMembers, AllFixed;
    ghost var start := s.p;
    RowsStep(e, nel, s.buf, start);
    var i := 0;
    sz := 4;
    while i < nel
      invariant i <= nel && start <= s.p <= |s.buf| == s.end && sz == 4 + s.p - start
      invariant CheckRows(MembersOf(e), nel, s.buf, start) == CheckRows(MembersOf(e), nel - i, s.buf, s.p)
      invariant Ready(RowOf(e), s.buf, s.p)
    {
      ghost var p := s.p;
      RowsStep(e, nel - i, s.buf, p);
      var elsz, elsig := ValidateSigElement(sig, j, s, RowOf(e));
      if elsz == 0 {
        return 0;
      }
      RowPhase(e, s.buf, p);
      i := i + 1;
      sz := sz + elsz;
    }
    RowsStep(e, 0, s.buf, s.p);
  }

  /** The rest of the rows, after the next. */
  lemma RowsStep(e: Elem, n: nat, buf: seq<Byte>, p: nat)
    requires (e.StrArr? || e.StructArr?) && p <= |buf|
    ensures n == 0 ==> CheckRows(MembersOf(e), n, buf, p) == Some(p)
    ensures n > 0 && CheckElem(RowOf(e), buf, p).None? ==> CheckRows(MembersOf(e), n, buf, p) == None
    ensures n > 0 && CheckElem(RowOf(e), buf, p).Some? ==>
              var q := CheckElem(RowOf(e), buf, p).value;
              CheckRows(MembersOf(e), n, buf, p) == CheckRows(MembersOf(e), n - 1, buf, q)
  {
    hide CheckStruct, CheckFlat;
  }

  function RowOf(e: Elem): Elem {
    if e.StructArr? then Struct(e.members) else One(Str)
  }

  function MembersOf(e: Elem): Option<seq<Flat>> {
    if e.StructArr? then Some(e.members) else None
  }

  lemma RowPhase(e: Elem, buf: seq<Byte>, p: nat)
    requires e.StrArr? || (e.StructArr? && SupportedMembers(e.members))
    requires p <= |buf| && Ready(RowOf(e), buf, p) && CheckElem(RowOf(e), buf, p).Some?
    ensures Ready(RowOf(e), buf, CheckElem(RowOf(e), buf, p).value)
  {
    if e.StrArr? {
      FlatPhase(Str, buf, p, 0);
    } else if !AllFixed(e.members) {
      CountedAlign(e.members);
      PaddingPhase(buf, p, CheckFlats(e.members, buf, p).value);
    }
  }

  lemma {:induction false} CountedAlign(ms: seq<Flat>)
    ensures !AllFixed(ms) ==> AlignOf(ms) >= 4
    decreases |ms|
  {
    if ms != [] {
      CountedAlign(ms[1..]);
    }
  }

  lemma ArrayAt(sig: string, i: nat, e: Elem)
    requires SupportedElem(e) && Reads(sig, i, PrintElem(e)) && i < |sig| && sig[i] == 'a'
    requires !e.Struct? && (e.One? ==> !e.f.Fixed?)
    ensures i + 1 < |sig| && (PlainLetter(sig[i + 1]) || sig[i + 1] == '(')
    ensures SizeOf('s') == SizeOf('(') == 0
    ensures match e
            case One(f) => f.FixedArr? && sig[i + 1] == f.c && 0 < SizeOf(f.c) <= 4
            case StrArr => sig[i + 1] == 's' && Reads(sig, i + 1, PrintElem(One(Str)))
            case StructArr(ms) =>
              && sig[i + 1] == '(' && Reads(sig, i + 1, PrintElem(Struct(ms))) && NoParens(PrintFlats(ms))
              && Reads(sig, i + 1, "(" + PrintFlats(ms) + ")")
              && SupportedFlats(ms) && LettersAlign(PrintFlats(ms)) == AlignOf(ms) <= 4
  {
    match e
    case One(f) =>
      ReadsSplit(sig, i, "a", [f.c]);
      ReadsLetter(sig, i + 1, [f.c]);
      ReadsLetter(sig, i, PrintElem(e));
    case StrArr =>
      assert PrintElem(e) == "a" + "s";
      ReadsSplit(sig, i, "a", "s");
      ReadsLetter(sig, i + 1, "s");
    case StructArr(ms) => StructArrAt(sig, i, ms);
  }

  lemma StructArrAt(sig: string, i: nat, ms: seq<Flat>)
    requires SupportedMembers(ms) && Reads(sig, i, PrintElem(StructArr(ms)))
    ensures i + 1 < |sig| && sig[i + 1] == '(' && Reads(sig, i + 1, PrintElem(Struct(ms))) && NoParens(PrintFlats(ms))
    ensures Reads(sig, i + 1, "(" + PrintFlats(ms) + ")")
    ensures SupportedFlats(ms) && LettersAlign(PrintFlats(ms)) == AlignOf(ms) <= 4
  {
    assert PrintElem(StructArr(ms)) == "a" + PrintElem(Struct(ms));
    ReadsSplit(sig, i, "a", PrintElem(Struct(ms)));
    StructMembers(sig, i + 1, ms);
    LettersOfMembers(ms);
  }

  lemma StringAt(sig: string, i: nat, e: Elem)
    requires Reads(sig, i, PrintElem(e)) && i < |sig| && sig[i] != 'a'
    requires !e.Struct? && (e.One? ==> !e.f.Fixed?)
    ensures e == One(Str)
  {
    ReadsLetter(sig, i, PrintElem(e));
  }

  method ValidateSigElement(sig: string, i: nat, s: RStm, ghost e: Elem) returns (sz: nat, j: nat)
    requires SupportedElem(e) && Reads(sig, i, PrintElem(e))
    requires s.p <= |s.buf| == s.end && Ready(e, s.buf, s.p)
    modifies s`p
    ensures Validated(e, i, s.buf, old(s.p), sz, j, s.p)
    decreases Rank(e), 2
  {
    ElemAt(sig, i, e);
    sz := SigElementSize(sig[i]);
    if sz > 0 {
      j := i + 1;
      if !s.CanRead(sz) || !s.IsReadAligned(sz) {
        return 0, j;
      }
      s.Skip(sz);
    } else if sig[i] == '(' {
      sz, j := ValidateStruct(sig, i, s, e.members);
    } else {
      sz, j := ValidateCounted(sig, i, s, e);
    }
  }

  lemma ElemAt(sig: string, i: nat, e: Elem)
    requires SupportedElem(e) && Reads(sig, i, PrintElem(e))
    ensures i < |sig|
    ensures match e
            case One(Fixed(c)) => sig[i] == c && SizeOf(c) > 0
            case One(Str) => sig[i] == 's'
            case Struct(_) => sig[i] == '('
            case _ => sig[i] == 'a'
  {
    ReadsLetter(sig, i, PrintElem(e));
  }

  // ------------------------------------------------------------ whole messages

  predicate PlainElems(es: seq<Elem>) {
    forall e :: e in es ==> SupportedElem(e) && !e.Struct?
  }

  /** What the loop over the arguments keeps between arguments. */
  ghost predicate Arguments(sig: string, i: nat, all: seq<Elem>, rest: seq<Elem>, off: nat, buf: seq<Byte>, p: nat) {
    && p <= |buf| && Reads(sig, i, PrintAll(rest)) && i + |PrintAll(rest)| == |sig|
    && CheckAll(all, buf, 0) == CheckAll(rest, buf, p)
    && PlainElems(rest) && CountsAlignedAll(rest, off) && off < 4 && Phase(buf, p, off)
  }

  lemma ArgumentsNext(sig: string, i: nat, all: seq<Elem>, rest: seq<Elem>, off: nat, buf: seq<Byte>, p: nat)
    requires Arguments(sig, i, all, rest, off, buf, p)
    ensures i <= |sig| && (i == |sig| <==> rest == [])
    ensures rest == [] ==> CheckAll(all, buf, 0) == Some(p)
    ensures rest != [] ==>
      && SupportedElem(rest[0]) && Reads(sig, i, PrintElem(rest[0])) && Ready(rest[0], buf, p) && !rest[0].Struct?
      && match CheckElem(rest[0], buf, p)
         case None => CheckAll(all, buf, 0) == None
         case Some(q) => Arguments(sig, i + |PrintElem(rest[0])|, all, rest[1..], NextOffElem(rest[0], off), buf, q)
  {
    hide CheckElem, Phase, Reads, SupportedElem, SizeOf, CountsAlignedAll, NextOffElem, PrintElem;
    if rest != [] {
      var e := rest[0];
      assert e in rest && forall x :: x in rest[1..] ==> x in rest;
      ReadsSplit(sig, i, PrintElem(e), PrintAll(rest[1..]));
      OffBound(e, off);
      CountsBehindFirst(rest, off);
      if CheckElem(e, buf, p).Some? {
        ElemPhase(e, buf, p, off);
      }
    }
  }

  lemma CountsBehindFirst(es: seq<Elem>, off: nat)
    requires es != [] && CountsAlignedAll(es, off)
    ensures CountsAlignedAll(es[1..], NextOffElem(es[0], off)) && ((es[0].One? && es[0].f.Fixed?) || off == 0)
  {
    hide SizeOf;
  }

  function NextOffElem(e: Elem, off: nat): nat {
    if e.One? && e.f.Fixed? then (off + SizeOf(e.f.c)) % 4 else 0
  }

  lemma ElemPhase(e: Elem, buf: seq<Byte>, p: nat, off: nat)
    requires SupportedElem(e) && !e.Struct? && off < 4 && Phase(buf, p, off)
    requires (e.One? && e.f.Fixed?) || off == 0
    requires CheckElem(e, buf, p).Some?
    ensures Phase(buf, CheckElem(e, buf, p).value, NextOffElem(e, off))
  {
    if e.One? {
      FlatPhase(e.f, buf, p, off);
    } else {
      PaddingPhase(buf, p, CheckRows(MembersOf(e), Value(buf[p..p + 4]), buf, p + 4).value);
    }
  }

  /** `casymsg_validate_signature`: the bytes the arguments take in the body, or 0. It reads only
      inside the body and never a misaligned count, whatever the bytes are. */
  method ValidateSignature(sig: string, body: seq<Byte>, ghost es: seq<Elem>) returns (sz: nat)
    requires sig == PrintAll(es) && SupportedSignature(es)
    ensures sz <= |body|
    ensures sz == match CheckAll(es, body, 0) case None => 0 case Some(q) => q
  {
    hide CheckElem, CheckAll, SupportedElem, Ready, Reads, NextOffElem, Arguments, Validated, PrintElem;
    var s := new RStm(body, |body|);
    sz := 0;
    var i := 0;
    ghost var rest, off: nat := es, 0;
    ArgumentsStart(sig, body, es);
    while i < |sig|
      invariant 0 <= i && Arguments(sig, i, es, rest, off, body, s.p) && s.p == sz <= |body|
      decreases |rest|
    {
      ArgumentsNext(sig, i, es, rest, off, body, s.p);
      ghost var p, k := s.p, i;
      var elsz;
      elsz, i := ValidateSigElement(sig, i, s, rest[0]);
      ElemValidated(rest[0], k, body, p, elsz, i, s.p);
      if elsz == 0 {
        return 0;
      }
      off := NextOffElem(rest[0], off);
      rest := rest[1..];
      sz := sz + elsz;
    }
    ArgumentsNext(sig, i, es, rest, off, body, s.p);
  }

  lemma OffBound(e: Elem, off: nat)
    ensures NextOffElem(e, off) < 4
  {
  }

  lemma ArgumentsStart(sig: string, body: seq<Byte>, es: seq<Elem>)
    requires sig == PrintAll(es) && SupportedSignature(es)
    ensures Arguments(sig, 0, es, es, 0, body, 0)
  {
    assert sig[0..|sig|] == sig;
  }

  lemma ElemValidated(e: Elem, i: nat, buf: seq<Byte>, p: nat, sz: nat, j: nat, q: nat)
    requires SupportedElem(e) && !e.Struct? && p <= |buf| && Validated(e, i, buf, p, sz, j, q)
    ensures p <= q <= |buf| && (CheckElem(e, buf, p) == if sz == 0 then None else Some(q))
    ensures sz != 0 ==> sz == q - p && j == i + |PrintElem(e)|
  {
  }

  // ----------------------------------------------------------------- body sizes

  const MESSAGE_BODY_ALIGNMENT := 8

  /** The size check of `Extern_validate_message` on a body that was padded for sending: the size
      of the arguments, or None when the message is invalid. */
  method RecoverSize(sig: string, body: seq<Byte>, ghost es: seq<Elem>) returns (size: Option<nat>)
    requires sig == PrintAll(es) && SupportedSignature(es)
    ensures size == RecoveredSize(es, body)
    ensures match CheckAll(es, body, 0)
            case Some(q) => size == if |body| % 8 == 0 && q <= |body| < q + 8 then Some(q) else None
            case None => size == if body == [] then Some(0) else None
  {
    if CheckAll(es, body, 0).Some? {
      SizeTest(es, body);
    }
    var vmsize := ValidateSignature(sig, body, es);
    if Ceilg(vmsize, MESSAGE_BODY_ALIGNMENT) != |body| {
      return None;
    }
    return Some(vmsize);
  }

  /** The end of the layout check when that rounds up to the size received. A failed check is
      taken for size zero, and so an empty body passes. */
  function RecoveredSize(es: seq<Elem>, body: seq<Byte>): Option<nat> {
    match CheckAll(es, body, 0)
    case Some(q) => if Ceilg(q, MESSAGE_BODY_ALIGNMENT) == |body| then Some(q) else None
    case None => if body == [] then Some(0) else None
  }

  /** A body that holds its arguments is taken if and only if it is padded to a multiple of eight, by fewer than
      eight bytes, and then with the size of the arguments. */
  lemma SizeTest(es: seq<Elem>, body: seq<Byte>)
    requires CheckAll(es, body, 0).Some?
    ensures var q := CheckAll(es, body, 0).value;
            RecoveredSize(es, body) == if |body| % 8 == 0 && q <= |body| < q + 8 then Some(q) else None
  {
    hide Ceilg, CheckAll;
    CeilingOfBody(CheckAll(es, body, 0).value);
  }

  /** A body that is not the layout of the arguments, or has eight bytes or more behind it, is refused,
      unless it is empty. */
  lemma SurplusRefused(es: seq<Elem>, body: seq<Byte>)
    requires body != []
    ensures RecoveredSize(es, body).Some? <==>
            CheckAll(es, body, 0).Some? && |body| % 8 == 0 && |body| < CheckAll(es, body, 0).value + 8
  {
    if CheckAll(es, body, 0).Some? {
      SizeTest(es, body);
    }
  }

  /** A body is let through that is not the layout of the signature if and only if it
      is empty and the signature is not. */
  lemma AcceptedUnchecked(es: seq<Elem>, body: seq<Byte>)
    requires SupportedSignature(es)
    ensures RecoveredSize(es, body).Some? && CheckAll(es, body, 0).None? <==> es != [] && body == []
    ensures body != [] && RecoveredSize(es, body).Some? ==> CheckAll(es, body, 0) == RecoveredSize(es, body)
  {
    hide CheckElem, SupportedElem;
    if es != [] && body == [] {
      assert es[0] in es && SupportedElem(es[0]);
      assert CheckElem(es[0], body, 0).None?;
    }
  }

  /** A method with one argument, called without. */
  lemma EmptyBodyExample()
    ensures RecoveredSize([One(Fixed('u'))], []) == Some(0) && CheckAll([One(Fixed('u'))], [], 0) == None
  {
  }

  /** A body that the writers made is accepted after padding for the wire, with its own size, exactly
      when its fixed-size fields are aligned; otherwise the message is refused. */
  lemma SizeRecovery(es: seq<Elem>, vs: seq<Val>)
    requires SupportedSignature(es) && TypedAll(es, vs)
    ensures RecoveredSize(es, Padded(EncodeAll(es, vs), 8))
         == if AlignedAll(es, vs, 0) then Some(|EncodeAll(es, vs)|) else None
  {
    var body := EncodeAll(es, vs);
    RoundTrip(es, vs, Zeros(Ceilg(|body|, 8) - |body|));
    if !AlignedAll(es, vs, 0) {
      UnalignedIsNotEmpty(es, vs);
    }
  }

  lemma UnalignedIsNotEmpty(es: seq<Elem>, vs: seq<Val>)
    requires SupportedSignature(es) && TypedAll(es, vs) && !AlignedAll(es, vs, 0)
    ensures EncodeAll(es, vs) != []
  {
    assert es[0] in es && Typed(es[0], vs[0]) && SupportedElem(es[0]);
    if es[0].One? && es[0].f.Str? {
      TextSize(vs[0].v.s);
    }
  }

  /** The bytes of a string or array before its padding. */
  function Unpadded(f: Flat, v: FlatVal): seq<Byte>
    requires TypedFlat(f, v) && !f.Fixed?
  {
    match f
    case Str => if v.s == [] then LittleEndian(0, 4) else LittleEndian(|v.s| + 1, 4) + v.s + [0]
    case FixedArr(c) => LittleEndian(|v.ns|, 4) + EncodeNums(v.ns, SizeOf(c))
  }

  lemma PaddedTail(f: Flat, v: FlatVal)
    requires TypedFlat(f, v) && !f.Fixed?
    ensures EncodeFlat(f, v) == Padded(Unpadded(f, v), 4) && 4 <= |Unpadded(f, v)|
  {
    if f.Str? && v.s == [] {
      assert Padded(LittleEndian(0, 4), 4) == LittleEndian(0, 4);
    }
  }

  /** A sender may stop a body at the end of its last string or array: its own size check accepts that.
      The receiver then takes the padding of the wire for that of the element, so it recovers a size
      rounded up to four, that of the sender exactly when there was no padding to leave out. */
  lemma ShortBody(es: seq<Elem>, vs: seq<Val>, f: Flat, v: FlatVal)
    requires SupportedSignature(es + [One(f)]) && SupportedFlat(f) && !f.Fixed?
    requires TypedAll(es, vs) && TypedFlat(f, v) && AlignedAll(es, vs, 0)
    ensures CheckAll(es + [One(f)], EncodeAll(es, vs) + Unpadded(f, v), 0) == Some(|EncodeAll(es, vs) + Unpadded(f, v)|)
    ensures RecoveredSize(es + [One(f)], Padded(EncodeAll(es, vs) + Unpadded(f, v), 8))
         == Some(Ceilg(|EncodeAll(es, vs) + Unpadded(f, v)|, 4))
  {
    hide CheckAll, EncodeAll, Unpadded, CheckFlat, AlignedAll, TypedAll, TypedFlat, SupportedFlat,
      SupportedSignature, CountsAlignedAll;
    var front, tail := EncodeAll(es, vs), Unpadded(f, v);
    var sent := front + tail;
    SupportedParts(es, One(f));
    assert sent[0..|front|] == front && sent[|front|..] == tail;
    AcceptAll(es, vs, sent, 0);
    ShortFlat(f, v, sent, |front|);
    CheckAllConcat(es, One(f), sent, 0);
    SignatureGrain(es, vs, f, 0);
    LongTail(es, vs, f, v);
  }

  lemma LongTail(es: seq<Elem>, vs: seq<Val>, f: Flat, v: FlatVal)
    requires PlainElems(es) && SupportedFlat(f) && !f.Fixed?
    requires TypedAll(es, vs) && TypedFlat(f, v) && AlignedAll(es, vs, 0) && |EncodeAll(es, vs)| % 4 == 0
    ensures RecoveredSize(es + [One(f)], Padded(EncodeAll(es, vs) + Unpadded(f, v), 8))
         == Some(Ceilg(|EncodeAll(es, vs) + Unpadded(f, v)|, 4))
  {
    hide CheckAll, EncodeAll, Unpadded, CheckFlat, AlignedAll, TypedAll, TypedFlat, SupportedFlat, EncodeFlat, At,
      Ceilg;
    var front, tail := EncodeAll(es, vs), Unpadded(f, v);
    var wire := Padded(front + tail, 8);
    PaddedTail(f, v);
    PadOfMultiple(|front|, |tail|);
    WireTail(front, tail);
    AcceptAll(es, vs, wire, 0);
    AcceptFlat(f, v, wire, |front|);
    CheckAllConcat(es, One(f), wire, 0);
    TwoCeilings(|front + tail|);
  }

  lemma TwoCeilings(n: nat)
    ensures Ceilg(Ceilg(n, 4), 8) == Ceilg(n, 8)
  {
    hide Ceilg;
    CeilingOfWord(n);
    CeilingOfBody(n);
    CeilingOfBody(Ceilg(n, 4));
  }

  lemma WireTail(front: seq<Byte>, tail: seq<Byte>)
    requires |front| % 4 == 0
    ensures At(Padded(front + tail, 8), 0, front) && At(Padded(front + tail, 8), |front|, Padded(tail, 4))
  {
    var wire := Padded(front + tail, 8);
    PadOfMultiple(|front|, |tail|);
    TwoCeilings(|front + tail|);
    assert wire[0..|front|] == front;
    assert wire[|front|..|front| + Ceilg(|tail|, 4)] == Padded(tail, 4);
  }

  lemma ShortFlat(f: Flat, v: FlatVal, buf: seq<Byte>, p: nat)
    requires SupportedFlat(f) && !f.Fixed? && TypedFlat(f, v)
    requires p + |Unpadded(f, v)| == |buf| && buf[p..] == Unpadded(f, v)
    ensures p <= |buf| && CheckFlat(f, buf, p) == Some(|buf|)
  {
    hide SkipPadding, SizeOf, LittleEndian, Ceilg;
    var tail := Unpadded(f, v);
    var n := if f.Str? then (if v.s == [] then 0 else |v.s| + 1) else |v.ns|;
    ValueOfLittleEndian(n, 4);
    assert buf[p..p + 4] == tail[..4] == LittleEndian(n, 4);
    PaddingMissing(buf, p);
    if f.Str? {
      assert buf[|buf| - 1] == tail[|tail| - 1];
      ZeroWord();
    }
  }

  lemma PaddingMissing(buf: seq<Byte>, p: nat)
    requires p <= |buf|
    ensures SkipPadding(buf, p, |buf|, 4) == |buf|
  {
  }

  lemma {:induction false} CheckAllConcat(es: seq<Elem>, e: Elem, buf: seq<Byte>, p: nat)
    requires p <= |buf|
    ensures CheckAll(es + [e], buf, p)
         == match CheckAll(es, buf, p) case None => None case Some(q) => CheckElem(e, buf, q)
    decreases |es|
  {
    hide CheckElem;
    if es == [] {
      assert es + [e] == [e] && [e][1..] == [];
      var q := CheckElem(e, buf, p);
      assert q.Some? ==> CheckAll([], buf, q.value) == q;
    } else {
      assert (es + [e])[0] == es[0] && (es + [e])[1..] == es[1..] + [e];
      if CheckElem(es[0], buf, p).Some? {
        CheckAllConcat(es[1..], e, buf, CheckElem(es[0], buf, p).value);
      }
    }
  }

  lemma SupportedParts(es: seq<Elem>, e: Elem)
    requires SupportedSignature(es + [e])
    ensures PlainElems(es) && CountsAlignedAll(es + [e], 0)
  {
    assert forall x :: x in es ==> x in es + [e];
  }

  /** With a count behind them, the elements of a supported signature end at a multiple of four. */
  lemma {:induction false} SignatureGrain(es: seq<Elem>, vs: seq<Val>, f: Flat, off: nat)
    requires TypedAll(es, vs) && off < 4 && !f.Fixed? && CountsAlignedAll(es + [One(f)], off) && PlainElems(es)
    ensures (off + |EncodeAll(es, vs)|) % 4 == 0
    decreases |es|
  {
    hide EncodeAll, EncodeElem, CountsAlignedAll, TypedAll, PlainElems, NextOffElem;
    GrainUnfold(es, vs, f, off);
    if es != [] {
      var rest := |EncodeAll(es[1..], vs[1..])|;
      SignatureGrain(es[1..], vs[1..], f, NextOffElem(es[0], off));
      GrainSum(off, |EncodeElem(es[0], vs[0])|, rest);
    }
  }

  lemma GrainSum(off: nat, a: nat, b: nat)
    requires ((off + a) % 4 + b) % 4 == 0
    ensures (off + (a + b)) % 4 == 0
  {
  }

  lemma GrainUnfold(es: seq<Elem>, vs: seq<Val>, f: Flat, off: nat)
    requires TypedAll(es, vs) && off < 4 && !f.Fixed? && CountsAlignedAll(es + [One(f)], off) && PlainElems(es)
    ensures |es| == |vs|
    ensures es == [] ==> off == 0 && EncodeAll(es, vs) == []
    ensures es != [] ==>
      && Typed(es[0], vs[0]) && TypedAll(es[1..], vs[1..]) && PlainElems(es[1..])
      && |EncodeAll(es, vs)| == |EncodeElem(es[0], vs[0])| + |EncodeAll(es[1..], vs[1..])|
      && NextOffElem(es[0], off) == (off + |EncodeElem(es[0], vs[0])|) % 4
      && CountsAlignedAll(es[1..] + [One(f)], NextOffElem(es[0], off))
  {
    hide SizeOf, EncodeElem, SupportedElem, CountsAlignedAll, NextOffElem;
    CountsBehind(es, f, off);
    if es != [] {
      assert es[0] in es && Typed(es[0], vs[0]) && forall e :: e in es[1..] ==> e in es;
      ElemGrain(es[0], vs[0], off);
    }
  }

  lemma CountsBehind(es: seq<Elem>, f: Flat, off: nat)
    requires !f.Fixed? && CountsAlignedAll(es + [One(f)], off)
    ensures es == [] ==> off == 0
    ensures es != [] ==> ((es[0].One? && es[0].f.Fixed?) || off == 0)
    ensures es != [] ==> CountsAlignedAll(es[1..] + [One(f)], NextOffElem(es[0], off))
  {
    hide SizeOf;
    if es == [] {
      assert (es + [One(f)])[0] == One(f);
    } else {
      assert (es + [One(f)])[0] == es[0] && (es + [One(f)])[1..] == es[1..] + [One(f)];
    }
  }

  lemma ElemGrain(e: Elem, v: Val, off: nat)
    requires Typed(e, v) && !e.Struct? && off < 4 && ((e.One? && e.f.Fixed?) || off == 0)
    ensures NextOffElem(e, off) == (off + |EncodeElem(e, v)|) % 4
  {
    if e.One? && e.f.Str? {
      TextSize(v.v.s);
    }
  }
}
