/**
 * The handshake of a connection (xcom.c): each side sends the names of the interfaces that it exports as one
 * string, and the other side looks for them among those it imports.
 */
module Exports {
  import opened Bytes
  import opened Headers

  const COMMA: Byte := 44

  /** The names of interfaces are C identifiers. */
  predicate IsName(s: seq<Byte>) {
    s != [] && CString(s) && COMMA !in s
  }

  predicate AllNames(names: seq<seq<Byte>>) {
    forall s :: s in names ==> IsName(s)
  }

  function Joined(names: seq<seq<Byte>>): seq<Byte> {
    if names == [] then [] else if |names| == 1 then names[0] else names[0] + [COMMA] + Joined(names[1..])
  }

  /** The list that `Extern_Extern_open` sends: every name with a comma behind it, and then without the last comma. */
  method ExportList(exported: seq<seq<Byte>>) returns (list: seq<Byte>)
    ensures list == Joined(exported)
  {
    list := [];
    for ei := 0 to |exported|
      invariant list == if ei == 0 then [] else Joined(exported[..ei]) + [COMMA]
    {
      JoinedOneMore(exported[..ei], exported[ei]);
      assert exported[..ei + 1] == exported[..ei] + [exported[ei]];
      list := list + exported[ei] + [COMMA];
    }
    assert exported[..|exported|] == exported;
    if |list| > 0 {
      list := list[..|list| - 1];
    }
  }

  lemma {:induction false} JoinedOneMore(names: seq<seq<Byte>>, name: seq<Byte>)
    ensures Joined(names + [name]) == if names == [] then name else Joined(names) + [COMMA] + name
    decreases |names|
  {
    var more := names + [name];
    if |names| > 0 {
      assert more[1..] == names[1..] + [name];
      JoinedOneMore(names[1..], name);
      if |names| == 1 {
        assert more[1..] == [name];
      } else {
        assert names[0] + [COMMA] + (Joined(names[1..]) + [COMMA] + name) == Joined(names) + [COMMA] + name;
      }
    }
  }

  /** Where the first name of a list ends. */
  function FirstEnd(list: seq<Byte>): (n: nat)
    ensures n <= |list| && COMMA !in list[..n] && (n < |list| ==> list[n] == COMMA)
  {
    if list == [] || list[0] == COMMA then 0
    else
      var n := 1 + FirstEnd(list[1..]);
      assert list[..n] == [list[0]] + list[1..][..n - 1];
      n
  }

  lemma {:induction false} EndIsUnique(list: seq<Byte>, k: nat)
    requires k <= |list| && COMMA !in list[..k] && (k < |list| ==> list[k] == COMMA)
    ensures k == FirstEnd(list)
    decreases k
  {
    if k > 0 {
      assert list[0] == list[..k][0];
      assert list[1..][..k - 1] == list[..k][1..];
      EndIsUnique(list[1..], k - 1);
    }
  }

  /** The imported interfaces whose name begins with `s`, in order. */
  function Beginning(imported: seq<seq<Byte>>, s: seq<Byte>, n: nat): (r: seq<nat>)
    requires n <= |imported|
    ensures forall i :: i in r <==> 0 <= i < n && s <= imported[i]
    ensures forall j, k :: 0 <= j < k < |r| ==> r[j] < r[k]
  {
    if n == 0 then []
    else
      var before := Beginning(imported, s, n - 1);
      assert forall j :: 0 <= j < |before| ==> before[j] in before;
      before + if s <= imported[n - 1] then [n - 1] else []
  }

  /** `strncmp` with a string that has no terminator in its first `|s|` bytes. */
  predicate SameStart(name: seq<Byte>, s: seq<Byte>) {
    |s| <= |name| && name[..|s|] == s
  }

  lemma NoNameBegins(name: seq<Byte>, s: seq<Byte>)
    requires IsName(name) && s != [] && s[0] == COMMA
    ensures !(s <= name)
  {
    assert name[0] in name;
  }

  lemma NothingBegins(imported: seq<seq<Byte>>, s: seq<Byte>)
    requires AllNames(imported) && s != [] && s[0] == COMMA
    ensures Beginning(imported, s, |imported|) == []
  {
    hide Beginning, IsName;
    var r := Beginning(imported, s, |imported|);
    if r != [] {
      assert r[0] in r;
      NoNameBegins(imported[r[0]], s);
    }
  }

  method FindBeginning(imported: seq<seq<Byte>>, s: seq<Byte>) returns (found: seq<nat>)
    ensures found == Beginning(imported, s, |imported|)
  {
    found := [];
    for iii := 0 to |imported|
      invariant found == Beginning(imported, s, iii)
    {
      if SameStart(imported[iii], s) {
        found := found + [iii];
      }
    }
  }

  /** `Extern_COM_export`: takes the list apart at its commas and compares each piece with the start of every imported
      name. Each piece but the first begins with its comma, so only the first name of the list finds anything. */
  method ComExport(list: seq<Byte>, imported: seq<seq<Byte>>) returns (found: seq<nat>)
    requires AllNames(imported)
    ensures found == if list == [] then [] else Beginning(imported, list[..FirstEnd(list)], |imported|)
  {
    hide Beginning, AllNames;
    found := [];
    var iname, ilist := 0, 0;
    ghost var past := false;
    while iname < |list|
      invariant iname <= |list| && iname <= ilist && (iname < |list| ==> ilist <= |list|)
      invariant !past ==> iname == 0 && ilist <= FirstEnd(list) && found == []
      invariant past ==> found == Beginning(imported, list[..FirstEnd(list)], |imported|)
      invariant past && iname < |list| ==> list[iname] == COMMA && iname < ilist
      invariant iname == |list| ==> past || list == []
      invariant list == [] ==> !past
      decreases |list| + 1 - ilist
    {
      if ilist == |list| || list[ilist] == COMMA {
        var more := FindBeginning(imported, list[iname..ilist]);
        if past {
          NothingBegins(imported, list[iname..ilist]);
        } else {
          assert forall i :: 0 <= i < ilist ==> list[..ilist][i] == list[..FirstEnd(list)][i];
          EndIsUnique(list, ilist);
          assert list[0..ilist] == list[..ilist];
        }
        found := found + more;
        iname := ilist;
        past := true;
      }
      ilist := ilist + 1;
    }
  }

  // --------------------------------------------------------------------- agreement

  lemma FirstOfList(exported: seq<seq<Byte>>)
    requires exported != [] && AllNames(exported)
    ensures Joined(exported) != [] && Joined(exported)[..FirstEnd(Joined(exported))] == exported[0]
  {
    var name, list := exported[0], Joined(exported);
    assert name in exported && IsName(name) && list[..|name|] == name;
    EndIsUnique(list, |name|);
  }

  /** What a side finds of the other's exports: the imported interfaces whose names begin with the first of them. That
      is what is exported exactly when the names are agreeable. */
  method Handshake(exported: seq<seq<Byte>>, imported: seq<seq<Byte>>) returns (found: seq<nat>)
    requires AllNames(exported) && AllNames(imported)
    ensures forall i :: i in found <==> 0 <= i < |imported| && exported != [] && exported[0] <= imported[i]
    ensures forall j, k :: 0 <= j < k < |found| ==> found[j] < found[k]
    ensures (forall i :: 0 <= i < |imported| ==> (i in found <==> imported[i] in exported))
       <==> Agreeable(exported, imported)
  {
    var list := ExportList(exported);
    found := ComExport(list, imported);
    hide Beginning;
    if exported != [] {
      FirstOfList(exported);
      assert exported[0] in exported;
    }
  }

  /** docs/protocol.html means all the names of the list. They are all found, and nothing else, if and only if
      besides the first of them just those imported interfaces are exported whose names begin with it. */
  predicate Agreeable(exported: seq<seq<Byte>>, imported: seq<seq<Byte>>) {
    exported == [] || forall x :: x in imported && x != exported[0] ==> (x in exported <==> exported[0] <= x)
  }

  /** Two interfaces, A and B, are exported, and B is imported: it is not found. */
  lemma SecondNameIsLost()
    ensures AllNames([[65], [66]]) && AllNames([[66]]) && !Agreeable([[65], [66]], [[66]])
  {
    var exported: seq<seq<Byte>>, b: seq<Byte> := [[65], [66]], [66];
    assert exported[1] == b && b in exported && b in [b];
    assert exported[0][0] != b[0] && !(exported[0] <= b);
  }
}
