/** Byte-pair encoding of whole strings (model/bytepairencoding.go): special tokens are cut out, bytes become
    printable runes, and decoding gives the string back. */
module BpeEncode {
  import opened Strings
  import opened Vocabularies

  /** Go strings are byte sequences. */
  type Bytes = seq<int>

  // ---------- UTF-8 ----------

  function Utf8Rune(r: Rune): (b: Bytes)
    ensures 1 <= |b| <= 4 && (r < 0x80 ==> b == [r]) && (r >= 0x80 ==> |b| >= 2 && b[0] >= 0x80)
  {
    if r < 0x80 then [r]
    else if r < 0x800 then [0xC0 + r / 64, 0x80 + r % 64]
    else if r < 0x1_0000 then [0xE0 + r / 4096, 0x80 + r / 64 % 64, 0x80 + r % 64]
    else [0xF0 + r / 262144, 0x80 + r / 4096 % 64, 0x80 + r / 64 % 64, 0x80 + r % 64]
  }

  /** Section 3 of RFC 3629: the first byte says how many follow, each of those carries six bits behind the mark 10, and
      all bits together are the rune. */
  lemma Utf8Exact(r: Rune)
    requires 0 <= r < 0x11_0000
    ensures var b := Utf8Rune(r);
            && |b| == (if r <= 0x7F then 1 else if r <= 0x7FF then 2 else if r <= 0xFFFF then 3 else 4)
            && (forall i :: 1 <= i < |b| ==> 0x80 <= b[i] <= 0xBF)
            && (|b| == 1 ==> b[0] == r)
            && (|b| == 2 ==> 0xC0 <= b[0] <= 0xDF && (b[0] - 0xC0) * 64 + (b[1] - 0x80) == r)
            && (|b| == 3 ==> 0xE0 <= b[0] <= 0xEF && ((b[0] - 0xE0) * 64 + (b[1] - 0x80)) * 64 + (b[2] - 0x80) == r)
            && (|b| == 4 ==> 0xF0 <= b[0] <= 0xF4
                             && (((b[0] - 0xF0) * 64 + (b[1] - 0x80)) * 64 + (b[2] - 0x80)) * 64 + (b[3] - 0x80) == r)
  {
    assert r / 4096 == r / 64 / 64 && r / 262144 == r / 64 / 64 / 64;
  }

  function Utf8(t: Text): (b: Bytes)
    ensures |b| >= |t|
  {
    if t == [] then [] else Utf8Rune(t[0]) + Utf8(t[1..])
  }

  predicate Ascii(s: seq<int>) { forall i :: 0 <= i < |s| ==> 0 <= s[i] < 128 }

  // ---------- Cutting out special tokens ----------

  /** A piece of the input; special tokens carry their id, text has none. */
  datatype Fragment = Fragment(value: Bytes, ids: seq<int>)

  function Values(fs: seq<Fragment>): Bytes {
    if fs == [] then [] else fs[0].value + Values(fs[1..])
  }

  /** The fragments of a text around every occurrence of one special token, left to right. */
  function Cut(value: Bytes, special: Bytes, id: int): seq<Fragment>
    requires special != []
    decreases |value|
  {
    var i := Index(value, special);
    if i < 0 then [Fragment(value, [])]
    else
      var rest := value[i + |special|..];
      (if i > 0 then [Fragment(value[..i], [])] else [])
      + [Fragment(special, [id])]
      + (if rest != [] then Cut(rest, special, id) else [])
  }

  function CutAll(fs: seq<Fragment>, special: Bytes, id: int): seq<Fragment>
    requires special != []
  {
    if fs == [] then []
    else (if fs[0].ids != [] then [fs[0]] else Cut(fs[0].value, special, id)) + CutAll(fs[1..], special, id)
  }

  lemma {:induction false} CutAllAppend(a: seq<Fragment>, b: seq<Fragment>, special: Bytes, id: int)
    requires special != []
    ensures CutAll(a + b, special, id) == CutAll(a, special, id) + CutAll(b, special, id)
  {
    if a == [] {
      assert a + b == b;
    } else {
      assert (a + b)[1..] == a[1..] + b;
      CutAllAppend(a[1..], b, special, id);
    }
  }

  lemma {:induction false} ValuesAppend(a: seq<Fragment>, b: seq<Fragment>)
    ensures Values(a + b) == Values(a) + Values(b)
  {
    if a == [] {
      assert a + b == b;
    } else {
      assert (a + b)[1..] == a[1..] + b;
      ValuesAppend(a[1..], b);
    }
  }

  function RestOf(rest: Bytes): seq<Fragment> { if rest != [] then [Fragment(rest, [])] else [] }

  lemma RestOfCut(rest: Bytes, special: Bytes, id: int)
    requires special != []
    ensures Values(RestOf(rest)) == rest
    ensures CutAll(RestOf(rest), special, id) == if rest != [] then Cut(rest, special, id) else []
  {
    if rest != [] {
      assert RestOf(rest)[1..] == [];
      assert CutAll([], special, id) == [] && Values([]) == [];
    }
  }

  /** What replaces the fragment at hand in the loop. */
  function Middle(f: Fragment, special: Bytes, id: int): (m: seq<Fragment>)
    requires special != []
    ensures m != []
  {
    var i := Index(f.value, special);
    if i < 0 then [f]
    else if i == 0 then [Fragment(special, [id])] + RestOf(f.value[|special|..])
    else [Fragment(f.value[..i], []), Fragment(special, [id])] + RestOf(f.value[i + |special|..])
  }

  /** The first fragment of the replacement is done; cutting the others gives the cut of the whole. */
  lemma MiddleCut(f: Fragment, special: Bytes, id: int)
    requires special != [] && f.ids == []
    ensures [Middle(f, special, id)[0]] + CutAll(Middle(f, special, id)[1..], special, id) == Cut(f.value, special, id)
    ensures Middle(f, special, id)[1..] == [] || |Values(Middle(f, special, id)[1..])| < |f.value|
  {
    hide Cut, CutAll, Values;
    var i := Index(f.value, special);
    if i < 0 {
      MiddleNone(f, special, id);
    } else if i == 0 {
      MiddleFirst(f, special, id);
    } else {
      MiddleCutInside(f, special, id, i);
      MiddleSmall(f, special, id, i);
    }
  }

  lemma MiddleNone(f: Fragment, special: Bytes, id: int)
    requires special != [] && f.ids == [] && Index(f.value, special) < 0
    ensures [Middle(f, special, id)[0]] + CutAll(Middle(f, special, id)[1..], special, id) == Cut(f.value, special, id)
    ensures Middle(f, special, id)[1..] == []
  {
    assert f == Fragment(f.value, []);
  }

  lemma MiddleFirst(f: Fragment, special: Bytes, id: int)
    requires special != [] && f.ids == [] && Index(f.value, special) == 0
    ensures [Middle(f, special, id)[0]] + CutAll(Middle(f, special, id)[1..], special, id) == Cut(f.value, special, id)
    ensures |Values(Middle(f, special, id)[1..])| < |f.value|
  {
    hide Cut, CutAll, Values;
    var rest := f.value[|special|..];
    assert Middle(f, special, id)[1..] == RestOf(rest);
    RestOfCut(rest, special, id);
    CutShape(f.value, special, id);
  }

  lemma MiddleShape(f: Fragment, special: Bytes, id: int, i: int)
    requires special != [] && i == Index(f.value, special) > 0
    ensures var m := Middle(f, special, id);
            m[0] == Fragment(f.value[..i], []) && m[1..] == [Fragment(special, [id])] + RestOf(f.value[i + |special|..])
  {
  }

  lemma MiddleCutInside(f: Fragment, special: Bytes, id: int, i: int)
    requires special != [] && f.ids == [] && i == Index(f.value, special) > 0
    ensures [Middle(f, special, id)[0]] + CutAll(Middle(f, special, id)[1..], special, id) == Cut(f.value, special, id)
  {
    hide Cut, CutAll;
    var h, spec, rest := Fragment(f.value[..i], []), Fragment(special, [id]), f.value[i + |special|..];
    var c := if rest != [] then Cut(rest, special, id) else [];
    assert CutAll([spec] + RestOf(rest), special, id) == [spec] + c by {
      ConsCut(spec, RestOf(rest), special, id);
      RestOfCut(rest, special, id);
    }
    assert Cut(f.value, special, id) == [h] + [spec] + c by {
      CutShape(f.value, special, id);
    }
    MiddleShape(f, special, id, i);
    Regroup([], h, [spec], c);
  }

  lemma MiddleSmall(f: Fragment, special: Bytes, id: int, i: int)
    requires special != [] && i == Index(f.value, special) > 0
    ensures |Values(Middle(f, special, id)[1..])| < |f.value|
  {
    var spec, rest := Fragment(special, [id]), f.value[i + |special|..];
    MiddleShape(f, special, id, i);
    ConsCut(spec, RestOf(rest), special, id);
    RestOfCut(rest, special, id);
  }

  /** The loop is at fragment i: what is before i is done. */
  ghost predicate CutTo(fs: seq<Fragment>, fragments: seq<Fragment>, i: int, special: Bytes, id: int)
    requires special != []
  {
    0 <= i <= |fragments| && fragments[..i] + CutAll(fragments[i..], special, id) == CutAll(fs, special, id)
  }

  lemma ConsCut(f: Fragment, tail: seq<Fragment>, special: Bytes, id: int)
    requires special != []
    ensures CutAll([f] + tail, special, id)
            == (if f.ids != [] then [f] else Cut(f.value, special, id)) + CutAll(tail, special, id)
    ensures |Values([f] + tail)| == |f.value| + |Values(tail)|
  {
    assert ([f] + tail)[1..] == tail;
  }

  lemma Regroup(head: seq<Fragment>, x: Fragment, c: seq<Fragment>, t: seq<Fragment>)
    ensures head + (([x] + c) + t) == (head + [x]) + (c + t)
  {
  }

  /** One loop step on a text fragment f between what is done and what is to come. */
  lemma CutTextStep(head: seq<Fragment>, f: Fragment, tail: seq<Fragment>, special: Bytes, id: int)
    requires special != [] && f.ids == []
    ensures var m := Middle(f, special, id);
            head + CutAll([f] + tail, special, id) == (head + [m[0]]) + CutAll(m[1..] + tail, special, id)
  {
    var m := Middle(f, special, id);
    MiddleCut(f, special, id);
    CutAllAppend(m[1..], tail, special, id);
    ConsCut(f, tail, special, id);
    Regroup(head, m[0], CutAll(m[1..], special, id), CutAll(tail, special, id));
  }

  lemma CutTextSmaller(f: Fragment, tail: seq<Fragment>, special: Bytes, id: int)
    requires special != [] && f.ids == []
    ensures var m := Middle(f, special, id);
            |Values(m[1..] + tail)| < |Values([f] + tail)|
            || (m[1..] == [] && |Values(m[1..] + tail)| <= |Values([f] + tail)|)
  {
    var m := Middle(f, special, id);
    MiddleCut(f, special, id);
    ValuesAppend(m[1..], tail);
    ConsCut(f, tail, special, id);
    assert m[1..] == [] ==> Values(m[1..]) == [];
  }

  /** Splitting a list at i. */
  lemma SplitAt(fs: seq<Fragment>, i: int)
    requires 0 <= i < |fs|
    ensures fs[i..] == [fs[i]] + fs[i + 1..] && fs[..i + 1] == fs[..i] + [fs[i]]
  {
  }

  lemma CutToText(fs: seq<Fragment>, fragments: seq<Fragment>, i: int, special: Bytes, id: int,
                  fragments': seq<Fragment>)
    requires special != [] && CutTo(fs, fragments, i, special, id) && i < |fragments| && fragments[i].ids == []
    requires fragments' == fragments[..i] + Middle(fragments[i], special, id) + fragments[i + 1..]
    ensures CutTo(fs, fragments', i + 1, special, id)
    ensures |Values(fragments'[i + 1..])| < |Values(fragments[i..])|
            || (|Values(fragments'[i + 1..])| <= |Values(fragments[i..])| && |fragments'| - (i + 1) < |fragments| - i)
  {
    var f, head, tail := fragments[i], fragments[..i], fragments[i + 1..];
    var m := Middle(f, special, id);
    SplitAt(fragments, i);
    CutTextStep(head, f, tail, special, id);
    CutTextSmaller(f, tail, special, id);
    assert fragments'[i + 1..] == m[1..] + tail;
    assert fragments'[..i + 1] == head + [m[0]];
  }

  lemma CutToSpecial(fs: seq<Fragment>, fragments: seq<Fragment>, i: int, special: Bytes, id: int)
    requires special != [] && CutTo(fs, fragments, i, special, id) && i < |fragments| && fragments[i].ids != []
    ensures CutTo(fs, fragments, i + 1, special, id)
    ensures |Values(fragments[i + 1..])| <= |Values(fragments[i..])|
  {
    var f, head, tail := fragments[i], fragments[..i], fragments[i + 1..];
    SplitAt(fragments, i);
    ConsCut(f, tail, special, id);
    Regroup(head, f, [], CutAll(tail, special, id));
    assert [f] + [] == [f] && [] + CutAll(tail, special, id) == CutAll(tail, special, id);
  }

  /** The loop over the fragments for one special token, inserting into the list as it goes. */
  method SplitSpecial(fs: seq<Fragment>, special: Bytes, id: int) returns (fragments: seq<Fragment>)
    requires special != []
    ensures fragments == CutAll(fs, special, id)
  {
    fragments := fs;
    var i := 0;
    assert fs[..0] + CutAll(fs[0..], special, id) == CutAll(fs, special, id);
    while i < |fragments|
      invariant CutTo(fs, fragments, i, special, id)
      decreases |Values(fragments[i..])|, |fragments| - i
    {
      ghost var before := fragments;
      if fragments[i].ids != [] {
        CutToSpecial(fs, fragments, i, special, id);
      } else {
        fragments := fragments[..i] + Middle(fragments[i], special, id) + fragments[i + 1..];
        CutToText(fs, before, i, special, id, fragments);
      }
      i := i + 1;
    }
    assert fragments[..i] == fragments && fragments[i..] == [];
  }

  // ---------- What cutting guarantees ----------

  /** No text fragment contains the token. */
  ghost predicate FreeOf(fs: seq<Fragment>, special: Bytes) {
    forall k :: 0 <= k < |fs| && fs[k].ids == [] ==> !Contains(fs[k].value, special)
  }

  /** The fragment is one of the special tokens with its id. */
  ghost predicate IsSpecial(v: Vocabulary, f: Fragment, specials: seq<Text>) {
    exists t :: t in specials && f == Fragment(Utf8(t), [v.Encode(t)])
  }

  /** Every fragment that is not text is one of the special tokens with its id. */
  ghost predicate OnlySpecials(v: Vocabulary, fs: seq<Fragment>, specials: seq<Text>) {
    forall k :: 0 <= k < |fs| && fs[k].ids != [] ==> IsSpecial(v, fs[k], specials)
  }

  function HeadOf(value: Bytes, i: int): seq<Fragment>
    requires 0 <= i <= |value|
  {
    if i > 0 then [Fragment(value[..i], [])] else []
  }

  lemma CutShape(value: Bytes, special: Bytes, id: int)
    requires special != [] && Contains(value, special)
    ensures var i := Index(value, special);
            var rest := value[i + |special|..];
            && value == value[..i] + special + rest
            && Cut(value, special, id)
               == HeadOf(value, i) + [Fragment(special, [id])] + if rest != [] then Cut(rest, special, id) else []
  {
    var i := Index(value, special);
    assert value[i..i + |special|] == special;
  }

  lemma HeadOfValues(value: Bytes, i: int, f: Fragment)
    requires 0 <= i <= |value|
    ensures Values(HeadOf(value, i) + [f]) == value[..i] + f.value
  {
    assert [f][1..] == [] && Values([f]) == f.value + Values([]);
    if i > 0 {
      var h := Fragment(value[..i], []);
      assert ([h] + [f])[1..] == [f];
    } else {
      assert [] + [f] == [f];
    }
  }

  lemma {:induction false} CutValues(value: Bytes, special: Bytes, id: int)
    requires special != []
    ensures Values(Cut(value, special, id)) == value
    decreases |value|
  {
    if !Contains(value, special) {
      assert [Fragment(value, [])][1..] == [];
    } else {
      CutShape(value, special, id);
      var i := Index(value, special);
      var rest := value[i + |special|..];
      var front := HeadOf(value, i) + [Fragment(special, [id])];
      HeadOfValues(value, i, Fragment(special, [id]));
      if rest != [] {
        CutValues(rest, special, id);
      }
      ValuesAppend(front, if rest != [] then Cut(rest, special, id) else []);
    }
  }

  /** The token is gone from the text, and nothing that was absent before has appeared. */
  lemma {:induction false} CutFree(value: Bytes, special: Bytes, id: int, other: Bytes)
    requires special != [] && (other == special || !Contains(value, other))
    ensures FreeOf(Cut(value, special, id), other)
    decreases |value|
  {
    if Contains(value, special) {
      CutShape(value, special, id);
      var i := Index(value, special);
      var rest := value[i + |special|..];
      if other == special {
        HeadKeeps(value, special, i);
      } else {
        assert value[0..i] == value[..i];
        PartContainsNot(value, other, 0, i);
        assert value[i + |special|..|value|] == rest;
        PartContainsNot(value, other, i + |special|, |value|);
      }
      if rest != [] {
        CutFree(rest, special, id, other);
      }
      FreeOfAppend(HeadOf(value, i), [Fragment(special, [id])], other);
      FreeOfAppend(HeadOf(value, i) + [Fragment(special, [id])],
                   if rest != [] then Cut(rest, special, id) else [], other);
    }
  }

  lemma FreeOfAppend(a: seq<Fragment>, b: seq<Fragment>, other: Bytes)
    requires FreeOf(a, other) && FreeOf(b, other)
    ensures FreeOf(a + b, other)
  {
  }

  lemma HeadKeeps(value: Bytes, special: Bytes, i: int)
    requires special != [] && i == Index(value, special) >= 0
    ensures !Contains(value[..i], special)
  {
    forall j | 0 <= j ensures !OccursAt(value[..i], special, j) {
      if 0 <= j <= i - |special| {
        TakeSlice(value, i, j, j + |special|);
        assert !OccursAt(value, special, j);
      }
    }
    NoIndex(value[..i], special);
  }

  lemma {:induction false} CutKinds(value: Bytes, special: Bytes, id: int)
    requires special != []
    ensures forall k :: 0 <= k < |Cut(value, special, id)| && Cut(value, special, id)[k].ids != [] ==>
              Cut(value, special, id)[k] == Fragment(special, [id])
    decreases |value|
  {
    if Contains(value, special) {
      CutShape(value, special, id);
      var rest := value[Index(value, special) + |special|..];
      if rest != [] {
        CutKinds(rest, special, id);
      }
    }
  }

  lemma {:induction false} CutAllKeeps(fs: seq<Fragment>, special: Bytes, id: int, other: Bytes)
    requires special != []
    ensures Values(CutAll(fs, special, id)) == Values(fs)
    ensures other == special || FreeOf(fs, other) ==> FreeOf(CutAll(fs, special, id), other)
  {
    if fs != [] {
      CutAllKeeps(fs[1..], special, id, other);
      var first := if fs[0].ids != [] then [fs[0]] else Cut(fs[0].value, special, id);
      ValuesAppend(first, CutAll(fs[1..], special, id));
      if fs[0].ids != [] {
        assert [fs[0]][1..] == [];
      } else {
        CutValues(fs[0].value, special, id);
        if other == special || FreeOf(fs, other) {
          CutFree(fs[0].value, special, id, other);
        }
      }
    }
  }

  lemma {:induction false} CutAllKinds(v: Vocabulary, fs: seq<Fragment>, special: Text, specials: seq<Text>)
    requires special != [] && OnlySpecials(v, fs, specials)
    ensures OnlySpecials(v, CutAll(fs, Utf8(special), v.Encode(special)), specials + [special])
  {
    hide Cut, Utf8;
    if fs != [] {
      CutAllKinds(v, fs[1..], special, specials);
      if fs[0].ids == [] {
        CutKinds(fs[0].value, Utf8(special), v.Encode(special));
        assert special in specials + [special];
      } else {
        SpecialStill(v, fs[0], specials, special);
      }
    }
  }

  lemma SpecialStill(v: Vocabulary, f: Fragment, specials: seq<Text>, special: Text)
    requires IsSpecial(v, f, specials)
    ensures IsSpecial(v, f, specials + [special])
  {
    hide Utf8;
    var t :| t in specials && f == Fragment(Utf8(t), [v.Encode(t)]);
    assert t in specials + [special];
  }

  /** Cutting out each special token in turn. */
  function CutSpecials(v: Vocabulary, s: Bytes, specials: seq<Text>): seq<Fragment>
    requires forall k :: 0 <= k < |specials| ==> specials[k] != []
  {
    if specials == [] then [Fragment(s, [])]
    else
      var n := |specials| - 1;
      CutAll(CutSpecials(v, s, specials[..n]), Utf8(specials[n]), v.Encode(specials[n]))
  }

  /** Cutting loses nothing and leaves no special token in any text fragment. */
  lemma {:induction false} CutSpecialsExact(v: Vocabulary, s: Bytes, specials: seq<Text>, other: Text)
    requires forall k :: 0 <= k < |specials| ==> specials[k] != []
    ensures Values(CutSpecials(v, s, specials)) == s
    ensures other in specials ==> FreeOf(CutSpecials(v, s, specials), Utf8(other))
  {
    hide Utf8, CutAll;
    if specials == [] {
      assert [Fragment(s, [])][1..] == [];
    } else {
      var n := |specials| - 1;
      assert specials == specials[..n] + [specials[n]];
      CutSpecialsExact(v, s, specials[..n], other);
      CutAllKeeps(CutSpecials(v, s, specials[..n]), Utf8(specials[n]), v.Encode(specials[n]), Utf8(other));
    }
  }

  /** Only special tokens carry ids, each its own. */
  lemma {:induction false} CutSpecialsKinds(v: Vocabulary, s: Bytes, specials: seq<Text>)
    requires forall k :: 0 <= k < |specials| ==> specials[k] != []
    ensures OnlySpecials(v, CutSpecials(v, s, specials), specials)
  {
    hide Utf8, CutAll;
    if specials != [] {
      var n := |specials| - 1;
      CutSpecialsKinds(v, s, specials[..n]);
      CutAllKinds(v, CutSpecials(v, s, specials[..n]), specials[n], specials[..n]);
      assert specials == specials[..n] + [specials[n]];
    }
  }

  /** The outer loop of Encode. */
  method SplitSpecials(v: Vocabulary, s: Bytes) returns (fragments: seq<Fragment>)
    requires forall k :: 0 <= k < |v.special| ==> v.special[k] != []
    ensures fragments == CutSpecials(v, s, v.special)
  {
    hide CutAll, Utf8;
    fragments := [Fragment(s, [])];
    for k := 0 to |v.special|
      invariant fragments == CutSpecials(v, s, v.special[..k])
    {
      assert v.special[..k + 1][..k] == v.special[..k];
      fragments := SplitSpecial(fragments, Utf8(v.special[k]), v.Encode(v.special[k]));
    }
    assert v.special[..|v.special|] == v.special;
  }

  // ---------- Bytes as printable runes ----------

  function RuneOf(b: int): Rune {
    if b == 0x00ad then 0x0143
    else if b <= 0x0020 then b + 0x0100
    else if 0x007f <= b <= 0x00a0 then b + 0x00a2
    else b
  }

  function RunesOf(s: Bytes): (r: Text)
    ensures |r| == |s| && forall i :: 0 <= i < |r| ==> r[i] == RuneOf(s[i])
  {
    seq(|s|, i requires 0 <= i < |s| => RuneOf(s[i]))
  }

  /** The loop of Encode that writes a part in printable runes. */
  method WriteRunes(s: Bytes) returns (sb: Text)
    ensures sb == RunesOf(s)
  {
    sb := [];
    for i := 0 to |s|
      invariant sb == RunesOf(s[..i])
    {
      var r := s[i];
      if r == 0x00ad {
        r := 0x0143;
      } else if r <= 0x0020 {
        r := r + 0x0100;
      } else if r >= 0x007f && r <= 0x00a0 {
        r := r + 0x00a2;
      }
      sb := sb + [r];
    }
    assert s[..|s|] == s;
  }

  /** The bytes that stand for themselves: the printable ones of Latin-1. */
  predicate Plain(b: int) { 0x21 <= b <= 0x7e || 0xa1 <= b <= 0xac || 0xae <= b <= 0xff }

  /** How many bytes below b do not stand for themselves. */
  function OthersBelow(b: nat): nat {
    if b == 0 then 0 else OthersBelow(b - 1) + if Plain(b - 1) then 0 else 1
  }

  lemma {:induction false} OthersCounted(b: nat)
    requires b <= 256
    ensures OthersBelow(b) == if b <= 0x21 then b
                              else if b <= 0x7f then 33
                              else if b <= 0xa1 then 33 + (b - 0x7f)
                              else if b <= 0xad then 67
                              else 68
  {
    if b > 0 {
      OthersCounted(b - 1);
    }
  }

  /** The runes of bytes: the printable ones of Latin-1 stand for themselves, the others, in order, for the runes from
      256 on. */
  lemma RuneExact(b: int)
    requires 0 <= b < 256
    ensures RuneOf(b) == if Plain(b) then b else 256 + OthersBelow(b)
    ensures RuneOf(0x20) == 0x120 && RuneOf(0xad) == 0x143
    ensures 0x00 <= b <= 0x20 ==> RuneOf(b) == 0x100 + b
    ensures 0x7f <= b <= 0xa0 ==> RuneOf(b) == b + 0xa2
    ensures 0x21 <= b <= 0x7e || 0xa1 <= b <= 0xac || 0xae <= b <= 0xff ==> RuneOf(b) == b
  {
    OthersCounted(b);
  }

  /** The bytes Decode writes for one rune: none for the rune of NUL. */
  function BytesOf(r: Rune): Bytes {
    if r == 0x0100 then []
    else if r == 0x0143 then [0x00ad]
    else if 0x0100 < r <= 0x0120 then [(r - 0x0100) % 256]
    else if 0x0120 < r <= 0x0142 then [(r - 0x00a2) % 256]
    else [r % 256]
  }

  function Decoded(t: Text): Bytes {
    if t == [] then [] else BytesOf(t[0]) + Decoded(t[1..])
  }

  function WithoutNul(s: Bytes): Bytes {
    if s == [] then [] else (if s[0] == 0 then [] else [s[0]]) + WithoutNul(s[1..])
  }

  ghost predicate IsBytes(s: Bytes) { forall i :: 0 <= i < |s| ==> 0 <= s[i] < 256 }

  /** The two switches undo each other on every byte but NUL. */
  lemma RuneRoundTrip(b: int)
    requires 0 <= b < 256
    ensures BytesOf(RuneOf(b)) == if b == 0 then [] else [b]
  {
  }

  lemma {:induction false} DecodedRunes(s: Bytes)
    requires IsBytes(s)
    ensures Decoded(RunesOf(s)) == WithoutNul(s)
  {
    if s != [] {
      RuneRoundTrip(s[0]);
      assert RunesOf(s)[1..] == RunesOf(s[1..]);
      DecodedRunes(s[1..]);
    }
  }

  lemma {:induction false} DecodedAppend(a: Text, b: Text)
    ensures Decoded(a + b) == Decoded(a) + Decoded(b)
  {
    if a == [] {
      assert a + b == b;
    } else {
      assert (a + b)[1..] == a[1..] + b;
      DecodedAppend(a[1..], b);
    }
  }

  /** Decoding never makes text longer, and keeps it exactly if it is ASCII. */
  lemma {:induction false} DecodedUtf8(t: Text)
    requires forall i :: 0 <= i < |t| ==> t[i] >= 0
    ensures |Decoded(t)| <= |t| && (|Decoded(t)| == |Utf8(t)| ==> Ascii(t)) && (Ascii(t) ==> Decoded(t) == Utf8(t))
  {
    if t != [] {
      DecodedUtf8(t[1..]);
      assert |BytesOf(t[0])| <= 1;
      assert t == [t[0]] + t[1..];
    }
  }

  lemma {:induction false} DecodedShorter(t: Text)
    ensures |Decoded(t)| <= |t|
  {
    if t != [] {
      DecodedShorter(t[1..]);
    }
  }

  /** UTF-8 text is ASCII exactly if its runes are. */
  lemma {:induction false} AsciiUtf8(t: Text)
    requires forall i :: 0 <= i < |t| ==> t[i] >= 0
    ensures Ascii(Utf8(t)) <==> Ascii(t)
  {
    if t != [] {
      var head, tail := Utf8Rune(t[0]), Utf8(t[1..]);
      AsciiUtf8(t[1..]);
      assert t == [t[0]] + t[1..];
      assert Utf8(t)[0] == head[0];
      assert forall i :: 0 <= i < |tail| ==> Utf8(t)[|head| + i] == tail[i];
    }
  }

  /** Dropping NULs changes a string exactly when it has one. */
  lemma {:induction false} WithoutNulSame(s: Bytes)
    ensures |WithoutNul(s)| <= |s| && (|WithoutNul(s)| == |s| <==> 0 !in s)
    ensures 0 !in s ==> WithoutNul(s) == s
  {
    if s != [] {
      WithoutNulSame(s[1..]);
      assert s == [s[0]] + s[1..];
    }
  }

  // ---------- Decode ----------

  function DecodedIds(v: Vocabulary, ids: seq<int>): Bytes
    requires forall k :: 0 <= k < |ids| ==> 0 <= ids[k] < |v.values|
  {
    if ids == [] then [] else DecodedIds(v, ids[..|ids| - 1]) + Decoded(v.Decode(ids[|ids| - 1]))
  }

  method DecodeToken(t: Text, sb0: Bytes) returns (sb: Bytes)
    ensures sb == sb0 + Decoded(t)
  {
    sb := sb0;
    for i := 0 to |t|
      invariant sb + Decoded(t[i..]) == sb0 + Decoded(t)
    {
      assert t[i..][1..] == t[i + 1..];
      assert sb + (BytesOf(t[i]) + Decoded(t[i + 1..])) == (sb + BytesOf(t[i])) + Decoded(t[i + 1..]);
      var r := t[i];
      if r == 0x0100 {
        continue;
      }
      if r == 0x0143 {
        r := 0x00ad;
      } else if 0x0100 < r <= 0x0120 {
        r := r - 0x0100;
      } else if 0x0120 < r <= 0x0142 {
        r := r - 0x00a2;
      }
      assert BytesOf(t[i]) == [r % 256];
      sb := sb + [r % 256];
    }
  }

  method Decode(v: Vocabulary, ids: seq<int>) returns (sb: Bytes)
    requires forall k :: 0 <= k < |ids| ==> 0 <= ids[k] < |v.values|
    ensures sb == DecodedIds(v, ids)
  {
    sb := [];
    for k := 0 to |ids|
      invariant sb == DecodedIds(v, ids[..k])
    {
      assert ids[..k + 1][..k] == ids[..k];
      sb := DecodeToken(v.Decode(ids[k]), sb);
    }
    assert ids[..|ids|] == ids;
  }
}
