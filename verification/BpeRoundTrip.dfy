/** Decoding what byte-pair encoding produced (model/bytepairencoding.go): for every vocabulary and every
    pre-tokenizer, exactly when the string comes back. */
module BpeRoundTrip {
  import opened Strings
  import opened Vocabularies
  import opened MergeList
  import opened BytePairs
  import opened BpeEncode
  import opened BpeSplit

  ghost predicate GoodIds(v: Vocabulary, ids: seq<int>) {
    forall k :: 0 <= k < |ids| ==> 0 <= ids[k] < |v.values|
  }

  /** The special tokens are non-empty values of the vocabulary, as SpecialVocabulary lists them. */
  ghost predicate Listed(v: Vocabulary) {
    forall k :: 0 <= k < |v.special| ==>
      v.special[k] != [] && v.Has(v.special[k]) && forall i :: 0 <= i < |v.special[k]| ==> v.special[k][i] >= 0
  }

  /** The vocabulary can spell every byte. */
  ghost predicate Spells(v: Vocabulary) { forall b :: 0 <= b < 256 ==> v.Has([RuneOf(b)]) }

  // ---------- Losing part of a text ----------

  /** What is shown is the text or something shorter, and it is the text exactly if nothing is lost. */
  ghost predicate Shown(shown: Bytes, text: Bytes, lossless: bool) {
    |shown| <= |text| && (|shown| == |text| ==> shown == text) && (shown == text <==> lossless)
  }

  lemma ShownAppend(a: Bytes, x: Bytes, p: bool, b: Bytes, y: Bytes, q: bool)
    requires Shown(a, x, p) && Shown(b, y, q)
    ensures Shown(a + b, x + y, p && q)
  {
    if |a + b| == |x + y| {
      assert a == x && b == y;
    }
  }

  lemma GoodIdsAppend(v: Vocabulary, a: seq<int>, b: seq<int>)
    ensures GoodIds(v, a + b) <==> GoodIds(v, a) && GoodIds(v, b)
  {
    assert forall k :: 0 <= k < |b| ==> (a + b)[|a| + k] == b[k];
    assert forall k :: 0 <= k < |a| ==> (a + b)[k] == a[k];
  }

  lemma {:induction false} DecodedIdsAppend(v: Vocabulary, a: seq<int>, b: seq<int>)
    requires GoodIds(v, a) && GoodIds(v, b)
    ensures GoodIds(v, a + b) && DecodedIds(v, a + b) == DecodedIds(v, a) + DecodedIds(v, b)
  {
    GoodIdsAppend(v, a, b);
    if b == [] {
      assert a + b == a;
      assert DecodedIds(v, []) == [];
    } else {
      var front, last := b[..|b| - 1], b[|b| - 1];
      assert b == front + [last];
      GoodIdsAppend(v, front, [last]);
      assert [last][0] == last;
      assert 0 <= last < |v.values|;
      hide Decoded, DecodedIds, GoodIds;
      DecodedIdsAppend(v, a, front);
      DecodedIdsSnoc(v, front, last);
      DecodedIdsSnoc(v, a + front, last);
      Associative(a, front, [last]);
      Associative(DecodedIds(v, a), DecodedIds(v, front), Decoded(v.Decode(last)));
    }
  }

  lemma DecodedIdsSnoc(v: Vocabulary, ids: seq<int>, id: int)
    requires GoodIds(v, ids) && 0 <= id < |v.values|
    ensures DecodedIds(v, ids + [id]) == DecodedIds(v, ids) + Decoded(v.Decode(id))
  {
    hide Decoded;
    assert (ids + [id])[..|ids|] == ids;
  }

  lemma DecodedOne(v: Vocabulary, t: Text)
    requires v.Has(t)
    ensures GoodIds(v, [v.Encode(t)]) && DecodedIds(v, [v.Encode(t)]) == Decoded(t)
  {
    hide Decoded;
    assert [] + [v.Encode(t)] == [v.Encode(t)];
    DecodedIdsSnoc(v, [], v.Encode(t));
  }

  // ---------- One part ----------

  /** The pieces that are tokens. */
  function KnownOf(v: Vocabulary, ps: Pieces): Pieces {
    if ps == [] then []
    else KnownOf(v, ps[..|ps| - 1]) + if v.Has(ps[|ps| - 1]) then [ps[|ps| - 1]] else []
  }

  lemma KnownNext(v: Vocabulary, ps: Pieces, k: int)
    requires 0 <= k < |ps|
    ensures KnownOf(v, ps[..k + 1]) == if v.Has(ps[k]) then KnownOf(v, ps[..k]) + [ps[k]] else KnownOf(v, ps[..k])
  {
    assert ps[..k + 1][..k] == ps[..k];
  }

  ghost predicate AllKnown(v: Vocabulary, ps: Pieces) { forall k :: 0 <= k < |ps| ==> v.Has(ps[k]) }

  lemma ConcatSnoc(ps: Pieces, p: Text)
    ensures Concat(ps + [p]) == Concat(ps) + p
  {
    ConcatAppend(ps, [p]);
    assert Concat([p]) == p + Concat([]);
  }

  /** The ids of the pieces that are tokens; the others are dropped. */
  function IdsOf(v: Vocabulary, ps: Pieces): seq<int> {
    if ps == [] then []
    else IdsOf(v, ps[..|ps| - 1]) + if v.Has(ps[|ps| - 1]) then [v.Encode(ps[|ps| - 1])] else []
  }

  lemma IdsNext(v: Vocabulary, ps: Pieces, k: int)
    requires 0 <= k < |ps|
    ensures IdsOf(v, ps[..k + 1]) == if v.Has(ps[k]) then IdsOf(v, ps[..k]) + [v.Encode(ps[k])] else IdsOf(v, ps[..k])
  {
    assert ps[..k + 1][..k] == ps[..k];
  }

  lemma {:induction false} IdsDecode(v: Vocabulary, ps: Pieces)
    ensures GoodIds(v, IdsOf(v, ps)) && DecodedIds(v, IdsOf(v, ps)) == Decoded(Concat(KnownOf(v, ps)))
  {
    hide Decoded, DecodedIds, Concat, KnownOf, IdsOf;
    NothingDecoded(v);
    if ps != [] {
      var n := |ps| - 1;
      IdsDecode(v, ps[..n]);
      assert ps[..n + 1] == ps;
      KnownNext(v, ps, n);
      IdsNext(v, ps, n);
      if v.Has(ps[n]) {
        DecodedIdsSnoc(v, IdsOf(v, ps[..n]), v.Encode(ps[n]));
        ConcatSnoc(KnownOf(v, ps[..n]), ps[n]);
        DecodedAppend(Concat(KnownOf(v, ps[..n])), ps[n]);
      }
    }
  }

  method Emit(v: Vocabulary, ps: Pieces) returns (ids: seq<int>)
    ensures ids == IdsOf(v, ps)
  {
    ids := [];
    for k := 0 to |ps|
      invariant ids == IdsOf(v, ps[..k])
    {
      IdsNext(v, ps, k);
      if v.Encode(ps[k]) >= 0 {
        ids := ids + [v.Encode(ps[k])];
      }
    }
    assert ps[..|ps|] == ps;
  }

  lemma NothingDecoded(v: Vocabulary)
    ensures KnownOf(v, []) == [] && IdsOf(v, []) == [] && DecodedIds(v, []) == [] == Decoded(Concat([]))
  {
  }

  lemma {:induction false} KnownShorter(v: Vocabulary, ps: Pieces)
    requires forall k :: 0 <= k < |ps| && !v.Has(ps[k]) ==> ps[k] != []
    ensures |Concat(KnownOf(v, ps))| <= |Concat(ps)|
    ensures |Concat(KnownOf(v, ps))| == |Concat(ps)| ==> AllKnown(v, ps)
    ensures AllKnown(v, ps) ==> KnownOf(v, ps) == ps
  {
    hide Concat;
    if ps != [] {
      var n := |ps| - 1;
      var front, last := ps[..n], ps[n];
      KnownShorter(v, front);
      assert ps == front + [last] && ps[..n + 1] == ps;
      KnownNext(v, ps, n);
      ConcatSnoc(front, last);
      ConcatSnoc(KnownOf(v, front), last);
      assert AllKnown(v, ps) <==> AllKnown(v, front) && v.Has(last);
    }
  }

  /** A part is shown whole exactly if it has no NUL and every piece it was cut into is a token. */
  lemma PartShown(v: Vocabulary, part: Bytes, ps: Pieces)
    requires IsBytes(part) && Concat(ps) == RunesOf(part) && forall k :: 0 <= k < |ps| && !v.Has(ps[k]) ==> ps[k] != []
    ensures Shown(Decoded(Concat(KnownOf(v, ps))), part, 0 !in part && AllKnown(v, ps))
  {
    hide Concat, Decoded, KnownOf;
    KnownShorter(v, ps);
    DecodedShorter(Concat(KnownOf(v, ps)));
    DecodedRunes(part);
    WithoutNulSame(part);
  }

  lemma {:induction false} PieceRunes(ps: Pieces, k: int, i: int)
    requires 0 <= k < |ps| && 0 <= i < |ps[k]|
    ensures ps[k][i] in Concat(ps)
  {
    if k > 0 {
      PieceRunes(ps[1..], k - 1, i);
    } else {
      assert Concat(ps)[i] == ps[0][i];
    }
  }

  lemma PiecesKnown(v: Vocabulary, part: Bytes, ps: Pieces)
    requires Spells(v) && IsBytes(part) && AllTokens(v, ps) && Concat(ps) == RunesOf(part)
    ensures AllKnown(v, ps)
  {
    hide Concat;
    forall k | 0 <= k < |ps| ensures v.Has(ps[k]) {
      if |ps[k]| == 1 {
        PieceRunes(ps, k, 0);
        var i :| 0 <= i < |part| && RunesOf(part)[i] == ps[k][0];
        assert ps[k] == [RuneOf(part[i])];
      }
    }
  }

  /** How a part is cut into pieces: whole if it is a token, and otherwise by a run of merges, each of a pair of lowest
      rank, until none is left. */
  ghost predicate Cuts(v: Vocabulary, part: Bytes, ps: Pieces) {
    var runes := RunesOf(part);
    if v.Has(runes) then ps == [runes]
    else (exists trace :: IsRun(v, trace, Singletons(runes), ps)) && forall k :: !Mergeable(v, ps, k)
  }

  lemma CutsTokens(v: Vocabulary, part: Bytes, ps: Pieces)
    requires Cuts(v, part, ps)
    ensures Concat(ps) == RunesOf(part) && AllTokens(v, ps)
  {
    var runes := RunesOf(part);
    if v.Has(runes) {
      assert Concat(ps) == runes + Concat([]);
    } else {
      hide Concat;
      var trace :| IsRun(v, trace, Singletons(runes), ps);
      RunKeeps(v, trace, Singletons(runes), ps);
      ConcatSingletons(runes);
    }
  }

  /** What decoding shows of a part, however ties between merges fell. */
  lemma CutsShown(v: Vocabulary, part: Bytes, ps: Pieces)
    requires IsBytes(part) && Cuts(v, part, ps)
    ensures GoodIds(v, IdsOf(v, ps)) && Shown(DecodedIds(v, IdsOf(v, ps)), part, 0 !in part && AllKnown(v, ps))
    ensures Spells(v) ==> AllKnown(v, ps)
  {
    hide Concat, Decoded, DecodedIds, KnownOf, IdsOf, Cuts;
    CutsTokens(v, part, ps);
    IdsDecode(v, ps);
    PartShown(v, part, ps);
    if Spells(v) {
      PiecesKnown(v, part, ps);
    }
  }

  /** A byte that is no token by itself is lost when it stands alone. */
  lemma ByteLost(v: Vocabulary, b: int, ps: Pieces)
    requires 0 <= b < 256 && !v.Has([RuneOf(b)]) && Cuts(v, [b], ps)
    ensures ps == [[RuneOf(b)]] && !AllKnown(v, ps) && IdsOf(v, ps) == []
  {
    var runes := RunesOf([b]);
    assert runes == [RuneOf(b)] && Singletons(runes) == [[RuneOf(b)]];
    var trace :| IsRun(v, trace, Singletons(runes), ps);
    assert |trace| > 1 ==> MergeStep(v, trace[0], trace[0 + 1]);
    assert ps == [[RuneOf(b)]] && !v.Has(ps[0]);
    assert ps[..0] == [] && IdsOf(v, []) == [];
  }

  /** One part of a text fragment: a known word, or the pieces the merge loop leaves. */
  method EncodePart(v: Vocabulary, part: Bytes) returns (ids: seq<int>, ghost ps: Pieces)
    requires IsBytes(part)
    ensures Cuts(v, part, ps) && ids == IdsOf(v, ps)
    ensures GoodIds(v, ids) && Shown(DecodedIds(v, ids), part, 0 !in part && AllKnown(v, ps))
  {
    hide DecodedIds, KnownOf, Concat;
    var runes := WriteRunes(part);
    var id := v.Encode(runes);
    if id >= 0 {
      ids, ps := [id], [runes];
      assert ps[..0] == [] && IdsOf(v, []) == [];
    } else {
      ghost var trace;
      var pieces;
      pieces, trace := MergeLoop(v, runes);
      ids := Emit(v, pieces);
      ps := pieces;
    }
    CutsShown(v, part, ps);
  }

  // ---------- One fragment ----------

  lemma {:induction false} PartBytes(parts: seq<Bytes>, k: int)
    requires IsBytes(Concat(parts)) && 0 <= k < |parts|
    ensures IsBytes(parts[k])
  {
    forall i | 0 <= i < |parts[k]| ensures 0 <= parts[k][i] < 256 {
      PieceRunes(parts, k, i);
    }
  }

  /** How all parts are cut. */
  ghost predicate CutsAll(v: Vocabulary, parts: seq<Bytes>, pss: seq<Pieces>) {
    |pss| == |parts| && forall k :: 0 <= k < |parts| ==> Cuts(v, parts[k], pss[k])
  }

  ghost predicate AllKnownIn(v: Vocabulary, pss: seq<Pieces>) { forall k :: 0 <= k < |pss| ==> AllKnown(v, pss[k]) }

  function IdsOfAll(v: Vocabulary, pss: seq<Pieces>): seq<int> {
    if pss == [] then [] else IdsOfAll(v, pss[..|pss| - 1]) + IdsOf(v, pss[|pss| - 1])
  }

  lemma {:induction false} CutsAllShown(v: Vocabulary, parts: seq<Bytes>, pss: seq<Pieces>)
    requires IsBytes(Concat(parts)) && CutsAll(v, parts, pss)
    ensures var ids, text := IdsOfAll(v, pss), Concat(parts);
            GoodIds(v, ids) && Shown(DecodedIds(v, ids), text, 0 !in text && AllKnownIn(v, pss))
    ensures Spells(v) ==> AllKnownIn(v, pss)
  {
    hide Concat, DecodedIds, Shown, Cuts, AllKnown, IdsOf;
    if parts == [] {
      NothingShown(v);
    } else {
      var n := |parts| - 1;
      var front, last := parts[..n], parts[n];
      assert parts == front + [last];
      ConcatSnoc(front, last);
      AppendBytes(Concat(front), last);
      CutsAllShown(v, front, pss[..n]);
      CutsShown(v, last, pss[n]);
      DecodedIdsAppend(v, IdsOfAll(v, pss[..n]), IdsOf(v, pss[n]));
      ShownAppend(DecodedIds(v, IdsOfAll(v, pss[..n])), Concat(front), 0 !in Concat(front) && AllKnownIn(v, pss[..n]),
                  DecodedIds(v, IdsOf(v, pss[n])), last, 0 !in last && AllKnown(v, pss[n]));
      assert 0 !in Concat(parts) <==> 0 !in Concat(front) && 0 !in last;
      assert AllKnownIn(v, pss) <==> AllKnownIn(v, pss[..n]) && AllKnown(v, pss[n]);
    }
  }

  lemma AppendBytes(a: Bytes, b: Bytes)
    requires IsBytes(a + b)
    ensures IsBytes(a) && IsBytes(b)
  {
    assert forall i :: 0 <= i < |a| ==> (a + b)[i] == a[i];
    assert forall i :: 0 <= i < |b| ==> (a + b)[|a| + i] == b[i];
  }

  method EncodeText(v: Vocabulary, value: Bytes, finds: seq<Finder>) returns (ids: seq<int>, ghost pss: seq<Pieces>)
    requires IsBytes(value) && AllOrdered(finds)
    ensures CutsAll(v, SplitAll(finds, value), pss) && ids == IdsOfAll(v, pss)
  {
    hide SplitAll, Cuts, IdsOf, Shown, DecodedIds, Concat;
    var parts := Split(finds, value);
    SplitBytes(finds, value);
    ids, pss := [], [];
    for k := 0 to |parts|
      invariant |pss| == k && ids == IdsOfAll(v, pss)
      invariant forall j :: 0 <= j < k ==> Cuts(v, parts[j], pss[j])
    {
      PartBytes(parts, k);
      var more;
      ghost var ps;
      more, ps := EncodePart(v, parts[k]);
      assert (pss + [ps])[..k] == pss;
      ids, pss := ids + more, pss + [ps];
    }
  }

  lemma NothingShown(v: Vocabulary)
    ensures GoodIds(v, []) && Concat([]) == [] && Shown(DecodedIds(v, []), [], true)
  {
  }

  /** Every byte of a is in s. */
  ghost predicate Among(a: Bytes, s: Bytes) { forall i :: 0 <= i < |a| ==> a[i] in s }

  ghost predicate AllAmong(ps: seq<Bytes>, s: Bytes) { forall k :: 0 <= k < |ps| ==> Among(ps[k], s) }

  lemma {:induction false} ConcatAmong(ps: seq<Bytes>, s: Bytes)
    requires AllAmong(ps, s)
    ensures Among(Concat(ps), s)
  {
    if ps != [] {
      assert Among(ps[0], s) && forall k :: 0 <= k < |ps[1..]| ==> Among(ps[1..][k], s);
      ConcatAmong(ps[1..], s);
    }
  }

  lemma AppendAmong(a: seq<Bytes>, b: seq<Bytes>, s: Bytes)
    requires AllAmong(a, s) && AllAmong(b, s)
    ensures AllAmong(a + b, s)
  {
    hide Among;
  }

  lemma SliceAmong(r: Bytes, i: int, j: int)
    requires 0 <= i <= j <= |r|
    ensures Among(r[i..j], r)
  {
    forall k | 0 <= k < j - i ensures r[i..j][k] in r {
      assert r[i..j][k] == r[i + k];
    }
  }

  lemma {:induction false} YieldedAmong(r: Text, ms: seq<Match>)
    requires InOrder(r, ms)
    ensures AllAmong(Yielded(r, ms), r)
  {
    hide Among;
    if ms != [] {
      var n, m := |ms| - 1, ms[|ms| - 1];
      InOrderPrefix(r, ms, n);
      YieldedAmong(r, ms[..n]);
      SliceAmong(r, 0, m.index);
      SliceAmong(r, m.index, m.index + m.length);
      assert r[0..m.index] == r[..m.index];
    }
  }

  lemma PartsAmong(r: Text, ms: seq<Match>, s: Bytes)
    requires InOrder(r, ms) && Among(r, s)
    ensures AllAmong(SplitParts(r, ms), s)
  {
    YieldedLength(r, ms);
    YieldedAmong(r, ms);
    SliceAmong(r, End(ms), |r|);
    assert r[End(ms)..|r|] == r[End(ms)..];
    hide Yielded;
    var cut := SplitParts(r, ms);
    forall k | 0 <= k < |cut| ensures Among(cut[k], s) {
      assert Among(cut[k], r);
    }
  }

  lemma {:induction false} EachAmong(find: Finder, parts: seq<Bytes>, s: Bytes)
    requires Ordered(find) && AllAmong(parts, s)
    ensures AllAmong(SplitEach(find, parts), s)
  {
    hide Among, SplitParts;
    if parts != [] {
      var n := |parts| - 1;
      EachAmong(find, parts[..n], s);
      PartsAmong(parts[n], find(parts[n]), s);
      AppendAmong(SplitEach(find, parts[..n]), SplitParts(parts[n], find(parts[n])), s);
    }
  }

  lemma {:induction false} SplitAmong(finds: seq<Finder>, s: Bytes)
    requires AllOrdered(finds)
    ensures AllAmong(SplitAll(finds, s), s)
  {
    hide SplitEach;
    if finds != [] {
      var n := |finds| - 1;
      SplitAmong(finds[..n], s);
      EachAmong(finds[n], SplitAll(finds[..n], s), s);
    }
  }

  /** Splitting makes no bytes that were not there. */
  lemma SplitBytes(finds: seq<Finder>, s: Bytes)
    requires AllOrdered(finds)
    ensures var text := Concat(SplitAll(finds, s)); (IsBytes(s) ==> IsBytes(text)) && (0 !in s ==> 0 !in text)
  {
    hide SplitAll, Concat;
    SplitAmong(finds, s);
    ConcatAmong(SplitAll(finds, s), s);
  }

  // ---------- All fragments ----------

  /** What is encoded: special tokens as they are, text as the pre-tokenizer cuts it. */
  function Written(finds: seq<Finder>, fs: seq<Fragment>): Bytes
    requires AllOrdered(finds)
  {
    if fs == [] then []
    else Written(finds, fs[..|fs| - 1]) + WrittenOne(finds, fs[|fs| - 1])
  }

  function WrittenOne(finds: seq<Finder>, f: Fragment): Bytes
    requires AllOrdered(finds)
  {
    if f.ids != [] then f.value else Concat(SplitAll(finds, f.value))
  }

  /** No NUL in text, and no special token outside ASCII. */
  predicate KeptOne(finds: seq<Finder>, f: Fragment)
    requires AllOrdered(finds)
  {
    if f.ids != [] then Ascii(f.value) else 0 !in Concat(SplitAll(finds, f.value))
  }

  ghost predicate Kept(finds: seq<Finder>, fs: seq<Fragment>)
    requires AllOrdered(finds)
  {
    forall k :: 0 <= k < |fs| ==> KeptOne(finds, fs[k])
  }

  lemma {:induction false} FragmentBytes(fs: seq<Fragment>, k: int)
    requires IsBytes(Values(fs)) && 0 <= k < |fs|
    ensures IsBytes(fs[k].value)
  {
    hide Values;
    forall i | 0 <= i < |fs[k].value| ensures 0 <= fs[k].value[i] < 256 {
      FragmentInside(fs, k, i);
    }
  }

  lemma {:induction false} FragmentInside(fs: seq<Fragment>, k: int, i: int)
    requires 0 <= k < |fs| && 0 <= i < |fs[k].value|
    ensures fs[k].value[i] in Values(fs)
  {
    if k > 0 {
      FragmentInside(fs[1..], k - 1, i);
    } else {
      assert Values(fs)[i] == fs[0].value[i];
    }
  }

  lemma SpecialShown(v: Vocabulary, f: Fragment)
    requires Listed(v) && IsSpecial(v, f, v.special)
    ensures GoodIds(v, f.ids) && Shown(DecodedIds(v, f.ids), f.value, Ascii(f.value))
  {
    hide Utf8, Decoded, DecodedIds;
    var t :| t in v.special && f == Fragment(Utf8(t), [v.Encode(t)]);
    var k :| 0 <= k < |v.special| && v.special[k] == t;
    DecodedOne(v, t);
    DecodedUtf8(t);
    AsciiUtf8(t);
  }

  /** How a fragment is cut: a special token not at all, and text as its parts are. */
  ghost predicate CutsOne(v: Vocabulary, finds: seq<Finder>, f: Fragment, pss: seq<Pieces>)
    requires AllOrdered(finds)
  {
    if f.ids != [] then pss == [] else CutsAll(v, SplitAll(finds, f.value), pss)
  }

  function IdsOfOne(v: Vocabulary, f: Fragment, pss: seq<Pieces>): seq<int> {
    if f.ids != [] then f.ids else IdsOfAll(v, pss)
  }

  lemma CutsOneShown(v: Vocabulary, finds: seq<Finder>, f: Fragment, pss: seq<Pieces>)
    requires Listed(v) && AllOrdered(finds) && IsBytes(f.value) && (f.ids != [] ==> IsSpecial(v, f, v.special))
    requires CutsOne(v, finds, f, pss)
    ensures var ids := IdsOfOne(v, f, pss);
            GoodIds(v, ids) && Shown(DecodedIds(v, ids), WrittenOne(finds, f), KeptOne(finds, f) && AllKnownIn(v, pss))
    ensures Spells(v) ==> AllKnownIn(v, pss)
  {
    hide DecodedIds, Shown, SplitAll, Concat, CutsAll, IdsOfAll;
    if f.ids != [] {
      SpecialShown(v, f);
    } else {
      SplitBytes(finds, f.value);
      CutsAllShown(v, SplitAll(finds, f.value), pss);
    }
  }

  /** The ids of one fragment. */
  method EncodeOne(v: Vocabulary, f: Fragment, finds: seq<Finder>) returns (ids: seq<int>, ghost pss: seq<Pieces>)
    requires AllOrdered(finds) && IsBytes(f.value)
    ensures CutsOne(v, finds, f, pss) && ids == IdsOfOne(v, f, pss)
  {
    hide SplitAll, CutsAll, IdsOfAll;
    if |f.ids| > 0 {
      return f.ids, [];
    }
    ids, pss := EncodeText(v, f.value, finds);
  }

  /** How all fragments are cut. */
  ghost predicate CutsEach(v: Vocabulary, finds: seq<Finder>, fs: seq<Fragment>, cuts: seq<seq<Pieces>>)
    requires AllOrdered(finds)
  {
    |cuts| == |fs| && forall k :: 0 <= k < |fs| ==> CutsOne(v, finds, fs[k], cuts[k])
  }

  /** Every piece of every part is a token. */
  ghost predicate AllSpelled(v: Vocabulary, cuts: seq<seq<Pieces>>) {
    forall k :: 0 <= k < |cuts| ==> AllKnownIn(v, cuts[k])
  }

  function IdsOfEach(v: Vocabulary, fs: seq<Fragment>, cuts: seq<seq<Pieces>>): seq<int>
    requires |cuts| == |fs|
  {
    if fs == [] then []
    else
      var n := |fs| - 1;
      IdsOfEach(v, fs[..n], cuts[..n]) + IdsOfOne(v, fs[n], cuts[n])
  }

  lemma {:induction false} CutsEachShown(v: Vocabulary, finds: seq<Finder>, fs: seq<Fragment>, cuts: seq<seq<Pieces>>)
    requires Listed(v) && AllOrdered(finds) && IsBytes(Values(fs)) && OnlySpecials(v, fs, v.special)
             && CutsEach(v, finds, fs, cuts)
    ensures var ids := IdsOfEach(v, fs, cuts);
            GoodIds(v, ids) && Shown(DecodedIds(v, ids), Written(finds, fs), Kept(finds, fs) && AllSpelled(v, cuts))
    ensures Spells(v) ==> AllSpelled(v, cuts)
  {
    hide DecodedIds, Shown, KeptOne, WrittenOne, IsSpecial, Values, CutsOne, IdsOfOne, AllKnownIn;
    if fs == [] {
      NothingShown(v);
    } else {
      var n := |fs| - 1;
      var front, last := fs[..n], fs[n];
      assert fs == front + [last] && fs[..n + 1] == fs;
      assert IdsOfEach(v, fs, cuts) == IdsOfEach(v, front, cuts[..n]) + IdsOfOne(v, last, cuts[n]);
      AllSpelledNext(v, cuts, n);
      hide IdsOfEach, AllSpelled, Written, Kept;
      FragmentBytes(fs, n);
      FrontBytes(front, last);
      CutsEachShown(v, finds, front, cuts[..n]);
      CutsOneShown(v, finds, last, cuts[n]);
      DecodedIdsAppend(v, IdsOfEach(v, front, cuts[..n]), IdsOfOne(v, last, cuts[n]));
      WrittenNext(finds, fs, n);
      ShownAppend(DecodedIds(v, IdsOfEach(v, front, cuts[..n])), Written(finds, front),
                  Kept(finds, front) && AllSpelled(v, cuts[..n]),
                  DecodedIds(v, IdsOfOne(v, last, cuts[n])), WrittenOne(finds, last),
                  KeptOne(finds, last) && AllKnownIn(v, cuts[n]));
    }
  }

  lemma AllSpelledNext(v: Vocabulary, cuts: seq<seq<Pieces>>, n: int)
    requires n == |cuts| - 1 >= 0
    ensures AllSpelled(v, cuts) <==> AllSpelled(v, cuts[..n]) && AllKnownIn(v, cuts[n])
  {
    hide AllKnownIn;
  }

  lemma FrontBytes(front: seq<Fragment>, last: Fragment)
    requires IsBytes(Values(front + [last]))
    ensures IsBytes(Values(front))
  {
    hide Values;
    ValuesAppend(front, [last]);
    AppendBytes(Values(front), Values([last]));
  }

  /** The ids of the fragments, specials by their own id. */
  method EncodeFragments(v: Vocabulary, fs: seq<Fragment>, finds: seq<Finder>)
    returns (ids: seq<int>, ghost cuts: seq<seq<Pieces>>)
    requires AllOrdered(finds) && IsBytes(Values(fs))
    ensures CutsEach(v, finds, fs, cuts) && ids == IdsOfEach(v, fs, cuts)
  {
    hide CutsOne, IdsOfOne, Values;
    ids, cuts := [], [];
    for k := 0 to |fs|
      invariant |cuts| == k && ids == IdsOfEach(v, fs[..k], cuts)
      invariant forall j :: 0 <= j < k ==> CutsOne(v, finds, fs[j], cuts[j])
    {
      FragmentBytes(fs, k);
      var more;
      ghost var pss;
      more, pss := EncodeOne(v, fs[k], finds);
      assert fs[..k + 1][..k] == fs[..k] && (cuts + [pss])[..k] == cuts;
      ids, cuts := ids + more, cuts + [pss];
    }
    assert fs[..|fs|] == fs;
  }

  lemma WrittenNext(finds: seq<Finder>, fs: seq<Fragment>, k: int)
    requires AllOrdered(finds) && 0 <= k < |fs|
    ensures Written(finds, fs[..k + 1]) == Written(finds, fs[..k]) + WrittenOne(finds, fs[k])
    ensures Kept(finds, fs[..k + 1]) <==> Kept(finds, fs[..k]) && KeptOne(finds, fs[k])
  {
    hide WrittenOne, KeptOne;
    assert fs[..k + 1][..k] == fs[..k];
    assert fs[..k + 1] == fs[..k] + [fs[k]];
  }

  /** No expression leaves a gap in any text fragment. */
  ghost predicate Gapless(finds: seq<Finder>, fs: seq<Fragment>)
    requires AllOrdered(finds)
  {
    forall k :: 0 <= k < |fs| && fs[k].ids == [] ==> GapFree(finds, fs[k].value)
  }

  /** The pre-tokenizer keeps all text exactly if no expression leaves a gap. */
  lemma {:induction false} WrittenKeeps(finds: seq<Finder>, fs: seq<Fragment>)
    requires AllOrdered(finds)
    ensures |Written(finds, fs)| >= |Values(fs)|
    ensures |Written(finds, fs)| == |Values(fs)| ==> Gapless(finds, fs)
    ensures Gapless(finds, fs) ==> Written(finds, fs) == Values(fs)
  {
    hide SplitAll, GapFree, Concat;
    if fs != [] {
      var n := |fs| - 1;
      var front, last := fs[..n], fs[n];
      WrittenKeeps(finds, front);
      SplitAllKeeps(finds, last.value);
      assert fs == front + [last];
      ValuesAppend(front, [last]);
      assert [last][1..] == [] && Values([last]) == last.value + Values([]);
      assert Gapless(finds, fs) <==> Gapless(finds, front) && (last.ids == [] ==> GapFree(finds, last.value));
    }
  }

  /** Decoding shows what was encoded exactly if it has no NUL in text and no special token outside ASCII, and every
      piece is a token. When no expression leaves a gap, that is exactly when the string comes back; and when
      nothing is lost, it comes back exactly if no expression leaves a gap. */
  lemma RoundTrip(v: Vocabulary, s: Bytes, finds: seq<Finder>, cuts: seq<seq<Pieces>>)
    requires Listed(v) && AllOrdered(finds) && IsBytes(s) && CutsEach(v, finds, CutSpecials(v, s, v.special), cuts)
    ensures var fs := CutSpecials(v, s, v.special);
            var ids := IdsOfEach(v, fs, cuts);
            && GoodIds(v, ids) && (Spells(v) ==> AllSpelled(v, cuts))
            && (DecodedIds(v, ids) == Written(finds, fs) <==> Kept(finds, fs) && AllSpelled(v, cuts))
            && (Gapless(finds, fs) ==> (DecodedIds(v, ids) == s <==> Kept(finds, fs) && AllSpelled(v, cuts)))
            && (Kept(finds, fs) && AllSpelled(v, cuts) ==> (DecodedIds(v, ids) == s <==> Gapless(finds, fs)))
  {
    hide DecodedIds, Written, Kept, Gapless, CutSpecials, OnlySpecials, CutsEach, AllSpelled, IdsOfEach;
    var fs := CutSpecials(v, s, v.special);
    CutSpecialsExact(v, s, v.special, []);
    CutSpecialsKinds(v, s, v.special);
    CutsEachShown(v, finds, fs, cuts);
    WrittenKeeps(finds, fs);
  }

  /** Encode without added specials: the ids of the special tokens and of the tokens the parts are cut into. */
  method Encode(v: Vocabulary, s: Bytes, finds: seq<Finder>) returns (ids: seq<int>, ghost cuts: seq<seq<Pieces>>)
    requires Listed(v) && AllOrdered(finds) && IsBytes(s)
    ensures GoodIds(v, ids)
    ensures var fs := CutSpecials(v, s, v.special);
            CutsEach(v, finds, fs, cuts) && ids == IdsOfEach(v, fs, cuts)
    ensures var fs := CutSpecials(v, s, v.special);
            Spells(v) && Gapless(finds, fs) ==> (DecodedIds(v, ids) == s <==> Kept(finds, fs))
    ensures var fs := CutSpecials(v, s, v.special);
            Gapless(finds, fs) ==> (DecodedIds(v, ids) == s <==> Kept(finds, fs) && AllSpelled(v, cuts))
  {
    hide DecodedIds, Kept, Gapless, CutSpecials, CutsEach, AllSpelled, IdsOfEach, Written;
    var fs := SplitSpecials(v, s);
    CutSpecialsExact(v, s, v.special, []);
    ids, cuts := EncodeFragments(v, fs, finds);
    RoundTrip(v, s, finds, cuts);
  }

  /** The ids of a single part. */
  lemma OnePart(v: Vocabulary, fs: seq<Fragment>, cuts: seq<seq<Pieces>>, ps: Pieces)
    requires |fs| == |cuts| == 1 && fs[0].ids == [] && cuts[0] == [ps]
    ensures IdsOfEach(v, fs, cuts) == IdsOf(v, ps)
    ensures AllSpelled(v, cuts) <==> AllKnown(v, ps)
  {
    hide IdsOf, AllKnown;
    assert IdsOfAll(v, []) == [] && [ps][..0] == [];
    assert IdsOfAll(v, [ps]) == IdsOf(v, ps);
    assert IdsOfEach(v, [], []) == [] && fs[..0] == [] && cuts[..0] == [];
    assert AllKnownIn(v, cuts[0]) <==> AllKnown(v, ps);
  }

  /** A string that is a single part and a token is encoded to that token. */
  lemma WordEncoded(v: Vocabulary, s: Bytes, finds: seq<Finder>, cuts: seq<seq<Pieces>>)
    requires Listed(v) && AllOrdered(finds)
    requires CutSpecials(v, s, v.special) == [Fragment(s, [])] && SplitAll(finds, s) == [s] && v.Has(RunesOf(s))
    requires CutsEach(v, finds, CutSpecials(v, s, v.special), cuts)
    ensures IdsOfEach(v, CutSpecials(v, s, v.special), cuts) == [v.Encode(RunesOf(s))]
  {
    var fs, ps := [Fragment(s, [])], [RunesOf(s)];
    assert CutsOne(v, finds, fs[0], cuts[0]);
    assert Cuts(v, s, cuts[0][0]) && cuts[0] == [ps];
    hide IdsOf;
    OnePart(v, fs, cuts, ps);
    OneToken(v, RunesOf(s));
  }

  lemma OneToken(v: Vocabulary, t: Text)
    requires v.Has(t)
    ensures IdsOf(v, [t]) == [v.Encode(t)]
  {
    assert [t][..0] == [] && IdsOf(v, []) == [];
  }

  /** A space that is a part of its own is encoded to the token that the vocabulary has for the rune 0x120. */
  lemma SpaceEncoded(v: Vocabulary, finds: seq<Finder>, cuts: seq<seq<Pieces>>)
    requires Listed(v) && AllOrdered(finds) && v.Has([0x120])
    requires CutSpecials(v, [32], v.special) == [Fragment([32], [])] && SplitAll(finds, [32]) == [[32]]
    requires CutsEach(v, finds, CutSpecials(v, [32], v.special), cuts)
    ensures IdsOfEach(v, CutSpecials(v, [32], v.special), cuts) == [v.Encode([0x120])]
  {
    RuneExact(32);
    assert RunesOf([32]) == [0x120];
    hide CutsEach, IdsOfEach, SplitAll, CutSpecials;
    WordEncoded(v, [32], finds, cuts);
  }

  /** A vocabulary with "b" and without "a". */
  const ONLY_B := Vocabulary([[98]], [0.0], [], [])

  /** With it, "a" is encoded to nothing at all. */
  lemma LetterLost(cuts: seq<seq<Pieces>>)
    requires CutsEach(ONLY_B, [], CutSpecials(ONLY_B, [97], []), cuts)
    ensures IdsOfEach(ONLY_B, CutSpecials(ONLY_B, [97], []), cuts) == [] && DecodedIds(ONLY_B, []) == []
    ensures !AllSpelled(ONLY_B, cuts)
  {
    var fs: seq<Fragment> := [Fragment([97], [])];
    assert CutSpecials(ONLY_B, [97], []) == fs && SplitAll([], [97]) == [[97]];
    assert CutsOne(ONLY_B, [], fs[0], cuts[0]);
    assert RuneOf(97) == 97 && ONLY_B.values[0][0] != 97;
    var ps := cuts[0][0];
    hide Cuts, IdsOf, AllKnown, CutSpecials, SplitAll;
    ByteLost(ONLY_B, 97, ps);
    OnePart(ONLY_B, fs, cuts, ps);
  }

  /** A string without NUL comes back, if no special token outside ASCII occurs in it, no expression leaves a gap in
      it and the vocabulary can spell every byte. */
  lemma NulFreeKept(v: Vocabulary, s: Bytes, finds: seq<Finder>)
    requires Listed(v) && AllOrdered(finds) && 0 !in s
    requires forall k :: 0 <= k < |v.special| ==> Ascii(v.special[k])
    ensures Kept(finds, CutSpecials(v, s, v.special))
  {
    hide CutSpecials, SplitAll, Concat, Utf8, Values;
    var fs := CutSpecials(v, s, v.special);
    CutSpecialsExact(v, s, v.special, []);
    CutSpecialsKinds(v, s, v.special);
    forall k | 0 <= k < |fs| ensures KeptOne(finds, fs[k]) {
      if fs[k].ids != [] {
        assert IsSpecial(v, fs[k], v.special);
        var t :| t in v.special && fs[k] == Fragment(Utf8(t), [v.Encode(t)]);
        AsciiUtf8(t);
      } else {
        forall i | 0 <= i < |fs[k].value| ensures fs[k].value[i] != 0 {
          FragmentInside(fs, k, i);
        }
        SplitBytes(finds, fs[k].value);
      }
    }
  }
}
