/** The token vocabulary (model/vocabulary.go): lookup tables that keep the last entry of a repeated value. */
module Vocabularies {

  /** Code points; the vocabulary and the pieces of a text are sequences of them. */
  type Rune = int
  type Text = seq<Rune>

  const SPACE: Rune := 0x20

  datatype Vocabulary = Vocabulary(values: seq<Text>, scores: seq<real>, merges: seq<Text>, special: seq<Text>)
  {
    ghost predicate Valid() { |scores| == |values| }

    /** The id of a value, or -1. */
    function Encode(s: Text): int { LastIndex(values, s) }

    predicate Has(s: Text) { Encode(s) >= 0 }

    function Decode(id: int): Text
      requires 0 <= id < |values|
    {
      values[id]
    }

    /** The rank of merging two neighbours, or -1. */
    function Rank(left: Text, right: Text): int { LastIndex(merges, left + [SPACE] + right) }
  }

  /** Two pieces have a rank exactly if the two, with a space between them, are in the list of merges, and it is their
      last place there. */
  lemma RankExact(v: Vocabulary, left: Text, right: Text)
    ensures var r := v.Rank(left, right);
            && (r >= 0 <==> left + [0x20] + right in v.merges)
            && (r >= 0 ==> r < |v.merges| && v.merges[r] == left + [0x20] + right)
            && forall i :: r < i < |v.merges| && 0 <= i ==> v.merges[i] != left + [0x20] + right
  {
    LastIsLast(v.merges, left + [SPACE] + right);
  }

  lemma {:induction false} LastIsLast(list: seq<Text>, s: Text)
    ensures forall i :: LastIndex(list, s) < i < |list| && 0 <= i ==> list[i] != s
  {
    if list != [] && list[|list| - 1] != s {
      LastIsLast(list[..|list| - 1], s);
    }
  }

  function LastIndex(list: seq<Text>, s: Text): (r: int)
    ensures -1 <= r < |list|
    ensures r >= 0 ==> list[r] == s
    ensures r < 0 <==> s !in list
  {
    if list == [] then -1
    else if list[|list| - 1] == s then |list| - 1
    else LastIndex(list[..|list| - 1], s)
  }

  /** The loop that fills the values and merge maps. */
  method BuildTable(list: seq<Text>) returns (table: map<Text, int>)
    ensures forall s :: s in table <==> s in list
    ensures forall s :: s in table ==> table[s] == LastIndex(list, s)
  {
    table := map[];
    for i := 0 to |list|
      invariant forall s :: s in table <==> s in list[..i]
      invariant forall s :: s in table ==> table[s] == LastIndex(list[..i], s)
    {
      assert list[..i + 1][..i] == list[..i];
      table := table[list[i] := i];
    }
    assert list[..|list|] == list;
  }
}
