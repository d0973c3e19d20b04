/** The header of a Harmony message (harmony/harmonyparser.go, parseHeader): its role, channel and recipient, wherever
    the
    recipient stands. */
module HarmonyHeaders {
  import opened Arith
  import opened Strings
  import opened HarmonyStream
  import opened HarmonyMessages

  const CHANNEL := "<|channel|>"
  const CONSTRAIN := "<|constrain|>"

  // ---------- Words ----------

  /** The first place a space stands, or the length. */
  function FirstSpace(space: char -> bool, s: string): (n: nat)
    ensures n <= |s| && (n < |s| ==> space(s[n])) && forall i :: 0 <= i < n ==> !space(s[i])
  {
    if s == "" || space(s[0]) then 0 else 1 + FirstSpace(space, s[1..])
  }

  /** strings.Fields: the words between runs of spaces. */
  function Fields(space: char -> bool, s: string): seq<string>
    decreases |s|
  {
    if s == "" then []
    else if space(s[0]) then Fields(space, s[1..])
    else
      var n := FirstSpace(space, s);
      [s[..n]] + Fields(space, s[n..])
  }

  function TrimLeft(space: char -> bool, s: string): string {
    if s != "" && space(s[0]) then TrimLeft(space, s[1..]) else s
  }

  function TrimRight(space: char -> bool, s: string): string {
    if s != "" && space(s[|s| - 1]) then TrimRight(space, s[..|s| - 1]) else s
  }

  function Trim(space: char -> bool, s: string): string { TrimRight(space, TrimLeft(space, s)) }

  function HasPrefix(s: string, prefix: string): bool { prefix <= s }

  // ---------- parseHeader ----------

  /** Put a space before the constraint, so that it is a word of its own. */
  function SetApart(space: char -> bool, raw: string): string {
    var i := Index(raw, CONSTRAIN);
    if i < 0 then raw else Trim(space, raw[..i] + " " + raw[i..])
  }

  /** The channel behind the first channel tag, and what is left of the header without both. */
  function CutChannel(space: char -> bool, raw: string): (string, string) {
    var i := Index(raw, CHANNEL);
    if i < 0 then ("", raw)
    else
      var after := raw[i + |CHANNEL|..];
      var n := FirstSpace(space, after);
      (after[..n], Trim(space, raw[..i] + after[n..]))
  }

  /** The first word is the role, or, as to=name, the recipient of a tool call; the second may be the recipient too. */
  function FromWords(channel: string, words: seq<string>): Header {
    if words == [] then Header("", channel, "")
    else
      var isTool := HasPrefix(words[0], "to=");
      var recipient := if isTool then words[0][3..] else "";
      Header(if isTool then "tool" else words[0], channel,
             if recipient == "" && |words| > 1 && HasPrefix(words[1], "to=") then words[1][3..] else recipient)
  }

  method ParseHeader(space: char -> bool, raw0: string) returns (header: Header)
    ensures header == HeaderOf(space, raw0)
  {
    hide Trim, Fields, Index;
    var raw := raw0;
    if Contains(raw, CONSTRAIN) {
      var i := Index(raw, CONSTRAIN);
      raw := Trim(space, raw[..i] + " " + raw[i..]);
    }
    header := Header("", "", "");
    var i := Index(raw, CHANNEL);
    if i != -1 {
      IndexAtLeast(raw, CHANNEL);
      var before, after := raw[..i], raw[i + |CHANNEL|..];
      var n := FirstSpace(space, after);
      header := header.(channel := after[..n]);
      after := after[n..];
      raw := Trim(space, before + after);
    }
    var tokens := Fields(space, raw);
    if |tokens| == 0 {
      return;
    }
    var role := tokens[0];
    tokens := tokens[1..];
    if HasPrefix(role, "to=") {
      header := header.(recipient := role[3..], role := "tool");
    } else {
      header := header.(role := role);
    }
    if header.recipient == "" && |tokens| > 0 && HasPrefix(tokens[0], "to=") {
      header := header.(recipient := tokens[0][3..]);
    }
  }

  function HeaderOf(space: char -> bool, raw: string): Header {
    var (channel, rest) := CutChannel(space, SetApart(space, raw));
    FromWords(channel, Fields(space, rest))
  }

  lemma IndexAtLeast(s: string, sub: string)
    ensures Index(s, sub) >= 0 || Index(s, sub) == -1
  {
    IndexFromAtLeast(s, sub, 0);
  }

  lemma {:induction false} IndexFromAtLeast(s: string, sub: string, i: int)
    requires 0 <= i <= |s|
    ensures IndexFrom(s, sub, i) >= 0 || IndexFrom(s, sub, i) == -1
    decreases |s| - i
  {
    if !OccursAt(s, sub, i) && i < |s| {
      IndexFromAtLeast(s, sub, i + 1);
    }
  }

  // ---------- What the words of a header are ----------

  /** A blank is a space, and nothing in the tags is. */
  ghost predicate Spaces(space: char -> bool) {
    space(' ') && (forall c :: c in CHANNEL + CONSTRAIN + "to=" ==> !space(c))
  }

  predicate Word(space: char -> bool, w: string) { w != "" && forall i :: 0 <= i < |w| ==> !space(w[i]) && w[i] != '<' }

  predicate TagFree(s: string) { forall i :: 0 <= i < |s| ==> s[i] != '<' }

  lemma {:induction false} FirstSpaceIs(space: char -> bool, s: string, n: nat)
    requires n <= |s| && (n < |s| ==> space(s[n])) && forall i :: 0 <= i < n ==> !space(s[i])
    ensures FirstSpace(space, s) == n
  {
    if n > 0 {
      FirstSpaceIs(space, s[1..], n - 1);
    }
  }

  lemma WordFirst(space: char -> bool, w: string, rest: string)
    requires w != "" && (forall i :: 0 <= i < |w| ==> !space(w[i])) && (rest == "" || space(rest[0]))
    ensures FirstSpace(space, w + rest) == |w|
    ensures Fields(space, w + rest) == [w] + Fields(space, rest)
  {
    var s := w + rest;
    FirstSpaceIs(space, s, |w|);
    assert s[..|w|] == w && s[|w|..] == rest;
  }

  lemma SpaceSkipped(space: char -> bool, c: char, rest: string)
    requires space(c)
    ensures Fields(space, [c] + rest) == Fields(space, rest)
  {
    assert ([c] + rest)[1..] == rest;
  }

  /** Spaces at the ends do not matter for the words. */
  lemma {:induction false} FieldsTrimLeft(space: char -> bool, s: string)
    ensures Fields(space, TrimLeft(space, s)) == Fields(space, s)
  {
    if s != "" && space(s[0]) {
      FieldsTrimLeft(space, s[1..]);
    }
  }

  lemma {:induction false} FieldsSpaceLast(space: char -> bool, s: string, c: char)
    requires space(c)
    ensures Fields(space, s + [c]) == Fields(space, s)
    decreases |s|
  {
    var t := s + [c];
    if s == "" {
      assert t[1..] == "";
    } else if space(s[0]) {
      assert t[1..] == s[1..] + [c];
      FieldsSpaceLast(space, s[1..], c);
    } else {
      var n := FirstSpace(space, s);
      var w, rest := s[..n], s[n..];
      assert s == w + rest && t == w + (rest + [c]);
      FieldsSpaceLast(space, rest, c);
      WordFirst(space, w, rest + [c]);
      WordFirst(space, w, rest);
    }
  }

  lemma {:induction false} FieldsTrimRight(space: char -> bool, s: string)
    ensures Fields(space, TrimRight(space, s)) == Fields(space, s)
  {
    if s != "" && space(s[|s| - 1]) {
      var n := |s| - 1;
      FieldsTrimRight(space, s[..n]);
      FieldsSpaceLast(space, s[..n], s[n]);
      assert s == s[..n] + [s[n]];
    }
  }

  lemma FieldsTrim(space: char -> bool, s: string)
    ensures Fields(space, Trim(space, s)) == Fields(space, s)
  {
    FieldsTrimLeft(space, s);
    FieldsTrimRight(space, TrimLeft(space, s));
  }

  lemma TrimNothing(space: char -> bool, s: string)
    requires s == "" || (!space(s[0]) && !space(s[|s| - 1]))
    ensures Trim(space, s) == s
  {
  }

  lemma Starts(s: string, tag: string, j: int, k: int)
    requires 0 <= k < |tag| && 0 <= j
    ensures OccursAt(s, tag, j) ==> s[j + k] == tag[k]
  {
    if OccursAt(s, tag, j) {
      assert s[j..j + |tag|][k] == s[j + k];
    }
  }

  /** A tag behind text without one. */
  lemma TagBehind(x: string, tag: string, rest: string)
    requires TagFree(x) && tag != "" && tag[0] == '<'
    ensures Index(x + tag + rest, tag) == |x|
  {
    var s := x + tag + rest;
    assert s[|x|..|x| + |tag|] == tag;
    forall j | 0 <= j < |x| ensures !OccursAt(s, tag, j) {
      Starts(s, tag, j, 0);
      assert s[j] == x[j];
    }
    IndexUnique(s, tag, |x|);
  }

  /** The constraint tag occurs only where it is written, if at all. */
  lemma ConstraintBehind(a: string, x: string, rest: string)
    requires TagFree(a) && TagFree(x) && (rest == "" || CONSTRAIN <= rest)
    ensures Index(a + CHANNEL + x + rest, CONSTRAIN) == if rest == "" then -1 else |a + CHANNEL + x|
  {
    var s, n := a + CHANNEL + x + rest, |a + CHANNEL + x|;
    forall j | 0 <= j < n ensures !OccursAt(s, CONSTRAIN, j) {
      Starts(s, CONSTRAIN, j, 0);
      Starts(s, CONSTRAIN, j, 3);
      OnlyTag(a, x, rest, j);
    }
    if rest == "" {
      forall j | 0 <= j ensures !OccursAt(s, CONSTRAIN, j) {
      }
      NoIndex(s, CONSTRAIN);
      IndexAtLeast(s, CONSTRAIN);
    } else {
      assert s[n..n + |CONSTRAIN|] == rest[..|CONSTRAIN|] == CONSTRAIN;
      IndexUnique(s, CONSTRAIN, n);
    }
  }

  lemma OnlyTag(a: string, x: string, rest: string, j: int)
    requires TagFree(a) && TagFree(x) && 0 <= j < |a + CHANNEL + x|
    ensures var s := a + CHANNEL + x + rest; s[j] == '<' ==> j + 3 < |a + CHANNEL + x| && s[j + 3] == 'h'
  {
    var s := a + CHANNEL + x + rest;
    if j < |a| {
      assert s[j] == a[j];
    } else if j < |a| + |CHANNEL| {
      assert s[j] == CHANNEL[j - |a|];
      assert s[|a| + 3] == CHANNEL[3];
    } else {
      assert s[j] == x[j - |a| - |CHANNEL|];
    }
  }

  /** A header with a channel: the channel is the word behind its tag, and the words are those of the rest. */
  lemma ChannelRead(space: char -> bool, a: string, ch: string, rest: string)
    requires Spaces(space) && TagFree(a) && Word(space, ch) && (rest == "" || space(rest[0]))
    ensures CutChannel(space, a + CHANNEL + ch + rest) == (ch, Trim(space, a + rest))
  {
    hide Fields, Index, Trim;
    var raw := a + CHANNEL + ch + rest;
    TagBehind(a, CHANNEL, ch + rest);
    assert raw == a + CHANNEL + (ch + rest);
    assert raw[..|a|] == a && raw[|a| + |CHANNEL|..] == ch + rest;
    WordFirst(space, ch, rest);
    assert (ch + rest)[..|ch|] == ch && (ch + rest)[|ch|..] == rest;
  }

  /** A constraint is set apart from what stands before it. */
  lemma ConstraintApart(space: char -> bool, a: string, x: string, c: string)
    requires Spaces(space) && TagFree(a) && (a == "" || !space(a[0])) && TagFree(x)
    requires c == "" || (CONSTRAIN <= c && !space(c[|c| - 1]))
    ensures SetApart(space, a + CHANNEL + x + c) == a + CHANNEL + x + if c == "" then "" else " " + c
  {
    hide Index, Trim;
    var front := a + CHANNEL + x;
    ConstraintBehind(a, x, c);
    if c != "" {
      var raw, apart := front + c, front + (" " + c);
      assert raw[..|front|] == front && raw[|front|..] == c;
      assert front + " " + c == apart;
      assert apart[0] == (if a == "" then CHANNEL[0] else a[0]) && apart[|apart| - 1] == c[|c| - 1];
      assert CHANNEL[0] in CHANNEL + CONSTRAIN + "to=";
      TrimNothing(space, apart);
    }
  }

  /** The channel and the words of a header. */
  lemma HeaderRead(space: char -> bool, a: string, ch: string, b: string, c: string)
    requires Spaces(space) && TagFree(a) && (a == "" || !space(a[0])) && Word(space, ch)
    requires TagFree(b) && (b == "" || space(b[0]))
    requires c == "" || (CONSTRAIN <= c && !space(c[|c| - 1]))
    ensures HeaderOf(space, a + CHANNEL + ch + b + c)
            == FromWords(ch, Fields(space, a + (b + if c == "" then "" else " " + c)))
  {
    hide Fields, Index, Trim, FromWords, SetApart, CutChannel;
    var last := if c == "" then "" else " " + c;
    var rest := b + last;
    ConstraintApart(space, a, ch + b, c);
    Parts(a + CHANNEL, ch, b, c);
    Parts(a + CHANNEL, ch, b, last);
    RestStarts(space, b, last);
    ChannelRead(space, a, ch, rest);
    FieldsTrim(space, a + rest);
  }

  lemma Parts(x: string, ch: string, b: string, c: string)
    ensures x + ch + b + c == x + (ch + b) + c == x + ch + (b + c)
  {
  }

  lemma Nothing(x: string, y: string)
    ensures x + "" + y == x + y && "" + y == y
  {
  }

  lemma RestStarts(space: char -> bool, b: string, last: string)
    requires Spaces(space) && (b == "" || space(b[0])) && (last == "" || last[0] == ' ')
    ensures b + last == "" || space((b + last)[0])
  {
  }

  /** What may stand behind the channel: a constraint, or nothing. */
  predicate Constraint(space: char -> bool, c: string) {
    c == "" || (CONSTRAIN <= c && forall i :: 0 <= i < |c| ==> !space(c[i]))
  }

  lemma LastWords(space: char -> bool, c: string)
    requires Spaces(space) && Constraint(space, c)
    ensures Fields(space, if c == "" then "" else " " + c) == if c == "" then [] else [c]
  {
    if c != "" {
      SpaceSkipped(space, ' ', c);
      WordFirst(space, c, "");
      assert c + "" == c;
    }
  }

  lemma NoSpaceIn(space: char -> bool, rec: string)
    requires Spaces(space) && Word(space, rec)
    ensures forall i :: 0 <= i < |"to=" + rec| ==> !space(("to=" + rec)[i])
  {
    assert !space('t') && !space('o') && !space('=') by {
      var tags := CHANNEL + CONSTRAIN + "to=";
      var n := |CHANNEL| + |CONSTRAIN|;
      assert tags[n] == 't' && tags[n + 1] == 'o' && tags[n + 2] == '=';
    }
  }

  lemma SpaceTo(rec: string, rest: string)
    ensures " to=" + rec + rest == [' '] + ("to=" + rec + rest)
  {
    assert " to=" == [' '] + "to=";
  }

  lemma RecipientWord(space: char -> bool, rec: string, rest: string)
    requires Spaces(space) && Word(space, rec) && (rest == "" || space(rest[0]))
    ensures Fields(space, "to=" + rec + rest) == ["to=" + rec] + Fields(space, rest)
    ensures Fields(space, " to=" + rec + rest) == ["to=" + rec] + Fields(space, rest)
  {
    hide Fields;
    var w := "to=" + rec;
    NoSpaceIn(space, rec);
    WordFirst(space, w, rest);
    SpaceTo(rec, rest);
    SpaceSkipped(space, ' ', w + rest);
  }

  /** The words of a header with a recipient behind the role. */
  lemma RoleAndRecipient(space: char -> bool, role: string, ch: string, rec: string, c: string)
    requires Spaces(space) && Word(space, role) && Word(space, rec) && Constraint(space, c) && !HasPrefix(role, "to=")
    ensures FromWords(ch, Fields(space, role + (" to=" + rec + if c == "" then "" else " " + c)))
            == Header(role, ch, rec)
  {
    hide Fields;
    var last, words := if c == "" then "" else " " + c, if c == "" then [] else [c];
    LastWords(space, c);
    RecipientWord(space, rec, last);
    WordFirst(space, role, " to=" + rec + last);
    assert Fields(space, role + (" to=" + rec + last)) == [role, "to=" + rec] + words;
    assert ("to=" + rec)[3..] == rec;
  }

  lemma RecipientBehind(space: char -> bool, role: string, ch: string, rec: string, c: string)
    requires Spaces(space) && Word(space, role) && Word(space, ch) && Word(space, rec) && Constraint(space, c)
    requires !HasPrefix(role, "to=")
    ensures HeaderOf(space, role + CHANNEL + ch + " to=" + rec + c) == Header(role, ch, rec)
  {
    hide HeaderOf, Fields, FromWords;
    RoleAndRecipient(space, role, ch, rec, c);
    HeaderRead(space, role, ch, " to=" + rec, c);
    assert role + CHANNEL + ch + " to=" + rec + c == role + CHANNEL + ch + (" to=" + rec) + c;
  }

  lemma RecipientBefore(space: char -> bool, role: string, ch: string, rec: string, c: string)
    requires Spaces(space) && Word(space, role) && Word(space, ch) && Word(space, rec) && Constraint(space, c)
    requires !HasPrefix(role, "to=")
    ensures HeaderOf(space, role + " to=" + rec + CHANNEL + ch + c) == Header(role, ch, rec)
  {
    hide HeaderOf, Fields, FromWords;
    var a, last := role + " to=" + rec, if c == "" then "" else " " + c;
    RoleAndRecipient(space, role, ch, rec, c);
    assert a[0] == role[0];
    HeaderRead(space, a, ch, "", c);
    assert a + CHANNEL + ch + "" + c == role + " to=" + rec + CHANNEL + ch + c;
    assert a + ("" + last) == role + (" to=" + rec + last);
  }

  lemma RecipientAlone(space: char -> bool, ch: string, rec: string, c: string)
    requires Spaces(space) && Word(space, ch) && Word(space, rec) && Constraint(space, c)
    ensures HeaderOf(space, "to=" + rec + CHANNEL + ch + c) == Header("tool", ch, rec)
  {
    hide HeaderOf, Fields;
    var a, last := "to=" + rec, if c == "" then "" else " " + c;
    LastWords(space, c);
    RecipientWord(space, rec, last);
    assert a[0] in "to=";
    HeaderRead(space, a, ch, "", c);
    assert a + CHANNEL + ch + "" + c == "to=" + rec + CHANNEL + ch + c;
    assert a + ("" + last) == "to=" + rec + last;
    assert ("to=" + rec)[3..] == rec;
  }

  lemma NotRecipient(c: string)
    requires CONSTRAIN <= c
    ensures !HasPrefix(c, "to=")
  {
    assert c[0] == CONSTRAIN[0];
  }

  lemma RoleFirst(space: char -> bool, role: string, last: string)
    requires Spaces(space) && Word(space, role) && (last == "" || last[0] == ' ')
    ensures TagFree(role) && role != "" && !space(role[0]) && Fields(space, role + last) == [role] + Fields(space, last)
  {
    hide Fields;
    WordFirst(space, role, last);
  }

  lemma NoRecipient(space: char -> bool, role: string, ch: string, c: string)
    requires Spaces(space) && Word(space, role) && Word(space, ch) && Constraint(space, c) && !HasPrefix(role, "to=")
    ensures HeaderOf(space, role + CHANNEL + ch + c) == Header(role, ch, "")
  {
    hide HeaderOf, Fields, Word;
    var last := if c == "" then "" else " " + c;
    LastWords(space, c);
    RoleFirst(space, role, last);
    HeaderRead(space, role, ch, "", c);
    Nothing(role + CHANNEL + ch, c);
    Nothing("", last);
    if c != "" {
      NotRecipient(c);
    }
  }

  /** The recipient may stand before or behind the channel, or in place of the role, and a constraint may follow with or
      without a space: the header is the same. */
  lemma RecipientAnywhere(space: char -> bool, role: string, ch: string, rec: string, c: string)
    requires Spaces(space) && Word(space, role) && Word(space, ch) && Word(space, rec) && Constraint(space, c)
    requires !HasPrefix(role, "to=")
    ensures HeaderOf(space, role + CHANNEL + ch + " to=" + rec + c) == Header(role, ch, rec)
    ensures HeaderOf(space, role + " to=" + rec + CHANNEL + ch + c) == Header(role, ch, rec)
    ensures HeaderOf(space, "to=" + rec + CHANNEL + ch + c) == Header("tool", ch, rec)
    ensures HeaderOf(space, role + CHANNEL + ch + c) == Header(role, ch, "")
  {
    hide HeaderOf;
    RecipientBehind(space, role, ch, rec, c);
    RecipientBefore(space, role, ch, rec, c);
    RecipientAlone(space, ch, rec, c);
    NoRecipient(space, role, ch, c);
  }

  /** Where the content behind such headers goes. */
  lemma PlacesRead(space: char -> bool, role: string, rec: string, c: string)
    requires Spaces(space) && Word(space, role) && Word(space, rec) && Constraint(space, c) && !HasPrefix(role, "to=")
    requires Word(space, "analysis") && Word(space, "commentary") && Word(space, "final")
    ensures PlaceOf(HeaderOf(space, role + CHANNEL + "analysis" + c)) == Thinking
    ensures PlaceOf(HeaderOf(space, role + CHANNEL + "commentary" + c)) == Normal
    ensures PlaceOf(HeaderOf(space, role + CHANNEL + "final" + c)) == Normal
    ensures PlaceOf(HeaderOf(space, role + CHANNEL + "analysis" + " to=" + rec + c)) == ToolCalling
    ensures PlaceOf(HeaderOf(space, role + CHANNEL + "commentary" + " to=" + rec + c)) == ToolCalling
    ensures PlaceOf(HeaderOf(space, role + " to=" + rec + CHANNEL + "commentary" + c)) == ToolCalling
  {
    hide HeaderOf;
    RecipientAnywhere(space, role, "analysis", rec, c);
    RecipientAnywhere(space, role, "commentary", rec, c);
    RecipientAnywhere(space, role, "final", rec, c);
  }
}
