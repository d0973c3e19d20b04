/** The streaming Harmony parser (harmony/harmonyparser.go): what it reports does not depend on how the text
    is cut into chunks. */
module Harmony {
  import opened Arith
  import opened Strings

  datatype State = LookingForMessageStart | ParsingHeader | ParsingContent

  /** HeaderComplete carries the raw header; its fields are read by the handler. */
  datatype Event = MessageStart | HeaderComplete(raw: string) | Content(text: string) | MessageEnd

  datatype Tags = Tags(start: string, end: string, header: string)
  {
    ghost predicate Valid() { start != "" && end != "" && header != "" }

    /** The tag that ends the given state. */
    function Closing(s: State): string {
      match s
      case LookingForMessageStart => start
      case ParsingHeader => header
      case ParsingContent => end
    }
  }

  datatype Outcome = Outcome(state: State, acc: string, events: seq<Event>)

  predicate HasSuffix(s: string, suffix: string) {
    |suffix| <= |s| && s[|s| - |suffix|..] == suffix
  }

  /** The length of the longest suffix of s that is a prefix of delim, up to n. */
  function OverlapTo(s: string, delim: string, n: int): (r: int)
    requires 0 <= n <= |delim| && n <= |s|
    ensures 0 <= r <= n && HasSuffix(s, delim[..r])
    ensures forall i :: r < i <= n ==> !HasSuffix(s, delim[..i])
  {
    if n == 0 || HasSuffix(s, delim[..n]) then n else OverlapTo(s, delim, n - 1)
  }

  function Overlap(s: string, delim: string): (r: int)
    ensures 0 <= r <= |delim| && r <= |s| && HasSuffix(s, delim[..r])
    ensures forall i :: r < i <= |delim| && i <= |s| ==> !HasSuffix(s, delim[..i])
  {
    OverlapTo(s, delim, Min(|delim|, |s|))
  }

  /** The loop of overlap. */
  method OverlapOf(s: string, delim: string) returns (r: int)
    ensures r == Overlap(s, delim)
  {
    var i := Min(|delim|, |s|);
    while i > 0
      invariant 0 <= i <= Min(|delim|, |s|)
      invariant OverlapTo(s, delim, i) == Overlap(s, delim)
    {
      if HasSuffix(s, delim[..i]) {
        return i;
      }
      i := i - 1;
    }
    return 0;
  }

  function Text(s: string): seq<Event> { if s == "" then [] else [Content(s)] }

  /** What happens when the closing tag of a state is found after the text before. */
  function Close(s: State, before: string): (State, seq<Event>) {
    match s
    case LookingForMessageStart => (ParsingHeader, [MessageStart])
    case ParsingHeader => (ParsingContent, [HeaderComplete(before)])
    case ParsingContent => (LookingForMessageStart, Text(before) + [MessageEnd])
  }

  /** What happens when no closing tag is found: content is given out up to what may be the start of its tag. */
  function Hold(tags: Tags, s: State, acc: string): Outcome {
    if s.ParsingContent? then
      var k := |acc| - Overlap(acc, tags.end);
      Outcome(s, acc[k..], Text(acc[..k]))
    else Outcome(s, acc, [])
  }

  /** Everything the parser does with the accumulated text. */
  function Drain(tags: Tags, s: State, acc: string): (r: Outcome)
    requires tags.Valid()
    decreases |acc|
  {
    var i := Index(acc, tags.Closing(s));
    if i < 0 then Hold(tags, s, acc)
    else
      var (s', es) := Close(s, acc[..i]);
      var r := Drain(tags, s', acc[i + |tags.Closing(s)|..]);
      Outcome(r.state, r.acc, es + r.events)
  }

  // ---------- Events up to how content is cut ----------

  /** Append an event, joining adjacent content. */
  function Push(es: seq<Event>, e: Event): seq<Event> {
    if e.Content? && es != [] && es[|es| - 1].Content?
    then es[..|es| - 1] + [Content(es[|es| - 1].text + e.text)]
    else es + [e]
  }

  function Join(base: seq<Event>, es: seq<Event>): seq<Event> {
    if es == [] then base else Push(Join(base, es[..|es| - 1]), es[|es| - 1])
  }

  /** The events with adjacent content merged. */
  function Merged(es: seq<Event>): seq<Event> { Join([], es) }

  lemma {:induction false} JoinAppend(base: seq<Event>, a: seq<Event>, b: seq<Event>)
    ensures Join(base, a + b) == Join(Join(base, a), b)
  {
    if b == [] {
      assert a + b == a;
    } else {
      var n := |b| - 1;
      assert (a + b)[..|a + b| - 1] == a + b[..n];
      JoinAppend(base, a, b[..n]);
    }
  }

  lemma JoinOne(base: seq<Event>, e: Event)
    ensures Join(base, [e]) == Push(base, e)
  {
    assert [e][..0] == [];
    assert Join(base, []) == base;
  }

  /** Giving out content in two pieces or in one is the same. */
  lemma JoinText(base: seq<Event>, x: string, y: string)
    ensures Join(base, Text(x) + Text(y)) == Join(base, Text(x + y))
  {
    JoinAppend(base, Text(x), Text(y));
    if x == "" {
      assert x + y == y;
    } else if y == "" {
      assert x + y == x;
    } else {
      JoinOne(base, Content(x));
      JoinOne(Push(base, Content(x)), Content(y));
      JoinOne(base, Content(x + y));
      PushTwice(base, x, y);
    }
  }

  lemma PushTwice(base: seq<Event>, x: string, y: string)
    ensures Push(Push(base, Content(x)), Content(y)) == Push(base, Content(x + y))
  {
    if base != [] && base[|base| - 1].Content? {
      var t := base[|base| - 1].text;
      assert (t + x) + y == t + (x + y);
    }
  }

  /** The same events, up to how content is cut. */
  ghost predicate SameEvents(a: seq<Event>, b: seq<Event>) { Merged(a) == Merged(b) }

  lemma JoinPush(base: seq<Event>, m: seq<Event>, e: Event)
    ensures Join(base, Push(m, e)) == Push(Join(base, m), e)
  {
    var n := |m| - 1;
    if e.Content? && m != [] && m[n].Content? {
      var joined := Content(m[n].text + e.text);
      assert (m[..n] + [joined])[..n] == m[..n];
      PushTwice(Join(base, m[..n]), m[n].text, e.text);
    } else {
      assert (m + [e])[..|m|] == m;
    }
  }

  /** Only the merged events matter for what follows from them. */
  lemma {:induction false} JoinMerged(base: seq<Event>, es: seq<Event>)
    ensures Join(base, es) == Join(base, Merged(es))
  {
    if es != [] {
      var n := |es| - 1;
      JoinMerged(base, es[..n]);
      JoinPush(base, Merged(es[..n]), es[n]);
    }
  }

  lemma SamePrefix(es: seq<Event>, a: seq<Event>, b: seq<Event>)
    requires SameEvents(a, b)
    ensures SameEvents(es + a, es + b)
  {
    JoinAppend([], es, a);
    JoinAppend([], es, b);
    JoinMerged(Merged(es), a);
    JoinMerged(Merged(es), b);
  }

  lemma SameSuffix(a: seq<Event>, b: seq<Event>, c: seq<Event>)
    requires SameEvents(a, b)
    ensures SameEvents(a + c, b + c)
  {
    JoinAppend([], a, c);
    JoinAppend([], b, c);
  }

  /** The same parser state and the same events, up to how content is cut. */
  ghost predicate Same(a: Outcome, b: Outcome) {
    a.state == b.state && a.acc == b.acc && SameEvents(a.events, b.events)
  }

  // ---------- Feeding in two parts ----------

  /** The first occurrence of a tag in x stays the first when more text follows. */
  lemma IndexKept(x: string, b: string, tag: string)
    requires tag != "" && Index(x, tag) >= 0
    ensures Index(x + b, tag) == Index(x, tag)
  {
    var i := Index(x, tag);
    AppendSlice(x, b, i, i + |tag|);
    forall j | 0 <= j < i ensures !OccursAt(x + b, tag, j) {
      AppendSlice(x, b, j, j + |tag|);
      assert !OccursAt(x, tag, j);
    }
    IndexUnique(x + b, tag, i);
  }

  /** A tag that does not occur in x cannot start before the held-back suffix of x. */
  lemma NotBefore(x: string, b: string, tag: string, j: int)
    requires tag != "" && Index(x, tag) < 0 && 0 <= j < |x| - Overlap(x, tag)
    ensures !OccursAt(x + b, tag, j)
  {
    if j + |tag| <= |x| {
      AppendSlice(x, b, j, j + |tag|);
      assert !OccursAt(x, tag, j);
    } else if j <= |x + b| - |tag| {
      var n := |x| - j;
      assert !HasSuffix(x, tag[..n]);
      assert x[j..] == (x + b)[j..j + |tag|][..n];
    }
  }

  lemma OccursShift(w: string, k: int, tag: string, j: int)
    requires 0 <= k <= |w| && 0 <= j
    ensures OccursAt(w, tag, k + j) <==> OccursAt(w[k..], tag, j)
  {
    if j + |tag| <= |w| - k {
      assert w[k..][j..j + |tag|] == w[k + j..k + j + |tag|];
    }
  }

  lemma {:induction false} IndexShift(w: string, k: int, tag: string)
    requires 0 <= k <= |w| && tag != "" && forall j :: 0 <= j < k ==> !OccursAt(w, tag, j)
    ensures Index(w, tag) == if Index(w[k..], tag) < 0 then -1 else k + Index(w[k..], tag)
  {
    var i := Index(w[k..], tag);
    forall j | 0 <= j && (i < 0 || j < k + i) ensures !OccursAt(w, tag, j) {
      if j >= k {
        OccursShift(w, k, tag, j - k);
      }
    }
    if i < 0 {
      IndexNone(w, tag);
    } else {
      OccursShift(w, k, tag, i);
      IndexUnique(w, tag, k + i);
    }
  }

  /** Searching after the held-back suffix finds the same place. */
  lemma IndexHeld(x: string, b: string, tag: string)
    requires tag != "" && Index(x, tag) < 0
    ensures var k := |x| - Overlap(x, tag);
            Index(x + b, tag) == (if Index(x[k..] + b, tag) < 0 then -1 else k + Index(x[k..] + b, tag))
  {
    var k := |x| - Overlap(x, tag);
    forall j | 0 <= j < k ensures !OccursAt(x + b, tag, j) {
      NotBefore(x, b, tag, j);
    }
    assert (x + b)[k..] == x[k..] + b;
    IndexShift(x + b, k, tag);
  }

  lemma IndexNone(s: string, tag: string)
    requires forall j :: 0 <= j ==> !OccursAt(s, tag, j)
    ensures Index(s, tag) == -1
  {
    IndexFromNone(s, tag, 0);
  }

  lemma {:induction false} IndexFromNone(s: string, tag: string, i: int)
    requires 0 <= i <= |s| && forall j :: 0 <= j ==> !OccursAt(s, tag, j)
    ensures IndexFrom(s, tag, i) == -1
    decreases |s| - i
  {
    if i < |s| {
      IndexFromNone(s, tag, i + 1);
    }
  }

  lemma OverlapUnique(s: string, delim: string, r: int)
    requires 0 <= r <= |delim| && r <= |s| && HasSuffix(s, delim[..r])
    requires forall i :: r < i <= |delim| && i <= |s| ==> !HasSuffix(s, delim[..i])
    ensures Overlap(s, delim) == r
  {
  }

  lemma SuffixOfSuffix(w: string, k: int, t: string)
    requires 0 <= k <= |w| && |t| <= |w| - k
    ensures HasSuffix(w[k..], t) <==> HasSuffix(w, t)
  {
    assert w[k..][|w| - k - |t|..] == w[|w| - |t|..];
  }

  /** What is held back of x + b is what is held back once x has been cut to its own held-back suffix. */
  lemma OverlapHeld(x: string, b: string, tag: string)
    requires tag != "" && Index(x, tag) < 0
    ensures var k := |x| - Overlap(x, tag); Overlap(x + b, tag) == Overlap(x[k..] + b, tag)
  {
    var k := |x| - Overlap(x, tag);
    var w, y := x + b, x[k..] + b;
    assert w[k..] == y;
    var o := Overlap(y, tag);
    SuffixOfSuffix(w, k, tag[..o]);
    forall i | o < i <= |tag| && i <= |w| ensures !HasSuffix(w, tag[..i]) {
      if i <= |y| {
        SuffixOfSuffix(w, k, tag[..i]);
      } else if HasSuffix(w, tag[..i]) {
        OverlapInside(x, b, tag, i);
      }
    }
    OverlapUnique(w, tag, o);
  }

  /** A held-back suffix that reaches into x is no longer than what x holds back itself. */
  lemma OverlapInside(x: string, b: string, tag: string, o: int)
    requires |b| < o <= |tag| && o <= |x + b| && HasSuffix(x + b, tag[..o])
    ensures o - |b| <= Overlap(x, tag)
  {
    var n := o - |b|;
    assert (x + b)[|x + b| - o..][..n] == x[|x| - n..];
    assert tag[..o][..n] == tag[..n];
    assert HasSuffix(x, tag[..n]);
  }

  /** Holding back x and going on with b is the same as going on with x + b at once. */
  lemma HoldThenDrain(tags: Tags, s: State, x: string, b: string)
    requires tags.Valid() && Index(x, tags.Closing(s)) < 0
    ensures var h := Hold(tags, s, x);
            var r := Drain(tags, s, h.acc + b);
            h.state == s && Same(Outcome(r.state, r.acc, h.events + r.events), Drain(tags, s, x + b))
  {
    hide Drain, Index, Overlap;
    var h := Hold(tags, s, x);
    var r := Drain(tags, s, h.acc + b);
    if s.ParsingContent? {
      HoldContent(tags, x, b);
    } else {
      assert h.events + r.events == r.events;
    }
  }

  lemma HoldContent(tags: Tags, x: string, b: string)
    requires tags.Valid() && Index(x, tags.end) < 0
    ensures var h := Hold(tags, ParsingContent, x);
            var r := Drain(tags, ParsingContent, h.acc + b);
            Same(Outcome(r.state, r.acc, h.events + r.events), Drain(tags, ParsingContent, x + b))
  {
    hide Drain, Index, Overlap, Same;
    var k := |x| - Overlap(x, tags.end);
    var y := x[k..] + b;
    IndexHeld(x, b, tags.end);
    assert x + b == x[..k] + y;
    if Index(y, tags.end) < 0 {
      OverlapHeld(x, b, tags.end);
      HoldOpen(tags, x[..k], y);
      DrainHeld(tags, ParsingContent, y);
      DrainHeld(tags, ParsingContent, x + b);
    } else {
      var i := Index(y, tags.end);
      CloseContent(tags, x[..k], y, i, Drain(tags, LookingForMessageStart, y[i + |tags.end|..]));
    }
  }

  /** No end tag: the content given out is the front and what y gives out. */
  lemma DrainHeld(tags: Tags, s: State, acc: string)
    requires tags.Valid() && Index(acc, tags.Closing(s)) < 0
    ensures Drain(tags, s, acc) == Hold(tags, s, acc)
  {
    hide Index, Hold;
  }

  lemma HoldOpen(tags: Tags, front: string, y: string)
    requires tags.Valid() && Index(y, tags.end) < 0 && Index(front + y, tags.end) < 0
    requires Overlap(front + y, tags.end) == Overlap(y, tags.end)
    ensures var r := Hold(tags, ParsingContent, y);
            Same(Outcome(r.state, r.acc, Text(front) + r.events), Hold(tags, ParsingContent, front + y))
  {
    hide Index, Overlap;
    var n := |y| - Overlap(y, tags.end);
    assert (front + y)[..|front| + n] == front + y[..n];
    assert (front + y)[|front| + n..] == y[n..];
    assert Hold(tags, ParsingContent, y) == Outcome(ParsingContent, y[n..], Text(y[..n]));
    assert Hold(tags, ParsingContent, front + y) == Outcome(ParsingContent, y[n..], Text(front + y[..n]));
    SameText(front, y[..n]);
  }

  lemma SameText(x: string, y: string)
    ensures SameEvents(Text(x) + Text(y), Text(x + y))
  {
    JoinText([], x, y);
  }

  lemma DrainFound(tags: Tags, s: State, acc: string, i: int)
    requires tags.Valid() && i == Index(acc, tags.Closing(s)) >= 0
    ensures var c := Close(s, acc[..i]);
            var r := Drain(tags, c.0, acc[i + |tags.Closing(s)|..]);
            Drain(tags, s, acc) == Outcome(r.state, r.acc, c.1 + r.events)
  {
    hide Index, Close, Hold;
  }

  lemma DrainClosed(tags: Tags, y: string, i: int, d: Outcome)
    requires tags.Valid() && i == Index(y, tags.end) >= 0
    requires d == Drain(tags, LookingForMessageStart, y[i + |tags.end|..])
    ensures Drain(tags, ParsingContent, y) == Outcome(d.state, d.acc, (Text(y[..i]) + [MessageEnd]) + d.events)
  {
    hide Drain, Index;
    assert tags.Closing(ParsingContent) == tags.end;
    assert Close(ParsingContent, y[..i]) == (LookingForMessageStart, Text(y[..i]) + [MessageEnd]);
    DrainFound(tags, ParsingContent, y, i);
  }

  lemma DrainClosedFront(tags: Tags, front: string, y: string, i: int, d: Outcome)
    requires tags.Valid() && 0 <= i && i + |tags.end| <= |y| && Index(front + y, tags.end) == |front| + i
    requires d == Drain(tags, LookingForMessageStart, y[i + |tags.end|..])
    ensures Drain(tags, ParsingContent, front + y)
            == Outcome(d.state, d.acc, (Text(front + y[..i]) + [MessageEnd]) + d.events)
  {
    hide Drain, Index;
    var w := front + y;
    assert w[|front| + i + |tags.end|..] == y[i + |tags.end|..];
    assert w[..|front| + i] == front + y[..i];
    DrainClosed(tags, w, |front| + i, d);
  }

  /** An end tag: the front joins the content that the tag closes. */
  lemma CloseContent(tags: Tags, front: string, y: string, i: int, d: Outcome)
    requires tags.Valid() && i == Index(y, tags.end) >= 0 && Index(front + y, tags.end) == |front| + i
    requires d == Drain(tags, LookingForMessageStart, y[i + |tags.end|..])
    ensures var r := Drain(tags, ParsingContent, y);
            Same(Outcome(r.state, r.acc, Text(front) + r.events), Drain(tags, ParsingContent, front + y))
  {
    hide Drain;
    DrainClosed(tags, y, i, d);
    DrainClosedFront(tags, front, y, i, d);
    CloseSame(Drain(tags, ParsingContent, y), Drain(tags, ParsingContent, front + y), front, y[..i], d);
  }

  lemma CloseSame(r: Outcome, w: Outcome, x: string, y: string, d: Outcome)
    requires r == Outcome(d.state, d.acc, (Text(y) + [MessageEnd]) + d.events)
    requires w == Outcome(d.state, d.acc, (Text(x + y) + [MessageEnd]) + d.events)
    ensures Same(Outcome(r.state, r.acc, Text(x) + r.events), w)
  {
    SameClosed(x, y, d.events);
  }

  lemma SameClosed(x: string, y: string, d: seq<Event>)
    ensures SameEvents(Text(x) + ((Text(y) + [MessageEnd]) + d), (Text(x + y) + [MessageEnd]) + d)
  {
    var e := [MessageEnd] + d;
    assert Text(x) + ((Text(y) + [MessageEnd]) + d) == (Text(x) + Text(y)) + e;
    assert (Text(x + y) + [MessageEnd]) + d == Text(x + y) + e;
    SameText(x, y);
    SameSuffix(Text(x) + Text(y), Text(x + y), e);
  }

  lemma Regroup(a: seq<Event>, b: seq<Event>, c: seq<Event>)
    ensures a + (b + c) == (a + b) + c
  {
  }

  lemma SameLift(es: seq<Event>, p: seq<Event>, q: seq<Event>, w: seq<Event>)
    requires SameEvents(p + q, w)
    ensures SameEvents((es + p) + q, es + w)
  {
    Regroup(es, p, q);
    SamePrefix(es, p + q, w);
  }

  /** A closing tag found in x is found there too when b follows. */
  lemma DrainFoundThen(tags: Tags, s: State, x: string, b: string, i: int)
    requires tags.Valid() && i == Index(x, tags.Closing(s)) >= 0
    ensures var c := Close(s, x[..i]);
            var r := Drain(tags, c.0, x[i + |tags.Closing(s)|..] + b);
            Drain(tags, s, x + b) == Outcome(r.state, r.acc, c.1 + r.events)
  {
    var tag := tags.Closing(s);
    IndexKept(x, b, tag);
    assert (x + b)[i + |tag|..] == x[i + |tag|..] + b;
    assert (x + b)[..i] == x[..i];
    DrainFound(tags, s, x + b, i);
  }

  /** The outcome of draining x, then what is left followed by b. */
  function InTwo(tags: Tags, s: State, x: string, b: string): Outcome
    requires tags.Valid()
  {
    var p := Drain(tags, s, x);
    var q := Drain(tags, p.state, p.acc + b);
    Outcome(q.state, q.acc, p.events + q.events)
  }

  lemma InTwoFound(tags: Tags, s: State, x: string, b: string, i: int)
    requires tags.Valid() && i == Index(x, tags.Closing(s)) >= 0
    requires var c, rest := Close(s, x[..i]), x[i + |tags.Closing(s)|..];
             Same(InTwo(tags, c.0, rest, b), Drain(tags, c.0, rest + b))
    ensures Same(InTwo(tags, s, x, b), Drain(tags, s, x + b))
  {
    var c, rest := Close(s, x[..i]), x[i + |tags.Closing(s)|..];
    DrainFound(tags, s, x, i);
    DrainFoundThen(tags, s, x, b, i);
    var p, w := Drain(tags, c.0, rest), Drain(tags, c.0, rest + b);
    var q := Drain(tags, p.state, p.acc + b);
    SameLift(c.1, p.events, q.events, w.events);
  }

  /** Draining x and then draining what is left followed by b is draining x + b. */
  lemma {:induction false} DrainInTwo(tags: Tags, s: State, x: string, b: string)
    requires tags.Valid()
    ensures Same(InTwo(tags, s, x, b), Drain(tags, s, x + b))
    decreases |x|
  {
    var i := Index(x, tags.Closing(s));
    if i < 0 {
      HoldThenDrain(tags, s, x, b);
    } else {
      DrainInTwo(tags, Close(s, x[..i]).0, x[i + |tags.Closing(s)|..], b);
      InTwoFound(tags, s, x, b, i);
    }
  }
}
