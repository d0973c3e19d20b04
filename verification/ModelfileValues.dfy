/** How a printed value is read back (parser/parser.go): exactly which values survive. */
module ModelfileValues {
  import opened Options
  import opened Modelfiles

  // ---------- The buffer ----------

  /** Runes that a value keeps. */
  predicate Keeps(p: char -> bool, c: char) { p(c) || IsSpace(c) || IsNewline(c) }

  predicate KeepsAll(p: char -> bool, s: string) { forall i :: 0 <= i < |s| ==> Keeps(p, s[i]) }

  /** The buffer after reading w into a value. */
  function Keep(p: char -> bool, w: string): (b: string)
    ensures |b| <= |w| && KeepsAll(p, b)
  {
    if w == "" then "" else Keep(p, w[..|w| - 1]) + if Keeps(p, w[|w| - 1]) then [w[|w| - 1]] else []
  }

  lemma {:induction false} KeepSame(p: char -> bool, w: string)
    requires KeepsAll(p, w)
    ensures Keep(p, w) == w
  {
    if w != "" {
      KeepSame(p, w[..|w| - 1]);
    }
  }

  lemma {:induction false} KeepAppend(p: char -> bool, a: string, b: string)
    ensures Keep(p, a + b) == Keep(p, a) + Keep(p, b)
  {
    if b == "" {
      assert a + b == a;
    } else {
      var n := |b| - 1;
      assert (a + b)[..|a + b| - 1] == a + b[..n];
      KeepAppend(p, a, b[..n]);
    }
  }

  /** What the parser would make of the buffer. */
  function Reading(p: char -> bool, w: string): Option<string> { Unquote(TrimSpace(Keep(p, w))) }

  /** The k-th rune ends the value. */
  predicate Stops(p: char -> bool, w: string, k: int)
    requires 0 <= k < |w|
  {
    IsNewline(w[k]) && Reading(p, w[..k]).Some?
  }

  ghost predicate Quiet(p: char -> bool, w: string) {
    forall k {:trigger Stops(p, w, k)} :: 0 <= k < |w| ==> !Stops(p, w, k)
  }

  lemma QuietPrefix(p: char -> bool, w: string, n: int)
    requires Quiet(p, w) && 0 <= n <= |w|
    ensures Quiet(p, w[..n])
  {
    hide Reading;
    forall k {:trigger Stops(p, w[..n], k)} | 0 <= k < n ensures !Stops(p, w[..n], k) {
      assert w[..n][..k] == w[..k];
      assert !Stops(p, w, k);
    }
  }

  lemma {:induction false} FirstStop(p: char -> bool, w: string) returns (k: int)
    ensures 0 <= k <= |w| && Quiet(p, w[..k]) && (k < |w| ==> Stops(p, w, k))
  {
    hide Reading;
    var n := |w| - 1;
    if w == "" {
      return 0;
    }
    k := FirstStop(p, w[..n]);
    assert w[..n][..k] == w[..k];
    if k < n {
      assert Stops(p, w[..n], k);
      return;
    }
    if !Stops(p, w, n) {
      k := n + 1;
      forall m {:trigger Stops(p, w[..k], m)} | 0 <= m < k ensures !Stops(p, w[..k], m) {
        assert w[..k] == w;
        if m < n {
          assert w[..n][..m] == w[..m];
          assert !Stops(p, w[..n], m);
        }
      }
    }
  }

  // ---------- Values as the state machine reads them ----------

  /** Reading a value. */
  predicate InValue(st: State) { st.phase == Value && st.b == "" }

  lemma {:induction false} QuietRun(p: char -> bool, st: State, w: string)
    requires Printable(p) && InValue(st) && Quiet(p, w)
    ensures var r := Run(p, st, w); r.Ok? && r.value == st.(b := Keep(p, w), line := r.value.line)
  {
    hide Unquote, TrimSpace;
    if w != "" {
      var n := |w| - 1;
      QuietPrefix(p, w, n);
      QuietRun(p, st, w[..n]);
      assert !Stops(p, w, n);
    }
  }

  function Committed(st: State, v: string, line: nat): State { Commit(st, v).(phase := Nil, b := "", line := line) }

  /** The first rune that ends the value commits the command. */
  lemma StopRun(p: char -> bool, st: State, w: string, k: int)
    requires Printable(p) && InValue(st) && 0 <= k < |w| && Quiet(p, w[..k]) && Stops(p, w, k)
    ensures var r := Run(p, st, w[..k + 1]); r.Ok? && r.value == Committed(st, Reading(p, w[..k]).value, r.value.line)
  {
    hide Unquote, TrimSpace;
    QuietRun(p, st, w[..k]);
    assert w[..k + 1][..k] == w[..k];
  }

  lemma {:induction false} CommandsGrow(p: char -> bool, st: State, text: string)
    requires Run(p, st, text).Ok?
    ensures st.cmds <= Run(p, st, text).value.cmds
  {
    hide Step;
    if text != "" {
      CommandsGrow(p, st, text[..|text| - 1]);
      StepGrows(p, Run(p, st, text[..|text| - 1]).value, text[|text| - 1]);
    }
  }

  lemma StepGrows(p: char -> bool, st: State, r: char)
    requires Step(p, st, r).Ok?
    ensures st.cmds <= Step(p, st, r).value.cmds
  {
    hide Unquote, TrimSpace, ValidCommand, Lower;
  }

  /** If parsing succeeds, the value in hand is committed next, and that stays. */
  lemma FirstCommit(p: char -> bool, st: State, text: string) returns (k: int)
    requires Printable(p) && InValue(st) && ParseFrom(p, st, text).Ok?
    ensures 0 <= k <= |text| && Quiet(p, text[..k]) && (k < |text| ==> IsNewline(text[k]))
    ensures Reading(p, text[..k]).Some?
    ensures st.cmds + [Command(st.name, Full(st.role, Reading(p, text[..k]).value))] <= ParseFrom(p, st, text).value
  {
    hide Unquote, TrimSpace, Run;
    k := FirstStop(p, text);
    if k < |text| {
      StopRun(p, st, text, k);
      RunSplit(p, st, text, k + 1);
      CommandsGrow(p, Run(p, st, text[..k + 1]).value, text[k + 1..]);
    } else {
      assert text[..k] == text;
      QuietRun(p, st, text);
    }
  }

  // ---------- Values printed as they are ----------

  /** No white space at the edges, no opening quote, and only runes that are kept within a line. */
  ghost predicate RawGood(p: char -> bool, s: string) {
    && (forall i :: 0 <= i < |s| ==> p(s[i]) || s[i] == '\t')
    && (s != "" ==> !IsWhite(s[0]) && !IsWhite(s[|s| - 1]) && s[0] != '"')
  }

  lemma TrimNothing(s: string)
    requires s != "" ==> !IsWhite(s[0]) && !IsWhite(s[|s| - 1])
    ensures TrimSpace(s) == s
  {
  }

  lemma RawReads(p: char -> bool, s: string)
    requires Printable(p) && RawGood(p, s)
    ensures Quiet(p, s) && Reading(p, s) == Some(s)
  {
    hide Keep, TrimSpace;
    KeepSame(p, s);
    TrimNothing(s);
  }

  /** What is read is part of the buffer, without the quotes. */
  lemma UnquoteSlice(t: string)
    requires Unquote(t).Some?
    ensures var q := Quotes(t); 2 * q <= |t| && Unquote(t).value == t[q..|t| - q]
  {
  }

  lemma TrimSlice(b: string)
    ensures var t := TrimSpace(b); t != "" ==> Lead(b) < Tail(b) && t == b[Lead(b)..Tail(b)]
  {
    LeadTail(b);
  }

  /** v is b without i runes and q quotes in front, and some at the end. */
  ghost predicate Within(b: string, i: int, q: int, v: string) {
    && 0 <= i && 0 <= q && i + q + |v| + q <= |b| && v == b[i + q..i + q + |v|]
    && (Lead(b) < |b| ==>
          i == Lead(b) && (q > 0 <==> b[i] == '"') && forall k :: i <= k < i + q ==> b[k] == '"')
  }

  lemma QuotesAre(t: string)
    ensures forall k :: 0 <= k < Quotes(t) ==> t[k] == '"'
    ensures t != "" ==> (Quotes(t) > 0 <==> t[0] == '"')
  {
    if |t| >= 3 && t[..3] == "\"\"\"" {
      assert t[0] == t[..3][0] && t[1] == t[..3][1] && t[2] == t[..3][2];
    }
  }

  lemma WithinTrimmed(b: string, t: string, q: int)
    requires t != "" && Lead(b) < Tail(b) && t == b[Lead(b)..Tail(b)] && 0 <= q && 2 * q <= |t|
    requires (forall k :: 0 <= k < q ==> t[k] == '"') && (q > 0 <==> t[0] == '"')
    ensures Within(b, Lead(b), q, t[q..|t| - q])
  {
    hide Lead, Tail, IsWhite;
    var i, v := Lead(b), t[q..|t| - q];
    assert forall k :: 0 <= k < |t| ==> t[k] == b[i + k];
    assert forall k :: i <= k < i + q ==> b[k] == t[k - i];
    assert v == b[i + q..i + q + |v|];
  }

  /** A reading as a slice of the buffer. */
  lemma BufferSlice(b: string) returns (i: int, q: int)
    requires Unquote(TrimSpace(b)).Some?
    ensures Within(b, i, q, Unquote(TrimSpace(b)).value)
  {
    var t := TrimSpace(b);
    UnquoteSlice(t);
    TrimSlice(b);
    QuotesAre(t);
    if t == "" {
      return 0, 0;
    }
    hide Unquote, TrimSpace, Quotes, Lead, Tail, IsWhite, Within;
    i, q := Lead(b), Quotes(t);
    WithinTrimmed(b, t, q);
  }

  lemma ReadingKept(p: char -> bool, w: string)
    requires Reading(p, w).Some?
    ensures KeepsAll(p, Reading(p, w).value)
  {
    hide Unquote, TrimSpace, Keep;
    var i, q := BufferSlice(Keep(p, w));
  }

  // ---------- Only good values are read back ----------

  /** A buffer that repeats itself after white space and quotes holds no newline. */
  lemma {:induction false} Periodic(b: string, i: int, d: int, n: int, x: int)
    requires 0 <= i < d && 0 <= n && n + d <= |b| && 0 <= x < n + d
    requires forall k :: 0 <= k < i ==> !IsNewline(b[k])
    requires forall k :: i <= k < d ==> b[k] == '"'
    requires forall k :: 0 <= k < n ==> b[k] == b[k + d]
    ensures !IsNewline(b[x])
    decreases x
  {
    if x >= d {
      Periodic(b, i, d, n, x - d);
      assert b[x - d] == b[x - d + d];
    }
  }

  lemma TrimSame(s: string)
    requires TrimSpace(s) == s
    ensures s != "" ==> !IsWhite(s[0]) && !IsWhite(s[|s| - 1])
  {
  }

  lemma WholeUnquoted(s: string)
    requires Unquote(TrimSpace(s)) == Some(s)
    ensures TrimSpace(s) == s
  {
    TrimSlice(s);
    UnquoteSlice(TrimSpace(s));
  }

  /** Text that cannot end a value has opened with a quote. */
  lemma NotYet(b: string)
    requires Unquote(TrimSpace(b)).None?
    ensures Lead(b) < |b| && b[Lead(b)] == '"'
  {
    TrimSlice(b);
    var t := TrimSpace(b);
    hide TrimSpace, Lead, Tail, IsWhite;
    if t != "" {
      assert t[0] == b[Lead(b)];
      assert t[0] == '"' by {
        assert |t| >= 3 ==> t[..3][0] == t[0];
      }
    }
  }

  lemma LeadPrefix(s: string, n: int)
    requires 0 <= n <= |s| && Lead(s[..n]) < n
    ensures Lead(s) == Lead(s[..n])
  {
    var i, j := Lead(s), Lead(s[..n]);
    assert forall k :: 0 <= k < n ==> s[..n][k] == s[k];
  }

  lemma KeepFirst(p: char -> bool, w: string)
    requires w != "" && Keeps(p, w[0])
    ensures Keep(p, w) != "" && Keep(p, w)[0] == w[0]
  {
    assert w[..1] + w[1..] == w;
    KeepAppend(p, w[..1], w[1..]);
    KeepSame(p, w[..1]);
  }

  /** Before the text s can end a value it must have a quote in front, ahead of any newline. */
  lemma NoNewlineBefore(p: char -> bool, s: string, w: string, m: int)
    requires KeepsAll(p, s) && s <= w && Quiet(p, w) && 0 <= m < |w| && m <= |s| && IsNewline(w[m])
    ensures Lead(s) < m && s[Lead(s)] == '"'
  {
    hide Unquote, TrimSpace;
    assert !Stops(p, w, m);
    assert w[..m] == s[..m];
    KeepSame(p, s[..m]);
    NotYet(s[..m]);
    LeadPrefix(s, m);
  }

  /** A value read back unchanged from the text it was printed as, when reading stopped in it or at its end. */
  lemma RawOnlyWithin(p: char -> bool, s: string, w: string)
    requires Printable(p) && Quiet(p, w) && w <= s && Reading(p, w) == Some(s)
    ensures RawGood(p, s)
  {
    WithinItself(p, s, w);
    WholeUnquoted(s);
    TrimSame(s);
    hide Unquote, TrimSpace, Lead, IsWhite, Keep, Reading;
    forall m | 0 <= m < |s| ensures !IsNewline(s[m]) {
      if IsNewline(s[m]) {
        NoNewlineBefore(p, s, s, m);
      }
    }
  }

  /** What is read back from no more than the value itself is all of it. */
  lemma WithinItself(p: char -> bool, s: string, w: string)
    requires Quiet(p, w) && w <= s && Reading(p, w) == Some(s)
    ensures w == s && KeepsAll(p, s) && Unquote(TrimSpace(s)) == Some(s)
  {
    ReadingKept(p, w);
    KeepSame(p, w);
    var i, q := BufferSlice(w);
  }

  lemma BufferBeyond(p: char -> bool, s: string, w: string)
    requires KeepsAll(p, s) && s < w && w[|s|] == '\n'
    ensures s < Keep(p, w) && Keep(p, w)[|s|] == '\n'
  {
    hide Keep;
    var y := w[|s|..];
    assert w == s + y;
    KeepAppend(p, s, y);
    KeepSame(p, s);
    KeepFirst(p, y);
  }

  /** Text cannot follow itself, shifted past its leading white space and quotes, over a newline. */
  lemma NoEcho(b: string, s: string, i: int, q: int)
    requires s < b && b[|s|] == '\n' && 0 <= i < i + q && i + q + |s| < |b|
    requires forall k :: 0 <= k < i ==> !IsNewline(b[k])
    requires forall k :: i <= k < i + q ==> b[k] == '"'
    ensures s != b[i + q..i + q + |s|]
  {
    var n := |s|;
    if s == b[i + q..i + q + n] {
      forall m | 0 <= m < n ensures b[m] == b[m + (i + q)] {
        assert b[i + q..i + q + n][m] == b[m + (i + q)];
      }
      Periodic(b, i, i + q, n, n);
    }
  }

  lemma LeadBeyond(p: char -> bool, s: string, w: string, b: string)
    requires KeepsAll(p, s) && s < w && w[|s|] == '\n' && s < b && Quiet(p, w)
    ensures var i := Lead(b); i < |s| && b[i] == '"' && forall m :: 0 <= m < i ==> !IsNewline(b[m])
  {
    hide Lead, IsWhite, Quiet;
    NoNewlineBefore(p, s, w, |s|);
    assert b[..|s|] == s;
    LeadPrefix(b, |s|);
    forall m | 0 <= m < Lead(b) ensures !IsNewline(b[m]) {
      assert w[m] == s[m] == b[m];
      if IsNewline(w[m]) {
        NoNewlineBefore(p, s, w, m);
      }
    }
  }

  /** Reading past the newline after the printed text never gives that text. */
  lemma RawNeverBeyond(p: char -> bool, s: string, w: string)
    requires Printable(p) && Quiet(p, w) && s < w && w[|s|] == '\n'
    ensures Reading(p, w) != Some(s)
  {
    hide Unquote, TrimSpace, Lead, IsWhite, Keep, Quiet;
    if Reading(p, w) == Some(s) {
      ReadingKept(p, w);
      BufferBeyond(p, s, w);
      LeadBeyond(p, s, w, Keep(p, w));
      var i, q := BufferSlice(Keep(p, w));
      NoEcho(Keep(p, w), s, i, q);
    }
  }

  // ---------- Quoted values ----------

  predicate ThreeQuotes(y: string) {
    var n := |y|;
    n >= 3 && y[n - 1] == '"' && y[n - 2] == '"' && y[n - 3] == '"'
  }

  /** Without the white space at its end, the text ends in three quotes. */
  predicate EndsQuoted(x: string) { ThreeQuotes(x[..Tail(x)]) }

  /** Exactly the values that are read back as they were, as printed by quote. */
  ghost predicate ValueGood(p: char -> bool, s: string) {
    if !NeedsQuotes(s) then RawGood(p, s)
    else KeepsAll(p, s) && ('"' in s ==> forall m :: 0 <= m < |s| && IsNewline(s[m]) ==> !EndsQuoted(s[..m]))
  }

  const TRIPLE := "\"\"\""

  lemma TripleTrim(x: string)
    ensures TrimSpace(TRIPLE + x) == TRIPLE + x[..Tail(x)]
  {
    var b := TRIPLE + x;
    TailAfter(b, x);
    hide Tail, Lead;
    assert b[0..3 + Tail(x)] == TRIPLE + x[..Tail(x)];
  }

  lemma TailAfter(b: string, x: string)
    requires b == TRIPLE + x
    ensures Lead(b) == 0 && Tail(b) == 3 + Tail(x)
  {
    assert forall k :: 0 <= k < |x| ==> b[3 + k] == x[k];
    assert b[0] == b[1] == b[2] == '"';
  }

  lemma TripleUnquote(y: string)
    ensures Unquote(TRIPLE + y) == if ThreeQuotes(y) then Some(y[..|y| - 3]) else None
  {
    var t := TRIPLE + y;
    assert t[..3] == TRIPLE;
    if |y| >= 3 {
      assert t[|t| - 3..] == y[|y| - 3..];
      assert y[|y| - 3..] == [y[|y| - 3], y[|y| - 2], y[|y| - 1]];
      assert t[3..|t| - 3] == y[..|y| - 3];
    }
  }

  /** Text that opens with three quotes ends a value only by three more. */
  lemma TripleOpen(x: string)
    ensures EndsQuoted(x) ==> Tail(x) >= 3
    ensures Unquote(TrimSpace(TRIPLE + x)) == if EndsQuoted(x) then Some(x[..Tail(x) - 3]) else None
  {
    hide Unquote, TrimSpace, Tail;
    TripleTrim(x);
    TripleUnquote(x[..Tail(x)]);
    assert EndsQuoted(x) ==> x[..Tail(x)][..Tail(x) - 3] == x[..Tail(x) - 3];
  }

  lemma TripleWhole(s: string)
    ensures Unquote(TrimSpace(TRIPLE + s + TRIPLE)) == Some(s)
  {
    hide Unquote, TrimSpace;
    var x := s + TRIPLE;
    assert TRIPLE + s + TRIPLE == TRIPLE + x;
    TripleOpen(x);
    assert Tail(x) == |x|;
    assert x[..|x|] == x && x[..|s|] == s;
  }

  /** The buffer is the text when all of it is kept. */
  lemma KeptReading(p: char -> bool, w: string)
    requires KeepsAll(p, w)
    ensures Reading(p, w) == Unquote(TrimSpace(w))
  {
    KeepSame(p, w);
  }

  lemma TripleReads(p: char -> bool, s: string)
    requires Printable(p) && KeepsAll(p, s) && forall m :: 0 <= m < |s| && IsNewline(s[m]) ==> !EndsQuoted(s[..m])
    ensures var w := TRIPLE + s + TRIPLE; Quiet(p, w) && Reading(p, w) == Some(s)
  {
    hide Reading, Unquote, TrimSpace, EndsQuoted;
    var w := TRIPLE + s + TRIPLE;
    KeptReading(p, w);
    TripleWhole(s);
    forall k {:trigger Stops(p, w, k)} | 0 <= k < |w| ensures !Stops(p, w, k) {
      if IsNewline(w[k]) {
        assert 3 <= k < |s| + 3 && w[k] == s[k - 3];
        assert w[..k] == TRIPLE + s[..k - 3];
        KeptReading(p, w[..k]);
        TripleOpen(s[..k - 3]);
      }
    }
  }

  lemma SingleOpen(x: string)
    requires '"' !in x
    ensures Unquote(TrimSpace("\"" + x)).None?
  {
    var b := "\"" + x;
    assert b[0] == '"' && forall k :: 0 < k < |b| ==> b[k] == x[k - 1] && x[k - 1] in x;
    var t := TrimSpace(b);
    assert Lead(b) == 0 && t == b[..Tail(b)];
    hide TrimSpace, Tail, Lead;
    assert forall k :: 0 < k < |t| ==> t[k] == b[k] && t[k] != '"';
    assert |t| >= 3 ==> t[..3][1] == t[1];
  }

  lemma SingleWhole(x: string)
    requires x != "" && '"' !in x
    ensures Unquote(TrimSpace("\"" + x + "\"")) == Some(x)
  {
    var c := "\"" + x + "\"";
    assert c[0] == '"' && c[1] == x[0] && c[|c| - 1] == '"' && x[0] in x;
    TrimNothing(c);
    hide TrimSpace;
    assert c[..3][1] == x[0];
    assert c[1..|c| - 1] == x;
  }

  lemma SingleReads(p: char -> bool, s: string)
    requires Printable(p) && KeepsAll(p, s) && s != "" && '"' !in s
    ensures var w := "\"" + s + "\""; Quiet(p, w) && Reading(p, w) == Some(s)
  {
    hide Reading, Unquote, TrimSpace;
    var w := "\"" + s + "\"";
    KeptReading(p, w);
    SingleWhole(s);
    forall k {:trigger Stops(p, w, k)} | 0 <= k < |w| ensures !Stops(p, w, k) {
      if IsNewline(w[k]) {
        assert 1 <= k < |s| + 1 && w[..k] == "\"" + s[..k - 1];
        KeptReading(p, w[..k]);
        SingleOpen(s[..k - 1]);
      }
    }
  }

  /** A good value is read back at the newline after it. */
  lemma GoodReads(p: char -> bool, s: string)
    requires Printable(p) && ValueGood(p, s)
    ensures Quiet(p, Quote(s)) && Reading(p, Quote(s)) == Some(s)
  {
    if !NeedsQuotes(s) {
      RawReads(p, s);
    } else if '"' in s {
      TripleReads(p, s);
    } else {
      SingleReads(p, s);
    }
  }

  /** A value that is read back as it was is good. */
  lemma OnlyGoodRead(p: char -> bool, s: string, rest: string, k: int)
    requires Printable(p)
    requires var text := Quote(s) + "\n" + rest;
             0 <= k <= |text| && Quiet(p, text[..k]) && Reading(p, text[..k]) == Some(s)
               && (k < |text| ==> IsNewline(text[k]))
    ensures ValueGood(p, s)
  {
    var text := Quote(s) + "\n" + rest;
    if !NeedsQuotes(s) {
      OnlyRawRead(p, s, rest, k);
    } else {
      ReadingKept(p, text[..k]);
      if '"' in s {
        forall m | 0 <= m < |s| && IsNewline(s[m]) ensures !EndsQuoted(s[..m]) {
          TripleStops(p, s, text, k, m);
        }
      }
    }
  }

  lemma OnlyRawRead(p: char -> bool, s: string, rest: string, k: int)
    requires Printable(p)
    requires var text := s + "\n" + rest; 0 <= k <= |text| && Quiet(p, text[..k]) && Reading(p, text[..k]) == Some(s)
    ensures RawGood(p, s)
  {
    hide Reading, Quiet;
    var text := s + "\n" + rest;
    if k <= |s| {
      RawOnlyWithin(p, s, text[..k]);
    } else {
      RawNeverBeyond(p, s, text[..k]);
    }
  }

  /** A newline after three quotes within the text cuts it short. */
  lemma TripleStops(p: char -> bool, s: string, text: string, k: int, m: int)
    requires KeepsAll(p, s) && TRIPLE + s < text && 0 <= k <= |text| && Quiet(p, text[..k])
             && Reading(p, text[..k]) == Some(s)
    requires Printable(p) && 0 <= m < |s| && IsNewline(s[m]) && (k < |text| ==> IsNewline(text[k]))
    ensures !EndsQuoted(s[..m])
  {
    hide Reading, Unquote, TrimSpace, EndsQuoted;
    assert forall i :: 0 <= i < |s| + 3 ==> text[i] == (TRIPLE + s)[i];
    assert k >= 3;
    if k > m + 3 {
      assert text[..k][m + 3] == s[m];
      assert text[..k][..m + 3] == TRIPLE + s[..m];
      KeptReading(p, TRIPLE + s[..m]);
      TripleOpen(s[..m]);
      assert !Stops(p, text[..k], m + 3);
    } else {
      assert text[..k] == TRIPLE + s[..k - 3];
      KeptReading(p, text[..k]);
      TripleOpen(s[..k - 3]);
    }
  }
}
