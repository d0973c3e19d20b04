/** Modelfiles as people write them (parser/parser.go): comments and empty lines between commands, keywords in any case,
    and what is said about files that are not well formed. */
module ModelfileLines {
  import opened Options
  import opened Strings
  import opened Modelfiles
  import opened ModelfileValues
  import opened ModelfileRoundTrip

  predicate Blank(s: string) { forall i :: 0 <= i < |s| ==> s[i] == ' ' || s[i] == '\t' }

  predicate OneLine(s: string) { forall i :: 0 <= i < |s| ==> s[i] != '\n' && s[i] != '\r' }

  function Newlines(s: string): nat {
    if s == "" then 0
    else Newlines(s[..|s| - 1]) + if s[|s| - 1] == '\n' || s[|s| - 1] == '\r' then 1 else 0
  }

  // ---------- Line numbers ----------

  lemma StepCounts(p: char -> bool, st: State, r: char)
    ensures Step(p, st, r).Ok? ==> Step(p, st, r).value.line == st.line + if r == '\n' || r == '\r' then 1 else 0
    ensures forall n :: Step(p, st, r) == Err(InvalidCommand(n)) || Step(p, st, r) == Err(InvalidRole(n)) ==>
              n == st.line + if r == '\n' || r == '\r' then 1 else 0
  {
    hide Unquote, TrimSpace, ValidCommand, Lower, ValidRole;
  }

  /** The line number counts the line ends passed. */
  lemma {:induction false} LinesCounted(p: char -> bool, st: State, text: string)
    ensures Run(p, st, text).Ok? ==> Run(p, st, text).value.line == st.line + Newlines(text)
  {
    hide Step;
    if text != "" {
      var n := |text| - 1;
      LinesCounted(p, st, text[..n]);
      if Run(p, st, text[..n]).Ok? {
        StepCounts(p, Run(p, st, text[..n]).value, text[n]);
      }
    }
  }

  /** An error is reported at the line that the offending rune ends or is on. */
  lemma {:induction false} ErrorLine(p: char -> bool, st: State, text: string, n: nat) returns (k: int)
    requires Run(p, st, text) == Err(InvalidCommand(n)) || Run(p, st, text) == Err(InvalidRole(n))
    ensures 0 <= k < |text| && Run(p, st, text[..k]).Ok? && n == st.line + Newlines(text[..k + 1])
  {
    hide Step;
    k := |text| - 1;
    if Run(p, st, text[..k]).Err? {
      var m := k;
      k := ErrorLine(p, st, text[..m], n);
      assert text[..m][..k] == text[..k] && text[..m][..k + 1] == text[..k + 1];
    } else {
      LinesCounted(p, st, text[..k]);
      StepCounts(p, Run(p, st, text[..k]).value, text[k]);
      assert text[..k + 1] == text && text[..k + 1][..k] == text[..k];
    }
  }

  // ---------- Comments and empty lines ----------

  /** A line without a command: blanks, and possibly a comment. */
  datatype Filler = Filler(indent: string, comment: Option<string>, newline: char)

  predicate GoodFiller(f: Filler) {
    && Blank(f.indent) && (f.newline == '\n' || f.newline == '\r')
    && (f.comment.Some? ==> OneLine(f.comment.value))
  }

  function RemarkOf(f: Filler): string { if f.comment.Some? then "#" + f.comment.value else "" }

  function FillerText(f: Filler): string { f.indent + RemarkOf(f) + [f.newline] }

  lemma {:induction false} BlankRun(p: char -> bool, st: State, w: string)
    requires Printable(p) && Fresh(st) && Blank(w)
    ensures Run(p, st, w) == Ok(st)
  {
    if w != "" {
      BlankRun(p, st, w[..|w| - 1]);
    }
  }

  lemma {:induction false} CommentRun(p: char -> bool, st: State, w: string)
    requires Printable(p) && st.phase == Comment && st.b == "" && OneLine(w)
    ensures Run(p, st, w) == Ok(st)
  {
    if w != "" {
      CommentRun(p, st, w[..|w| - 1]);
    }
  }

  lemma RemarkRun(p: char -> bool, st: State, c: string)
    requires Printable(p) && Fresh(st) && OneLine(c)
    ensures Run(p, st, "#" + c) == Ok(st.(phase := Comment))
  {
    assert Run(p, st, "#") == Ok(st.(phase := Comment)) by {
      assert "#" == [] + ['#'];
      RunOne(p, st, [], '#');
    }
    hide Run;
    CommentRun(p, st.(phase := Comment), c);
    RunAppend(p, st, "#", c);
  }

  /** A line end leads back to between commands. */
  lemma LineEnds(p: char -> bool, st: State, w: string, newline: char)
    requires Printable(p) && Run(p, st, w).Ok? && (newline == '\n' || newline == '\r')
    requires var mid := Run(p, st, w).value; (mid.phase == Nil || mid.phase == Comment) && mid.b == ""
    ensures var mid := Run(p, st, w).value; Run(p, st, w + [newline]) == Ok(mid.(phase := Nil, line := mid.line + 1))
  {
    RunOne(p, st, w, newline);
  }

  /** A line without a command changes nothing but the line number. */
  lemma FillerRun(p: char -> bool, st: State, f: Filler)
    requires Printable(p) && Fresh(st) && GoodFiller(f)
    ensures Run(p, st, FillerText(f)) == Ok(st.(line := st.line + 1))
  {
    hide Run, Step, Printable, OneLine, Blank;
    BlankRun(p, st, f.indent);
    if f.comment.Some? {
      RemarkRun(p, st, f.comment.value);
      RunAppend(p, st, f.indent, RemarkOf(f));
    } else {
      assert f.indent + RemarkOf(f) == f.indent;
    }
    LineEnds(p, st, f.indent + RemarkOf(f), f.newline);
  }

  // ---------- Commands ----------

  /** A line with a command, and the line end behind its value: the keyword in any case, either blank as a gap, and any
      number of blanks before and behind the value. */
  datatype Statement = Statement(indent: string, keyword: string, gap: char, c: Command, gap2: char, before: string,
                                 behind: string, newline: char)

  function KeywordOf(c: Command): string {
    if c.name == "model" then "from" else if IsFixed(c.name) then c.name
    else if c.name == "message" then "message" else "parameter"
  }

  ghost predicate GoodStatement(p: char -> bool, s: Statement) {
    && Blank(s.indent) && Blank(s.before) && Blank(s.behind) && Lower(s.keyword) == KeywordOf(s.c) && Good(p, s.c)
    && (s.gap == ' ' || s.gap == '\t') && (s.gap2 == ' ' || s.gap2 == '\t')
    && (s.newline == '\n' || s.newline == '\r')
  }

  /** What stands between the keyword and the value: a role or the name of a parameter. */
  function Between(s: Statement): string {
    if s.c.name == "model" || IsFixed(s.c.name) then ""
    else if s.c.name == "message" then RoleOf(s.c.args) + [s.gap2]
    else s.c.name + [s.gap2]
  }

  function StatementHead(s: Statement): string { s.keyword + [s.gap] + Between(s) }

  function StatementBody(s: Statement): string { s.before + BodyOf(s.c) + s.behind }

  function StatementText(s: Statement): string { s.indent + StatementHead(s) + StatementBody(s) + [s.newline] }

  lemma SameGap(p: char -> bool, st: State, gap: char)
    requires (gap == ' ' || gap == '\t') && (st.phase == Name || st.phase == Parameter || st.phase == Message)
    ensures Step(p, st, gap) == Step(p, st, ' ')
  {
    hide EndName, ValidRole;
  }

  /** After a word of letters, either blank ends the name of a command. */
  lemma KeywordEnds(p: char -> bool, st: State, w: string, gap: char)
    requires Printable(p) && Fresh(st) && w != "" && Letters(w) && (gap == ' ' || gap == '\t')
    ensures Run(p, st, w + [gap]) == EndName(p, st.(phase := Name, b := w), Value, '\0')
  {
    hide EndName, Step, Unquote, TrimSpace;
    hide Run;
    KeywordRun(p, st, w);
    KeywordRead(p, st, w);
    RunOne(p, st, w, ' ');
    RunOne(p, st, w, gap);
    SameGap(p, st.(phase := Name, b := w), gap);
  }

  lemma WordEnds(p: char -> bool, st: State, w: string, gap: char)
    requires Printable(p) && st.b == "" && (st.phase == Parameter || st.phase == Message) && (gap == ' ' || gap == '\t')
    requires forall i :: 0 <= i < |w| ==> Takes(st.phase, w[i])
    ensures Run(p, st, w + [gap]) == Step(p, st.(b := w), ' ')
  {
    hide Step, Run;
    WordRun(p, st, w);
    assert "" + w == w;
    RunOne(p, st, w, gap);
    SameGap(p, st.(b := w), gap);
  }

  /** The keywords are words of letters in any case. */
  lemma KeywordLetters(w: string, c: Command)
    requires Lower(w) == KeywordOf(c)
    ensures w != "" && Letters(w)
  {
    if IsFixed(c.name) {
      FixedLetters(c.name);
    }
    var k := KeywordOf(c);
    assert k != "" && forall i :: 0 <= i < |k| ==> 'a' <= k[i] <= 'z';
    forall i | 0 <= i < |w| ensures IsAlpha(w[i]) {
      assert LowerRune(w[i]) == k[i];
    }
  }

  /** What the keyword leads to. */
  function AfterKeyword(st: State, c: Command): State {
    if c.name == "model" || IsFixed(c.name) then st.(phase := Value, name := c.name)
    else if c.name == "message" then st.(phase := Message, name := "message")
    else st.(phase := Parameter)
  }

  lemma KeywordMeans(p: char -> bool, st: State, keyword: string, gap: char, c: Command)
    requires Printable(p) && Fresh(st) && Lower(keyword) == KeywordOf(c) && (gap == ' ' || gap == '\t')
    ensures Run(p, st, keyword + [gap]) == Ok(AfterKeyword(st, c))
  {
    KeywordLetters(keyword, c);
    if IsFixed(c.name) {
      FixedLetters(c.name);
    }
    hide Run, IsFixed, Lower;
    KeywordEnds(p, st, keyword, gap);
  }

  lemma StatementHeadRun(p: char -> bool, st: State, s: Statement)
    requires Printable(p) && Fresh(st) && GoodStatement(p, s)
    ensures Run(p, st, StatementHead(s)) == Ok(Behind(st, s.c))
  {
    KeywordMeans(p, st, s.keyword, s.gap, s.c);
    hide Run, IsFixed, ValidRole, RoleOf, BodyGood, Lower, Printable, Blank, KeywordOf;
    var c, mid := s.c, AfterKeyword(st, s.c);
    RunAppend(p, st, s.keyword + [s.gap], Between(s));
    if c.name == "model" || IsFixed(c.name) {
      NothingRun(p, mid);
    } else if c.name == "message" {
      RoleRun(p, mid, RoleOf(c.args), s.gap2);
    } else {
      ParameterNameRun(p, mid, c.name, s.gap2);
    }
  }

  lemma RoleRun(p: char -> bool, st: State, role: string, gap: char)
    requires Printable(p) && st.phase == Message && st.b == "" && ValidRole(role) && (gap == ' ' || gap == '\t')
    ensures Run(p, st, role + [gap]) == Ok(st.(phase := Value, role := role))
  {
    hide Run, ValidRole;
    RoleLetters(role);
    WordEnds(p, st, role, gap);
  }

  lemma ParameterNameRun(p: char -> bool, st: State, name: string, gap: char)
    requires Printable(p) && st.phase == Parameter && st.b == "" && (gap == ' ' || gap == '\t')
    requires forall i :: 0 <= i < |name| ==> IsNameRune(name[i])
    ensures Run(p, st, name + [gap]) == Ok(st.(phase := Value, name := name))
  {
    hide Run;
    WordEnds(p, st, name, gap);
  }

  lemma NothingRun(p: char -> bool, st: State)
    ensures Run(p, st, "") == Ok(st)
  {
  }

  lemma {:induction false} LeadPadded(a: string, s: string)
    requires Blank(a)
    ensures Lead(a + s) == |a| + Lead(s)
  {
    if a == "" {
      assert a + s == s;
    } else {
      assert (a + s)[1..] == a[1..] + s;
      LeadPadded(a[1..], s);
    }
  }

  lemma {:induction false} TailPadded(s: string, b: string)
    requires Blank(b)
    ensures Tail(s + b) == Tail(s)
  {
    if b == "" {
      assert s + b == s;
    } else {
      var n := |b| - 1;
      assert (s + b)[..|s + b| - 1] == s + b[..n];
      TailPadded(s, b[..n]);
    }
  }

  lemma {:induction false} TailBehind(a: string, s: string)
    requires Blank(a)
    ensures Tail(a + s) == if Tail(s) == 0 then 0 else |a| + Tail(s)
  {
    if s == "" {
      TailPadded("", a);
      assert a + s == a == "" + a;
    } else {
      var n := |s| - 1;
      assert (a + s)[..|a + s| - 1] == a + s[..n];
      TailBehind(a, s[..n]);
    }
  }

  /** Blanks around a text are trimmed away. */
  lemma TrimPadded(a: string, s: string, b: string)
    requires Blank(a) && Blank(b)
    ensures TrimSpace(a + s + b) == TrimSpace(s)
  {
    hide Lead, Tail;
    LeadPadded(a, s + b);
    LeadTail(s);
    TailPadded(a + s, b);
    TailBehind(a, s);
    assert a + s + b == a + (s + b);
    LeadShort(s, b);
    if Tail(s) > 0 {
      var w := a + s + b;
      assert w[|a| + Lead(s)..|a| + Tail(s)] == s[Lead(s)..Tail(s)];
    }
  }

  lemma {:induction false} LeadShort(s: string, b: string)
    ensures Tail(s) > 0 ==> Lead(s + b) == Lead(s)
  {
    if Tail(s) > 0 {
      LeadTail(s);
      LeadPrefix(s + b, |s|);
      assert (s + b)[..|s|] == s;
      LeadIs(s + b, Lead(s));
    }
  }

  lemma {:induction false} LeadIs(s: string, n: nat)
    requires n < |s| && !IsWhite(s[n]) && forall i :: 0 <= i < n ==> IsWhite(s[i])
    ensures Lead(s) == n
  {
    if n > 0 {
      LeadIs(s[1..], n - 1);
    }
  }

  lemma ReadingPadded(p: char -> bool, a: string, s: string, b: string)
    requires Blank(a) && Blank(b)
    ensures Reading(p, a + s + b) == Reading(p, s)
  {
    hide TrimSpace, Keep;
    KeepAppend(p, a + s, b);
    KeepAppend(p, a, s);
    KeepSame(p, a);
    KeepSame(p, b);
    TrimPadded(a, Keep(p, s), b);
  }

  /** A value does not end early for the blanks around it. */
  lemma QuietPadded(p: char -> bool, a: string, s: string, b: string)
    requires Blank(a) && Blank(b) && Quiet(p, s)
    ensures Quiet(p, a + s + b)
  {
    hide Reading;
    var w := a + s + b;
    forall k {:trigger Stops(p, w, k)} | 0 <= k < |w| ensures !Stops(p, w, k) {
      if k < |a| {
        assert w[k] == a[k];
      } else if k < |a| + |s| {
        var m := k - |a|;
        assert w[k] == s[m] && w[..k] == a + s[..m] + "";
        ReadingPadded(p, a, s[..m], "");
        assert !Stops(p, s, m);
      } else {
        assert w[k] == b[k - |a| - |s|];
      }
    }
  }

  lemma BodyRun(p: char -> bool, st: State, s: Statement)
    requires Printable(p) && Fresh(st) && GoodStatement(p, s)
    ensures var r := Run(p, Behind(st, s.c), StatementBody(s) + [s.newline]);
            r.Ok? && r.value == st.(cmds := st.cmds + [s.c], name := s.c.name, line := r.value.line)
  {
    hide Run, Step, Reading, Quiet, BodyOf, ValueOf, HeadGood, BodyGood, RoleOf, Lower;
    var w, k := StatementBody(s) + [s.newline], |StatementBody(s)|;
    BodyReads(p, s.c);
    QuietPadded(p, s.before, BodyOf(s.c), s.behind);
    ReadingPadded(p, s.before, BodyOf(s.c), s.behind);
    assert w[..k] == StatementBody(s) && w[..k + 1] == w && w[k] == s.newline;
    StopRun(p, Behind(st, s.c), w, k);
    FullValue(s.c);
  }

  /** A line with a good command adds it and leads back to between commands. */
  lemma StatementRun(p: char -> bool, st: State, s: Statement)
    requires Printable(p) && Fresh(st) && GoodStatement(p, s)
    ensures Run(p, st, StatementText(s))
            == Ok(st.(cmds := st.cmds + [s.c], name := s.c.name, line := st.line + Newlines(StatementText(s))))
  {
    hide Run, StatementBody, Good, Behind, StatementHead, StatementText, Printable, Lower, Blank, KeywordOf, Newlines;
    BlankRun(p, st, s.indent);
    StatementHeadRun(p, st, s);
    BodyRun(p, st, s);
    LinesCounted(p, st, StatementText(s));
    StatementParts(s);
    RunThree(p, st, s.indent, StatementHead(s), StatementBody(s) + [s.newline], st, Behind(st, s.c));
  }

  lemma RunThree(p: char -> bool, st: State, a: string, b: string, c: string, afterA: State, afterB: State)
    requires Run(p, st, a) == Ok(afterA) && Run(p, afterA, b) == Ok(afterB)
    ensures Run(p, st, a + (b + c)) == Run(p, afterB, c)
  {
    hide Run;
    RunAppend(p, st, a, b + c);
    RunAppend(p, afterA, b, c);
  }

  lemma StatementParts(s: Statement)
    ensures StatementText(s) == s.indent + (StatementHead(s) + (StatementBody(s) + [s.newline]))
  {
    hide StatementHead, StatementBody;
    Associative(s.indent, StatementHead(s), StatementBody(s));
    Associative(StatementHead(s), StatementBody(s), [s.newline]);
    Associative(s.indent, StatementHead(s) + StatementBody(s), [s.newline]);
  }

  // ---------- Files ----------

  datatype Line = Remark(filler: Filler) | Line(statement: Statement)

  ghost predicate GoodLine(p: char -> bool, l: Line) {
    match l
    case Remark(f) => GoodFiller(f)
    case Line(s) => GoodStatement(p, s)
  }

  ghost predicate GoodLines(p: char -> bool, ls: seq<Line>) { forall i :: 0 <= i < |ls| ==> GoodLine(p, ls[i]) }

  function LineText(l: Line): string {
    match l
    case Remark(f) => FillerText(f)
    case Line(s) => StatementText(s)
  }

  function TextOfAll(ls: seq<Line>): string {
    if ls == [] then "" else TextOfAll(ls[..|ls| - 1]) + LineText(ls[|ls| - 1])
  }

  function CommandsOf(ls: seq<Line>): seq<Command> {
    if ls == [] then []
    else CommandsOf(ls[..|ls| - 1]) + if ls[|ls| - 1].Line? then [ls[|ls| - 1].statement.c] else []
  }

  lemma {:induction false} LinesRun(p: char -> bool, st: State, ls: seq<Line>)
    requires Printable(p) && Fresh(st) && GoodLines(p, ls)
    ensures var r := Run(p, st, TextOfAll(ls)); r.Ok? && Fresh(r.value) && r.value.cmds == st.cmds + CommandsOf(ls)
  {
    hide Run, GoodStatement, GoodFiller, FillerText, StatementText;
    if ls == [] {
      NothingRun(p, st);
    } else {
      var front, last := ls[..|ls| - 1], ls[|ls| - 1];
      assert GoodLine(p, last);
      LinesRun(p, st, front);
      var mid := Run(p, st, TextOfAll(front)).value;
      RunAppend(p, st, TextOfAll(front), LineText(last));
      match last
      case Remark(f) => FillerRun(p, mid, f);
      case Line(s) => StatementRun(p, mid, s);
    }
  }

  /** How a file may end: behind a line end, or with blanks and a comment that the file ends. */
  lemma EndingFinishes(p: char -> bool, st: State, indent: string, comment: Option<string>)
    requires Printable(p) && Fresh(st) && Blank(indent) && (comment.Some? ==> OneLine(comment.value))
    ensures ParseFrom(p, st, indent + if comment.Some? then "#" + comment.value else "") == Ok(st.cmds)
  {
    BlankRun(p, st, indent);
    if comment.Some? {
      RemarkRun(p, st, comment.value);
      hide Run;
      RunAppend(p, st, indent, "#" + comment.value);
    } else {
      assert indent + "" == indent;
    }
  }

  /** A file of lines with good commands and lines without, in any order, is parsed to its commands, if there is a FROM
      among them, and otherwise reported to have none. */
  lemma FileParsed(p: char -> bool, ls: seq<Line>, indent: string, comment: Option<string>)
    requires Printable(p) && GoodLines(p, ls) && Blank(indent) && (comment.Some? ==> OneLine(comment.value))
    ensures Parse(p, TextOfAll(ls) + (indent + if comment.Some? then "#" + comment.value else ""))
            == if HasFrom(CommandsOf(ls)) then Ok(CommandsOf(ls)) else Err(MissingFrom)
  {
    hide Run, ParseFrom, GoodLines;
    var ending := indent + if comment.Some? then "#" + comment.value else "";
    LinesRun(p, INITIAL, ls);
    ParseAppend(p, INITIAL, TextOfAll(ls), ending);
    EndingFinishes(p, Run(p, INITIAL, TextOfAll(ls)).value, indent, comment);
    assert [] + CommandsOf(ls) == CommandsOf(ls);
  }

  // ---------- What is said about other files ----------

  predicate IsBlank(c: char) { c == ' ' || c == '\t' }

  predicate Alphabetic(c: char) { 'a' <= c <= 'z' || 'A' <= c <= 'Z' }

  predicate AllAlphabetic(w: string) { forall i :: 0 <= i < |w| ==> Alphabetic(w[i]) }

  /** The ten keywords, in any case, and what they lead to. */
  lemma KnownCommand(p: char -> bool, st: State, w: string, gap: char)
    requires Printable(p) && Fresh(st) && IsBlank(gap)
    ensures Lower(w) == "from" ==> Run(p, st, w + [gap]) == Ok(st.(phase := Value, name := "model"))
    ensures Lower(w) in ["license", "template", "system", "adapter", "renderer", "parser", "requires"] ==>
              Run(p, st, w + [gap]) == Ok(st.(phase := Value, name := Lower(w)))
    ensures Lower(w) == "message" ==> Run(p, st, w + [gap]) == Ok(st.(phase := Message, name := "message"))
    ensures Lower(w) == "parameter" ==> Run(p, st, w + [gap]) == Ok(st.(phase := Parameter))
  {
    if Lower(w) == "from" {
      KeywordMeans(p, st, w, gap, Command("model", ""));
    } else if Lower(w) in ["license", "template", "system", "adapter", "renderer", "parser", "requires"] {
      KeywordMeans(p, st, w, gap, Command(Lower(w), ""));
    } else if Lower(w) == "message" {
      KeywordMeans(p, st, w, gap, Command("message", ""));
    } else if Lower(w) == "parameter" {
      KeywordMeans(p, st, w, gap, Command("", ""));
    }
  }

  /** Keywords are printed in capitals. */
  lemma PrintsKeyword(c: Command)
    ensures c.name == "model" ==> "FROM " <= Print(c)
    ensures c.name == "message" ==> "MESSAGE " <= Print(c)
    ensures IsFixed(c.name) ==>
              && |c.name| < |Print(c)| && Print(c)[|c.name|] == ' '
              && forall i :: 0 <= i < |c.name| ==> 'A' <= Print(c)[i] <= 'Z' && Print(c)[i] == c.name[i] - 'a' + 'A'
    ensures c.name != "model" && c.name != "message" && !IsFixed(c.name) ==> "PARAMETER " + c.name + " " <= Print(c)
  {
    hide Quote, RoleOf, TextOf, IsFixed;
    if IsFixed(c.name) {
      FixedLetters(c.name);
      FixedNotModel();
      var head := Upper(c.name) + " ";
      assert Print(c) == head + Quote(c.args);
      assert head <= Print(c);
    } else if c.name == "message" {
      PrefixOf("MESSAGE ", RoleOf(c.args), " ", Quote(TextOf(c.args)));
    }
  }

  lemma FixedNotModel()
    ensures !IsFixed("model")
  {
  }

  lemma PrefixOf(a: string, b: string, c: string, d: string)
    ensures a <= a + b + c + d
  {
    assert a <= a + b;
    assert a + b <= a + b + c;
  }

  function LineAt(st: State, r: char): nat { st.line + if r == '\n' || r == '\r' then 1 else 0 }

  lemma ErrorStays(p: char -> bool, st: State, a: string, rest: string)
    ensures Run(p, st, a).Err? ==> ParseFrom(p, st, a + rest) == Err(Run(p, st, a).error)
  {
    hide Run;
    ParseAppend(p, st, a, rest);
  }

  /** A word that is none of the ten keywords, in any case, is no command. */
  lemma UnknownCommand(p: char -> bool, st: State, w: string, gap: char, rest: string)
    requires Printable(p) && Fresh(st) && w != "" && AllAlphabetic(w) && IsBlank(gap)
    requires Lower(w) !in ["from", "license", "template", "system", "adapter", "renderer", "parser", "parameter",
                           "message", "requires"]
    ensures ParseFrom(p, st, w + [gap] + rest) == Err(InvalidCommand(st.line))
  {
    hide Run, ParseFrom, Lower;
    KeywordEnds(p, st, w, gap);
    ErrorStays(p, st, w + [gap], rest);
  }

  /** Nor is one in which anything but a letter stands. */
  lemma BadCommandRune(p: char -> bool, st: State, w: string, r: char, rest: string)
    requires Printable(p) && Fresh(st) && w != "" && AllAlphabetic(w) && !Alphabetic(r) && !IsBlank(r)
    ensures ParseFrom(p, st, w + [r] + rest) == Err(InvalidCommand(LineAt(st, r)))
  {
    hide Run, ParseFrom;
    KeywordRead(p, st, w);
    RunOne(p, st, w, r);
    ErrorStays(p, st, w + [r], rest);
  }

  /** A message needs one of the three roles. */
  lemma UnknownRole(p: char -> bool, st: State, keyword: string, gap: char, w: string, gap2: char, rest: string)
    requires Printable(p) && Fresh(st) && Lower(keyword) == "message" && IsBlank(gap) && AllAlphabetic(w)
    requires IsBlank(gap2)
    requires w != "system" && w != "user" && w != "assistant"
    ensures ParseFrom(p, st, keyword + [gap] + (w + [gap2]) + rest) == Err(InvalidRole(st.line))
  {
    hide Run, ParseFrom, Lower;
    KeywordMeans(p, st, keyword, gap, Command("message", ""));
    WordEnds(p, AfterKeyword(st, Command("message", "")), w, gap2);
    RunAppend(p, st, keyword + [gap], w + [gap2]);
    ErrorStays(p, st, keyword + [gap] + (w + [gap2]), rest);
  }

  /** And each of the three is one. */
  lemma KnownRole(p: char -> bool, st: State, role: string, gap: char)
    requires Printable(p) && st.phase == Message && st.b == "" && IsBlank(gap)
    requires role in ["system", "user", "assistant"]
    ensures Run(p, st, role + [gap]) == Ok(st.(phase := Value, role := role))
  {
    hide Run;
    RoleRun(p, st, role, gap);
  }

  predicate WordRune(phase: Phase, c: char) { Alphabetic(c) || (phase == Parameter && ('0' <= c <= '9' || c == '_')) }

  /** Anything else in the name of a parameter, or in a role, is an unexpected end. */
  lemma BadWordRune(p: char -> bool, st: State, keyword: string, gap: char, w: string, r: char, rest: string)
    requires Printable(p) && Fresh(st) && Lower(keyword) in ["message", "parameter"] && IsBlank(gap) && !IsBlank(r)
    requires var phase := if Lower(keyword) == "message" then Message else Parameter;
             !WordRune(phase, r) && forall i :: 0 <= i < |w| ==> WordRune(phase, w[i])
    ensures ParseFrom(p, st, keyword + [gap] + (w + [r]) + rest) == Err(UnexpectedEof)
  {
    hide Run, ParseFrom, Lower;
    var c := Command(if Lower(keyword) == "message" then "message" else "", "");
    KeywordMeans(p, st, keyword, gap, c);
    var mid := AfterKeyword(st, c);
    WordRun(p, mid, w);
    RunOne(p, mid, w, r);
    RunAppend(p, st, keyword + [gap], w + [r]);
    ErrorStays(p, st, keyword + [gap] + (w + [r]), rest);
  }

  /** A file that ends in a keyword, or in the word after it, ends too early. */
  lemma EndsInWord(p: char -> bool, st: State, keyword: string, gap: char, w: string)
    requires Printable(p) && Fresh(st) && Lower(keyword) in ["message", "parameter"] && IsBlank(gap)
    requires forall i :: 0 <= i < |w| ==> WordRune(if Lower(keyword) == "message" then Message else Parameter, w[i])
    ensures ParseFrom(p, st, keyword) == Err(UnexpectedEof)
    ensures ParseFrom(p, st, keyword + [gap] + w) == Err(UnexpectedEof)
  {
    hide Run, Lower;
    var c := Command(if Lower(keyword) == "message" then "message" else "", "");
    KeywordLetters(keyword, c);
    KeywordRead(p, st, keyword);
    KeywordMeans(p, st, keyword, gap, c);
    WordRun(p, AfterKeyword(st, c), w);
    RunAppend(p, st, keyword + [gap], w);
  }

  /** A quote that is never closed takes up the rest of the file, which then ends too early. */
  lemma OpenQuote(p: char -> bool, st: State, keyword: string, gap: char, c: Command, x: string)
    requires Printable(p) && Fresh(st) && Lower(keyword) == KeywordOf(c) && (c.name == "model" || IsFixed(c.name))
    requires IsBlank(gap) && '"' !in x
    ensures ParseFrom(p, st, keyword + [gap] + ("\"" + x)) == Err(UnexpectedEof)
  {
    KeywordMeans(p, st, keyword, gap, c);
    var mid, w := AfterKeyword(st, c), "\"" + x;
    hide Run, Reading, Lower, IsFixed, Unquote, TrimSpace;
    forall k {:trigger Stops(p, w, k)} | 0 <= k < |w| ensures !Stops(p, w, k) {
      if k > 0 {
        assert w[..k] == "\"" + x[..k - 1];
        OpenReading(p, x[..k - 1]);
      }
    }
    QuietRun(p, mid, w);
    OpenReading(p, x);
    RunAppend(p, st, keyword + [gap], w);
    NotReadNow(p, w);
  }

  lemma NotReadNow(p: char -> bool, w: string)
    ensures Reading(p, w) == Unquote(TrimSpace(Keep(p, w)))
  {
  }

  lemma {:induction false} KeepNoQuote(p: char -> bool, x: string)
    requires '"' !in x
    ensures '"' !in Keep(p, x)
  {
    if x != "" {
      KeepNoQuote(p, x[..|x| - 1]);
    }
  }

  lemma OpenReading(p: char -> bool, x: string)
    requires Printable(p) && '"' !in x
    ensures Reading(p, "\"" + x) == None
  {
    KeepNoQuote(p, x);
    KeepAppend(p, "\"", x);
    KeepSame(p, "\"");
    var b := "\"" + Keep(p, x);
    assert Keep(p, "\"" + x) == b;
    var t := TrimSpace(b);
    OpenTrim(b);
  }

  lemma OpenTrim(b: string)
    requires b != "" && b[0] == '"' && forall i :: 0 < i < |b| ==> b[i] != '"'
    ensures Unquote(TrimSpace(b)) == None
  {
    var t := TrimSpace(b);
    assert Lead(b) == 0 && Tail(b) > 0;
    assert t == b[..Tail(b)];
    assert forall i :: 0 < i < |t| ==> t[i] == b[i];
    hide TrimSpace;
  }
}
