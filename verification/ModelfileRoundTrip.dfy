/** Printing a Modelfile and parsing it back (parser/parser.go): exactly which command lists survive. */
module ModelfileRoundTrip {
  import opened Options
  import opened Strings
  import opened Modelfiles
  import opened ModelfileValues

  // ---------- A command's head and its value ----------

  function HeadOf(c: Command): string {
    if c.name == "model" then "FROM "
    else if IsFixed(c.name) then Upper(c.name) + " "
    else if c.name == "message" then "MESSAGE " + RoleOf(c.args) + " "
    else "PARAMETER " + c.name + " "
  }

  /** The value behind the head, and the text it is printed as. */
  function ValueOf(c: Command): string {
    if c.name == "message" then TextOf(c.args) else c.args
  }

  function BodyOf(c: Command): string { if c.name == "model" then c.args else Quote(ValueOf(c)) }

  lemma PrintParts(c: Command)
    ensures Print(c) == HeadOf(c) + BodyOf(c)
  {
  }

  predicate IsNameRune(c: char) { IsAlpha(c) || IsNumber(c) || c == '_' }

  /** A message has one of the roles, and a parameter a name of letters, digits and underscores. */
  predicate HeadGood(c: Command) {
    if c.name == "model" || IsFixed(c.name) then true
    else if c.name == "message" then ValidRole(RoleOf(c.args)) && Contains(c.args, ": ")
    else forall i :: 0 <= i < |c.name| ==> IsNameRune(c.name[i])
  }

  ghost predicate BodyGood(p: char -> bool, c: Command) {
    if c.name == "model" then RawGood(p, c.args) else ValueGood(p, ValueOf(c))
  }

  ghost predicate Good(p: char -> bool, c: Command) { HeadGood(c) && BodyGood(p, c) }

  // ---------- Reading the head ----------

  /** Between commands. */
  predicate Fresh(st: State) { st.phase == Nil && st.b == "" && st.role == "" }

  predicate Letters(w: string) { forall i :: 0 <= i < |w| ==> IsAlpha(w[i]) }

  /** The buffer takes up every rune of its kind. */
  predicate Takes(phase: Phase, c: char) {
    match phase
    case Name | Message => IsAlpha(c)
    case Parameter => IsNameRune(c)
    case _ => false
  }

  lemma {:induction false} WordRun(p: char -> bool, st: State, w: string)
    requires Printable(p) && forall i :: 0 <= i < |w| ==> Takes(st.phase, w[i])
    ensures Run(p, st, w) == Ok(st.(b := st.b + w))
  {
    hide EndName, Unquote, TrimSpace, ValidRole;
    if w == "" {
      assert st.b + w == st.b;
    } else {
      var front, last := w[..|w| - 1], w[|w| - 1];
      WordRun(p, st, front);
      assert w == front + [last];
      RunOne(p, st, front, last);
      hide Run;
      assert st.b + w == st.b + front + [last];
    }
  }

  /** One more rune. */
  lemma RunOne(p: char -> bool, st: State, w: string, c: char)
    requires Run(p, st, w).Ok?
    ensures Run(p, st, w + [c]) == Step(p, Run(p, st, w).value, c)
  {
    hide Step;
    assert (w + [c])[..|w|] == w;
  }

  lemma KeywordRead(p: char -> bool, st: State, w: string)
    requires Printable(p) && Fresh(st) && w != "" && Letters(w)
    ensures Run(p, st, w) == Ok(st.(phase := Name, b := w))
  {
    hide EndName, Unquote, TrimSpace, ValidRole;
    assert Run(p, st, w[..1]) == Ok(st.(phase := Name, b := w[..1])) by {
      assert w[..1] == [] + [w[0]];
      RunOne(p, st, [], w[0]);
    }
    WordRun(p, st.(phase := Name, b := w[..1]), w[1..]);
    assert w[..1] + w[1..] == w;
    RunAppend(p, st, w[..1], w[1..]);
  }

  lemma KeywordRun(p: char -> bool, st: State, w: string)
    requires Printable(p) && Fresh(st) && w != "" && Letters(w)
    ensures Run(p, st, w + " ") == EndName(p, st.(phase := Name, b := w), Value, '\0')
  {
    hide EndName, Unquote, TrimSpace, ValidRole, Run;
    KeywordRead(p, st, w);
    RunOne(p, st, w, ' ');
  }

  lemma LowerUpper(name: string)
    requires forall i :: 0 <= i < |name| ==> 'a' <= name[i] <= 'z'
    ensures Lower(Upper(name)) == name && Letters(Upper(name))
  {
  }

  lemma FixedLetters(name: string)
    requires IsFixed(name)
    ensures name != "" && forall i :: 0 <= i < |name| ==> 'a' <= name[i] <= 'z'
    ensures name != "from" && name != "parameter" && name != "message"
  {
    assert |name| < 7 ==> |name| == 6;
  }

  lemma FromRun(p: char -> bool, st: State)
    requires Printable(p) && Fresh(st)
    ensures Run(p, st, "FROM ") == Ok(st.(phase := Value, name := "model"))
  {
    assert "FROM" + " " == "FROM ";
    assert Lower("FROM") == "from";
    KeywordRun(p, st, "FROM");
  }

  lemma FixedRun(p: char -> bool, st: State, name: string)
    requires Printable(p) && Fresh(st) && IsFixed(name)
    ensures Run(p, st, Upper(name) + " ") == Ok(st.(phase := Value, name := name))
  {
    FixedLetters(name);
    LowerUpper(name);
    hide IsFixed;
    KeywordRun(p, st, Upper(name));
  }

  lemma MessageRun(p: char -> bool, st: State)
    requires Printable(p) && Fresh(st)
    ensures Run(p, st, "MESSAGE ") == Ok(st.(phase := Message, name := "message"))
  {
    assert "MESSAGE" + " " == "MESSAGE ";
    assert Lower("MESSAGE") == "message";
    KeywordRun(p, st, "MESSAGE");
  }

  lemma ParameterRun(p: char -> bool, st: State)
    requires Printable(p) && Fresh(st)
    ensures Run(p, st, "PARAMETER ") == Ok(st.(phase := Parameter))
  {
    assert "PARAMETER" + " " == "PARAMETER ";
    assert Lower("PARAMETER") == "parameter";
    KeywordRun(p, st, "PARAMETER");
  }

  /** The state behind a good head. */
  function Behind(st: State, c: Command): State {
    st.(phase := Value, b := "", name := c.name, role := if c.name == "message" then RoleOf(c.args) else "")
  }

  lemma WordEnd(p: char -> bool, st: State, w: string)
    requires Printable(p) && st.b == "" && forall i :: 0 <= i < |w| ==> Takes(st.phase, w[i])
    ensures Run(p, st, w + " ") == Step(p, st.(b := w), ' ')
  {
    hide Step, Run;
    WordRun(p, st, w);
    assert "" + w == w;
    RunOne(p, st, w, ' ');
  }

  lemma RoleLetters(role: string)
    requires ValidRole(role)
    ensures role != "" && Letters(role)
  {
  }

  lemma HeadRun(p: char -> bool, st: State, c: Command)
    requires Printable(p) && Fresh(st) && HeadGood(c)
    ensures Run(p, st, HeadOf(c)) == Ok(Behind(st, c))
  {
    hide IsFixed, Run, ValidRole, RoleOf;
    if c.name == "model" {
      FromRun(p, st);
    } else if IsFixed(c.name) {
      FixedRun(p, st, c.name);
      FixedLetters(c.name);
    } else if c.name == "message" {
      MessageRun(p, st);
      var role := RoleOf(c.args);
      RoleLetters(role);
      WordEnd(p, st.(phase := Message, name := "message"), role);
      assert HeadOf(c) == "MESSAGE " + (role + " ");
      RunAppend(p, st, "MESSAGE ", role + " ");
    } else {
      ParameterRun(p, st);
      WordEnd(p, st.(phase := Parameter), c.name);
      assert HeadOf(c) == "PARAMETER " + (c.name + " ");
      RunAppend(p, st, "PARAMETER ", c.name + " ");
    }
  }

  // ---------- A bad head is never read back ----------

  /** Parsing from here ends with c as the next command. */
  ghost predicate Yields(p: char -> bool, st: State, text: string, c: Command) {
    ParseFrom(p, st, text).Ok? && st.cmds + [c] <= ParseFrom(p, st, text).value
  }

  lemma ParseAppend(p: char -> bool, st: State, a: string, b: string)
    ensures ParseFrom(p, st, a + b) == match Run(p, st, a) case Err(e) => Err(e) case Ok(st') => ParseFrom(p, st', b)
  {
    hide Run;
    RunAppend(p, st, a, b);
  }

  lemma PrefixNext<T>(a: seq<T>, x: T, y: T, s: seq<T>)
    requires a + [x] <= s && a + [y] <= s
    ensures x == y
  {
    assert (a + [x])[|a|] == s[|a|] == (a + [y])[|a|];
  }

  /** In a value, what comes next has the name and the role read before it. */
  lemma YieldsValue(p: char -> bool, st: State, text: string, c: Command) returns (k: int)
    requires Printable(p) && InValue(st) && Yields(p, st, text, c)
    ensures 0 <= k <= |text| && Quiet(p, text[..k]) && (k < |text| ==> IsNewline(text[k]))
            && Reading(p, text[..k]).Some?
    ensures c == Command(st.name, Full(st.role, Reading(p, text[..k]).value))
  {
    hide Run, Reading;
    k := FirstCommit(p, st, text);
    PrefixNext(st.cmds, c, Command(st.name, Full(st.role, Reading(p, text[..k]).value)), ParseFrom(p, st, text).value);
  }

  /** Reading up to the first rune that is not taken, and that one. */
  lemma WordThen(p: char -> bool, st: State, text: string, m: int, c: Command)
    requires Printable(p) && st.b == "" && 0 <= m < |text| && (forall i :: 0 <= i < m ==> Takes(st.phase, text[i]))
    requires Yields(p, st, text, c)
    ensures var next := Step(p, st.(b := text[..m]), text[m]);
            next.Ok? && (next.value.cmds == st.cmds ==> Yields(p, next.value, text[m + 1..], c))
  {
    hide Run, Step;
    WordRun(p, st, text[..m]);
    assert "" + text[..m] == text[..m];
    RunOne(p, st, text[..m], text[m]);
    assert text == (text[..m] + [text[m]]) + text[m + 1..];
    ParseAppend(p, st, text[..m] + [text[m]], text[m + 1..]);
  }

  lemma {:induction false} FirstNot(phase: Phase, text: string, n: int) returns (m: int)
    requires 0 <= n < |text| && !Takes(phase, text[n])
    ensures 0 <= m <= n && !Takes(phase, text[m]) && forall i :: 0 <= i < m ==> Takes(phase, text[i])
  {
    m := 0;
    while Takes(phase, text[m])
      invariant 0 <= m <= n && forall i :: 0 <= i < m ==> Takes(phase, text[i])
      decreases n - m
    {
      m := m + 1;
    }
  }

  lemma BadName(p: char -> bool, st: State, c: Command, x: string)
    requires Printable(p) && st.phase == Parameter && st.b == "" && Yields(p, st, c.name + " " + x, c)
    ensures forall i :: 0 <= i < |c.name| ==> IsNameRune(c.name[i])
  {
    hide Run, Reading;
    var text := c.name + " " + x;
    var n := |c.name|;
    assert text[n] == ' ';
    var m := FirstNot(Parameter, text, n);
    WordThen(p, st, text, m, c);
    var next := Step(p, st.(b := text[..m]), text[m]).value;
    var k := YieldsValue(p, next, text[m + 1..], c);
    assert |c.name| == m;
    assert forall i :: 0 <= i < n ==> text[i] == c.name[i];
  }

  /** A role and a text are told apart again. */
  lemma CutRole(role: string, v: string)
    requires Letters(role)
    ensures var args := role + ": " + v; Contains(args, ": ") && RoleOf(args) == role && TextOf(args) == v
  {
    var args := role + ": " + v;
    var n := |role|;
    assert args[n..n + 2] == ": ";
    forall j | 0 <= j < n ensures !OccursAt(args, ": ", j) {
      assert args[j..j + 2][0] == role[j];
    }
    IndexUnique(args, ": ", n);
    assert args[..n] == role && args[n + 2..] == v;
  }

  lemma BadRole(p: char -> bool, st: State, c: Command, x: string)
    requires Printable(p) && st.phase == Message && st.b == "" && Yields(p, st, RoleOf(c.args) + " " + x, c)
    ensures ValidRole(RoleOf(c.args)) && Contains(c.args, ": ")
  {
    hide Run, Reading, Index;
    var text := RoleOf(c.args) + " " + x;
    var n := |RoleOf(c.args)|;
    assert text[n] == ' ';
    var m := FirstNot(Message, text, n);
    WordThen(p, st, text, m, c);
    var next := Step(p, st.(b := text[..m]), text[m]).value;
    var k := YieldsValue(p, next, text[m + 1..], c);
    RoleLetters(text[..m]);
    CutRole(text[..m], Reading(p, text[m + 1..][..k]).value);
  }

  lemma OnlyGoodHead(p: char -> bool, st: State, c: Command, x: string)
    requires Printable(p) && Fresh(st) && Yields(p, st, HeadOf(c) + x, c)
    ensures HeadGood(c)
  {
    hide Run, Step, RoleOf, ValidRole, IsFixed, ParseFrom;
    if c.name != "model" && !IsFixed(c.name) {
      if c.name == "message" {
        MessageRun(p, st);
        assert HeadOf(c) + x == "MESSAGE " + (RoleOf(c.args) + " " + x);
        ParseAppend(p, st, "MESSAGE ", RoleOf(c.args) + " " + x);
        BadRole(p, st.(phase := Message, name := "message"), c, x);
      } else {
        ParameterRun(p, st);
        assert HeadOf(c) + x == "PARAMETER " + (c.name + " " + x);
        ParseAppend(p, st, "PARAMETER ", c.name + " " + x);
        BadName(p, st.(phase := Parameter), c, x);
      }
    }
  }

  // ---------- The round trip ----------

  lemma BodyReads(p: char -> bool, c: Command)
    requires Printable(p) && BodyGood(p, c)
    ensures Quiet(p, BodyOf(c)) && Reading(p, BodyOf(c)) == Some(ValueOf(c))
  {
    hide Reading, Quiet, Quote, ValueGood, RawGood, TextOf;
    if c.name == "model" {
      RawReads(p, c.args);
    } else {
      GoodReads(p, ValueOf(c));
    }
  }

  /** The value of a good command is told apart from its role again. */
  lemma FullValue(c: Command)
    requires HeadGood(c)
    ensures Full(if c.name == "message" then RoleOf(c.args) else "", ValueOf(c)) == c.args
  {
    if c.name == "message" {
      var i := Index(c.args, ": ");
      hide Index;
      assert OccursAt(c.args, ": ", i) && c.args[i..i + 2] == ": ";
      assert c.args == c.args[..i] + c.args[i..i + 2] + c.args[i + 2..];
      RoleLetters(RoleOf(c.args));
    }
  }

  lemma GoodRun(p: char -> bool, st: State, c: Command) returns (st': State)
    requires Printable(p) && Fresh(st) && Good(p, c)
    ensures Run(p, st, Print(c) + "\n") == Ok(st') && Fresh(st') && st'.cmds == st.cmds + [c]
  {
    hide Run, Step, Reading, Quiet, HeadOf, BodyOf, ValueOf, HeadGood, BodyGood, Print, RoleOf;
    var w := BodyOf(c) + "\n";
    var k := |BodyOf(c)|;
    PrintParts(c);
    HeadRun(p, st, c);
    BodyReads(p, c);
    assert w[..k] == BodyOf(c) && w[..k + 1] == w;
    StopRun(p, Behind(st, c), w, k);
    assert Print(c) + "\n" == HeadOf(c) + w;
    RunAppend(p, st, HeadOf(c), w);
    FullValue(c);
    st' := Run(p, Behind(st, c), w).value;
  }

  /** Only a good command is read back. */
  lemma OnlyGood(p: char -> bool, st: State, c: Command, rest: string)
    requires Printable(p) && Fresh(st) && Yields(p, st, Print(c) + "\n" + rest, c)
    ensures Good(p, c)
  {
    hide Run, Step, Reading, Quiet, HeadOf, ValueOf, HeadGood, Print, RoleOf, ParseFrom, Quote, ValueGood, RawGood;
    PrintParts(c);
    var text := BodyOf(c) + "\n" + rest;
    assert Print(c) + "\n" + rest == HeadOf(c) + text;
    OnlyGoodHead(p, st, c, text);
    HeadRun(p, st, c);
    ParseAppend(p, st, HeadOf(c), text);
    var k := YieldsValue(p, Behind(st, c), text, c);
    SameValue(c, Reading(p, text[..k]).value);
    if c.name == "model" {
      OnlyRawRead(p, c.args, rest, k);
    } else {
      OnlyGoodRead(p, ValueOf(c), rest, k);
    }
  }

  lemma SameValue(c: Command, v: string)
    requires HeadGood(c) && c.args == Full(if c.name == "message" then RoleOf(c.args) else "", v)
    ensures v == ValueOf(c) && (c.name == "model" ==> v == c.args)
  {
    hide Index;
    if c.name == "message" {
      RoleLetters(RoleOf(c.args));
      CutRole(RoleOf(c.args), v);
    }
  }

  ghost predicate AllGood(p: char -> bool, cmds: seq<Command>) { forall i :: 0 <= i < |cmds| ==> Good(p, cmds[i]) }

  lemma AllGoodNext(p: char -> bool, cmds: seq<Command>)
    requires cmds != []
    ensures AllGood(p, cmds) <==> Good(p, cmds[0]) && AllGood(p, cmds[1..])
  {
    hide Good;
    assert forall i :: 0 < i < |cmds| ==> cmds[i] == cmds[1..][i - 1];
  }

  lemma NothingToParse(p: char -> bool, st: State)
    requires Fresh(st)
    ensures ParseFrom(p, st, "") == Ok(st.cmds) && AllGood(p, [])
  {
  }

  lemma GoodFirst(p: char -> bool, st: State, c: Command, rest: string) returns (st': State)
    requires Printable(p) && Fresh(st) && Good(p, c)
    ensures ParseFrom(p, st, Print(c) + "\n" + rest) == ParseFrom(p, st', rest) && Fresh(st')
            && st'.cmds == st.cmds + [c]
  {
    hide Run, Print, Good, ParseFrom;
    st' := GoodRun(p, st, c);
    ParseAppend(p, st, Print(c) + "\n", rest);
  }

  lemma BadFirst(p: char -> bool, st: State, c: Command, rest: string, cmds: seq<Command>)
    requires Printable(p) && Fresh(st) && !Good(p, c)
    ensures ParseFrom(p, st, Print(c) + "\n" + rest) != Ok(st.cmds + [c] + cmds)
  {
    hide Print, Good, ParseFrom;
    if ParseFrom(p, st, Print(c) + "\n" + rest) == Ok(st.cmds + [c] + cmds) {
      OnlyGood(p, st, c, rest);
    }
  }

  lemma {:induction false} RoundTripFrom(p: char -> bool, st: State, cmds: seq<Command>)
    requires Printable(p) && Fresh(st)
    ensures ParseFrom(p, st, PrintAll(cmds)) == Ok(st.cmds + cmds) <==> AllGood(p, cmds)
    decreases |cmds|
  {
    hide Print, Good, ParseFrom, AllGood;
    if cmds == [] {
      NothingToParse(p, st);
      assert st.cmds + cmds == st.cmds;
      return;
    }
    var c, rest := cmds[0], PrintAll(cmds[1..]);
    AllGoodNext(p, cmds);
    assert st.cmds + [c] + cmds[1..] == st.cmds + cmds;
    if Good(p, c) {
      var st' := GoodFirst(p, st, c, rest);
      RoundTripFrom(p, st', cmds[1..]);
    } else {
      BadFirst(p, st, c, rest, cmds[1..]);
    }
  }

  /** A command list is parsed back from its printed form exactly if it has a FROM and every command is good. */
  lemma RoundTrip(p: char -> bool, cmds: seq<Command>)
    requires Printable(p)
    ensures Parse(p, PrintAll(cmds)) == Ok(cmds) <==> HasFrom(cmds) && AllGood(p, cmds)
  {
    hide AllGood, PrintAll, ParseFrom;
    RoundTripFrom(p, INITIAL, cmds);
    assert [] + cmds == cmds;
  }

  // ---------- A plain sufficient condition ----------

  predicate PlainText(s: string) { forall i :: 0 <= i < |s| ==> ' ' <= s[i] <= '~' || s[i] == '\n' }

  /** Printable ASCII and newlines, no three quotes in a row, no leading quote if printed without quotes; and for
      a FROM also a single line without spaces at its edges. */
  predicate Plain(c: Command) {
    var v := ValueOf(c);
    && HeadGood(c) && PlainText(v) && !Contains(v, TRIPLE)
    && (if c.name == "model" then !NeedsQuotes(v) && (v == "" || v[0] != '"')
        else NeedsQuotes(v) || v == "" || v[0] != '"')
  }

  lemma PlainIsGood(p: char -> bool, c: Command)
    requires Printable(p) && Plain(c)
    ensures Good(p, c)
  {
    var v := ValueOf(c);
    if !NeedsQuotes(v) {
      assert forall i :: 0 <= i < |v| ==> v[i] in v;
      assert RawGood(p, v);
    } else {
      forall m | 0 <= m < |v| && IsNewline(v[m]) ensures !EndsQuoted(v[..m]) {
        PlainNeverEnds(v, m);
      }
    }
  }

  lemma PlainNeverEnds(v: string, m: int)
    requires !Contains(v, TRIPLE) && 0 <= m <= |v|
    ensures !EndsQuoted(v[..m])
  {
    var j := Tail(v[..m]);
    if j >= 3 {
      assert !OccursAt(v, TRIPLE, j - 3);
      assert v[..m][..j] == v[..j];
      assert v[j - 3..j] == [v[j - 3], v[j - 2], v[j - 1]];
    }
  }

  lemma BadSecond(p: char -> bool, a: Command, b: Command)
    requires Printable(p) && !BodyGood(p, b)
    ensures Parse(p, PrintAll([a, b])) != Ok([a, b])
  {
    hide Parse, PrintAll, BodyGood;
    RoundTrip(p, [a, b]);
    assert [a, b][1] == b;
  }

  /** Three quotes before a newline end a value early; and a leading quote is not protected. */
  lemma NotReadBack(p: char -> bool, from: Command)
    requires Printable(p)
    ensures var c := Command("system", "\"\"\"\n"); Parse(p, PrintAll([from, c])) != Ok([from, c])
    ensures var c := Command("stop", "\""); Parse(p, PrintAll([from, c])) != Ok([from, c])
  {
    hide Parse, PrintAll;
    var system, stop := Command("system", "\"\"\"\n"), Command("stop", "\"");
    assert !BodyGood(p, system) by {
      var v := system.args;
      assert v[3] == '\n' && EndsQuoted(v[..3]);
    }
    BadSecond(p, from, system);
    BadSecond(p, from, stop);
  }
}
