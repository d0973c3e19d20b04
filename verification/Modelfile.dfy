/** The Modelfile parser, a state machine over runes, and the printer (parser/parser.go). */
module Modelfiles {
  import opened Options
  import opened Strings

  datatype Command = Command(name: string, args: string)

  datatype Error = UnexpectedEof | InvalidCommand(line: nat) | InvalidRole(line: nat) | MissingFrom

  datatype Result<T> = Ok(value: T) | Err(error: Error)

  // ---------- Runes ----------

  predicate IsAlpha(c: char) { 'a' <= c <= 'z' || 'A' <= c <= 'Z' }

  predicate IsNumber(c: char) { '0' <= c <= '9' }

  predicate IsSpace(c: char) { c == ' ' || c == '\t' }

  predicate IsNewline(c: char) { c == '\r' || c == '\n' }

  /** White space as strings.TrimSpace sees it. */
  predicate IsWhite(c: char) {
    var u := c as int;
    || 9 <= u <= 13 || u == 32 || u == 0x85 || u == 0xA0 || u == 0x1680 || 0x2000 <= u <= 0x200A
    || u == 0x2028 || u == 0x2029 || u == 0x202F || u == 0x205F || u == 0x3000
  }

  /** Which runes are printable: settled for ASCII; beyond it, no printable rune is white space. */
  ghost predicate Printable(p: char -> bool) {
    && (forall c :: c as int < 128 ==> p(c) == (' ' <= c <= '~'))
    && (forall c :: p(c) && IsWhite(c) ==> c == ' ')
  }

  function LowerRune(c: char): char { if 'A' <= c <= 'Z' then c - 'A' + 'a' else c }

  function UpperRune(c: char): char { if 'a' <= c <= 'z' then c - 'a' + 'A' else c }

  function Lower(s: string): (r: string)
    ensures |r| == |s| && forall i :: 0 <= i < |s| ==> r[i] == LowerRune(s[i])
  {
    seq(|s|, i requires 0 <= i < |s| => LowerRune(s[i]))
  }

  function Upper(s: string): (r: string)
    ensures |r| == |s| && forall i :: 0 <= i < |s| ==> r[i] == UpperRune(s[i])
  {
    seq(|s|, i requires 0 <= i < |s| => UpperRune(s[i]))
  }

  /** Where a string begins without leading white space. */
  function Lead(s: string): (i: nat)
    ensures i <= |s| && (forall k :: 0 <= k < i ==> IsWhite(s[k])) && (i < |s| ==> !IsWhite(s[i]))
  {
    if s != [] && IsWhite(s[0]) then 1 + Lead(s[1..]) else 0
  }

  /** Where a string ends without trailing white space. */
  function Tail(s: string): (j: nat)
    ensures j <= |s| && (forall k :: j <= k < |s| ==> IsWhite(s[k])) && (j > 0 ==> !IsWhite(s[j - 1]))
  {
    if s != [] && IsWhite(s[|s| - 1]) then Tail(s[..|s| - 1]) else |s|
  }

  lemma LeadTail(s: string)
    ensures Tail(s) == 0 || Lead(s) < Tail(s)
  {
  }

  function TrimSpace(s: string): string {
    LeadTail(s);
    if Tail(s) == 0 then "" else s[Lead(s)..Tail(s)]
  }

  // ---------- Quoting ----------

  predicate NeedsQuotes(s: string) {
    '\n' in s || (s != [] && (s[0] == ' ' || s[|s| - 1] == ' '))
  }

  function Quote(s: string): string {
    if !NeedsQuotes(s) then s
    else if '"' in s then "\"\"\"" + s + "\"\"\""
    else "\"" + s + "\""
  }

  /** How many quotes a string opens with: three, one or none. */
  function Quotes(s: string): (q: int)
    ensures 0 <= q <= |s|
  {
    if |s| >= 3 && s[..3] == "\"\"\"" then 3 else if |s| >= 1 && s[0] == '"' then 1 else 0
  }

  function Unquote(s: string): Option<string> {
    if |s| >= 3 && s[..3] == "\"\"\"" then
      if |s| >= 6 && s[|s| - 3..] == "\"\"\"" then Some(s[3..|s| - 3]) else None
    else if |s| >= 1 && s[0] == '"' then
      if |s| >= 2 && s[|s| - 1] == '"' then Some(s[1..|s| - 1]) else None
    else Some(s)
  }

  // ---------- The printer ----------

  predicate IsFixed(name: string) {
    name in ["license", "template", "system", "adapter", "renderer", "parser", "requires"]
  }

  /** strings.Cut of a message at its first colon and space. */
  function RoleOf(args: string): string {
    var i := Index(args, ": ");
    if i < 0 then args else args[..i]
  }

  function TextOf(args: string): string {
    var i := Index(args, ": ");
    if i < 0 then "" else args[i + 2..]
  }

  function Print(c: Command): string {
    if c.name == "model" then "FROM " + c.args
    else if IsFixed(c.name) then Upper(c.name) + " " + Quote(c.args)
    else if c.name == "message" then "MESSAGE " + RoleOf(c.args) + " " + Quote(TextOf(c.args))
    else "PARAMETER " + c.name + " " + Quote(c.args)
  }

  function PrintAll(cmds: seq<Command>): string {
    if cmds == [] then "" else Print(cmds[0]) + "\n" + PrintAll(cmds[1..])
  }

  method PrintFile(cmds: seq<Command>) returns (text: string)
    ensures text == PrintAll(cmds)
  {
    text := "";
    hide Print;
    for i := 0 to |cmds|
      invariant text + PrintAll(cmds[i..]) == PrintAll(cmds)
    {
      assert cmds[i..][1..] == cmds[i + 1..];
      text := text + Print(cmds[i]) + "\n";
    }
  }

  // ---------- The parser ----------

  datatype Phase = Nil | Name | Value | Parameter | Message | Comment

  datatype Rune = Next(phase: Phase, rune: char) | BadCommand | Eof

  /** parseRuneForState; the rune '\0' stands for none. */
  function ParseRune(r: char, phase: Phase): Rune {
    match phase
    case Nil =>
      if r == '#' then Next(Comment, '\0') else if IsSpace(r) || IsNewline(r) then Next(Nil, '\0') else Next(Name, r)
    case Name => if IsAlpha(r) then Next(Name, r) else if IsSpace(r) then Next(Value, '\0') else BadCommand
    case Value => if IsNewline(r) || IsSpace(r) then Next(Nil, r) else Next(Value, r)
    case Parameter =>
      if IsAlpha(r) || IsNumber(r) || r == '_' then Next(Parameter, r)
      else if IsSpace(r) then Next(Value, '\0')
      else Eof
    case Message => if IsAlpha(r) then Next(Message, r) else if IsSpace(r) then Next(Value, '\0') else Eof
    case Comment => if IsNewline(r) then Next(Nil, '\0') else Next(Comment, '\0')
  }

  predicate ValidCommand(s: string) {
    var l := Lower(s);
    l == "from" || l == "parameter" || l == "message" || IsFixed(l)
  }

  predicate ValidRole(s: string) { s == "system" || s == "user" || s == "assistant" }

  datatype State = State(phase: Phase, b: string, name: string, role: string, cmds: seq<Command>, line: nat)

  function Write(p: char -> bool, st: State, r: char): State { if p(r) then st.(b := st.b + [r]) else st }

  function Enter(p: char -> bool, st: State, phase: Phase, r: char): State { Write(p, st.(phase := phase, b := ""), r) }

  function Full(role: string, s: string): string { if role != "" then role + ": " + s else s }

  function Commit(st: State, s: string): State {
    st.(cmds := st.cmds + [Command(st.name, Full(st.role, s))], role := "")
  }

  /** One rune: the effect of the loop's body. */
  function Step(p: char -> bool, st0: State, r0: char): Result<State> {
    var st := if IsNewline(r0) then st0.(line := st0.line + 1) else st0;
    match ParseRune(r0, st.phase)
    case BadCommand => Err(InvalidCommand(st.line))
    case Eof => Err(UnexpectedEof)
    case Next(next, r) =>
      if next == st.phase then Ok(Write(p, st, r))
      else
        match st.phase
        case Name => EndName(p, st, next, r)
        case Parameter => Ok(Enter(p, st.(name := st.b), next, r))
        case Message => if !ValidRole(st.b) then Err(InvalidRole(st.line)) else Ok(Enter(p, st.(role := st.b), next, r))
        case Value =>
          var s := Unquote(TrimSpace(st.b));
          if s.None? || IsSpace(r) then Ok(st.(b := st.b + [r]))
          else Ok(Enter(p, Commit(st, s.value), next, r))
        case _ => Ok(Enter(p, st, next, r))
  }

  /** The end of a command's name decides what comes next. */
  function EndName(p: char -> bool, st: State, next: Phase, r: char): Result<State> {
    var s := Lower(st.b);
    if !ValidCommand(st.b) then Err(InvalidCommand(st.line))
    else if s == "from" then Ok(Enter(p, st.(name := "model"), next, r))
    else if s == "parameter" then Ok(Enter(p, st, Parameter, r))
    else if s == "message" then Ok(Enter(p, st.(name := s), Message, r))
    else Ok(Enter(p, st.(name := s), next, r))
  }

  function Run(p: char -> bool, st: State, text: string): Result<State> {
    if text == "" then Ok(st)
    else
      match Run(p, st, text[..|text| - 1])
      case Err(e) => Err(e)
      case Ok(st') => Step(p, st', text[|text| - 1])
  }

  /** Flushing the buffer at the end of the file. */
  function Finish(st: State): Result<seq<Command>> {
    match st.phase
    case Comment | Nil => Ok(st.cmds)
    case Value => (match Unquote(TrimSpace(st.b))
                   case None => Err(UnexpectedEof)
                   case Some(s) => Ok(Commit(st, s).cmds))
    case _ => Err(UnexpectedEof)
  }

  function ParseFrom(p: char -> bool, st: State, text: string): Result<seq<Command>> {
    match Run(p, st, text)
    case Err(e) => Err(e)
    case Ok(st') => Finish(st')
  }

  predicate HasFrom(cmds: seq<Command>) { exists i :: 0 <= i < |cmds| && cmds[i].name == "model" }

  const INITIAL := State(Nil, "", "", "", [], 1)

  function Parse(p: char -> bool, text: string): Result<seq<Command>> {
    match ParseFrom(p, INITIAL, text)
    case Err(e) => Err(e)
    case Ok(cmds) => if HasFrom(cmds) then Ok(cmds) else Err(MissingFrom)
  }

  lemma {:induction false} RunAppend(p: char -> bool, st: State, a: string, b: string)
    ensures Run(p, st, a + b) == match Run(p, st, a) case Err(e) => Err(e) case Ok(st') => Run(p, st', b)
  {
    hide Step;
    if b == "" {
      assert a + b == a;
    } else {
      var n := |b| - 1;
      assert (a + b)[..|a + b| - 1] == a + b[..n] && (a + b)[|a + b| - 1] == b[n];
      RunAppend(p, st, a, b[..n]);
    }
  }

  /** What the first runes lead to decides the rest. */
  lemma RunSplit(p: char -> bool, st: State, text: string, k: int)
    requires 0 <= k <= |text|
    ensures Run(p, st, text) == match Run(p, st, text[..k]) case Err(e) => Err(e) case Ok(st') => Run(p, st', text[k..])
  {
    assert text[..k] + text[k..] == text;
    RunAppend(p, st, text[..k], text[k..]);
  }

  lemma RunNext(p: char -> bool, text: string, i: int)
    requires 0 <= i < |text| && Run(p, INITIAL, text[..i]).Ok?
    ensures Run(p, INITIAL, text[..i + 1]) == Step(p, Run(p, INITIAL, text[..i]).value, text[i])
    ensures Run(p, INITIAL, text[..i + 1]).Err? ==> Run(p, INITIAL, text) == Run(p, INITIAL, text[..i + 1])
  {
    assert text[..i + 1][..i] == text[..i];
    RunSplit(p, INITIAL, text, i + 1);
  }

  /** The end of ParseFile: flush the buffer and look for a FROM. */
  method Flush(curr: Phase, b: string, name: string, role: string, cmds0: seq<Command>, line: nat)
    returns (r: Result<seq<Command>>)
    ensures r == match Finish(State(curr, b, name, role, cmds0, line))
                 case Err(e) => Err(e)
                 case Ok(cmds) => if HasFrom(cmds) then Ok(cmds) else Err(MissingFrom)
  {
    hide TrimSpace, Unquote;
    var cmds := cmds0;
    match curr {
      case Comment | Nil =>
      case Value =>
        var u := Unquote(TrimSpace(b));
        if u.None? {
          return Err(UnexpectedEof);
        }
        var s := u.value;
        if role != "" {
          s := role + ": " + s;
        }
        cmds := cmds + [Command(name, s)];
      case _ =>
        return Err(UnexpectedEof);
    }
    for i := 0 to |cmds|
      invariant forall k :: 0 <= k < i ==> cmds[k].name != "model"
    {
      if cmds[i].name == "model" {
        return Ok(cmds);
      }
    }
    return Err(MissingFrom);
  }

  /** ParseFile: the loop over the runes, then the flush and the check for a FROM. */
  method ParseFile(p: char -> bool, text: string) returns (r: Result<seq<Command>>)
    ensures r == Parse(p, text)
  {
    var name, curr, line, b, role, cmds := "", Nil, 1, "", "", [];
    assert Run(p, INITIAL, text[..0]) == Ok(INITIAL);
    hide Run, TrimSpace, Unquote, Lower, ValidCommand, ValidRole, IsNewline;
    for i := 0 to |text|
      invariant Run(p, INITIAL, text[..i]) == Ok(State(curr, b, name, role, cmds, line))
    {
      RunNext(p, text, i);
      if IsNewline(text[i]) {
        line := line + 1;
      }
      match ParseRune(text[i], curr)
      case BadCommand =>
        return Err(InvalidCommand(line));
      case Eof =>
        return Err(UnexpectedEof);
      case Next(phase, c) =>
        var next := phase;
        if next != curr {
          match curr {
            case Name =>
              if !ValidCommand(b) {
                return Err(InvalidCommand(line));
              }
              var s := Lower(b);
              if s == "from" {
                name := "model";
              } else if s == "parameter" {
                next := Parameter;
              } else {
                if s == "message" {
                  next := Message;
                }
                name := s;
              }
            case Parameter =>
              name := b;
            case Message =>
              if !ValidRole(b) {
                return Err(InvalidRole(line));
              }
              role := b;
            case Value =>
              var u := Unquote(TrimSpace(b));
              if u.None? || IsSpace(c) {
                b := b + [c];
                continue;
              }
              var s := u.value;
              if role != "" {
                s := role + ": " + s;
                role := "";
              }
              cmds := cmds + [Command(name, s)];
            case _ =>
          }
          b, curr := "", next;
        }
        if p(c) {
          b := b + [c];
        }
    }
    assert text[..|text|] == text;
    r := Flush(curr, b, name, role, cmds, line);
  }
}
