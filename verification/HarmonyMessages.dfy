/** What a text in the Harmony format says (harmony/harmonyparser.go): every text is a list of messages and the
    beginning of another, and the parser and the handler report exactly those, however the text arrives. */
module HarmonyMessages {
  import opened Strings
  import opened Harmony
  import opened HarmonyStream

  /** A message, with the text before it that belongs to none. */
  datatype Message = Message(before: string, header: string, content: string)

  function Framed(tags: Tags, m: Message): string {
    m.before + tags.start + m.header + tags.header + m.content + tags.end
  }

  /** Where the tag is written after the text, it occurs for the first time. */
  predicate Ends(text: string, tag: string) { Index(text + tag, tag) == |text| }

  predicate Clean(tags: Tags, m: Message) {
    Ends(m.before, tags.start) && Ends(m.header, tags.header) && Ends(m.content, tags.end)
  }

  function EventsOf(m: Message): seq<Event> {
    [MessageStart, HeaderComplete(m.header)] + (if m.content == "" then [] else [Content(m.content)]) + [MessageEnd]
  }

  // ---------- One message ----------

  lemma TagFound(text: string, tag: string, rest: string)
    requires tag != "" && Ends(text, tag)
    ensures Index(text + tag + rest, tag) == |text|
  {
    IndexKept(text + tag, rest, tag);
  }

  /** The parser passes a closing tag. */
  lemma TagPassed(tags: Tags, s: State, text: string, rest: string)
    requires tags.Valid() && Ends(text, tags.Closing(s))
    ensures var c := Close(s, text);
            Drain(tags, s, text + tags.Closing(s) + rest) == After(c.1, Drain(tags, c.0, rest))
  {
    hide Drain, Close, Index;
    var tag := tags.Closing(s);
    var acc := text + tag + rest;
    TagFound(text, tag, rest);
    assert acc[..|text|] == text && acc[|text| + |tag|..] == rest;
    DrainFound(tags, s, acc, |text|);
  }

  /** A message is reported as its start, its header, its content if there is any, and its end; then the parser is where
      it was before. */
  lemma MessageParsed(tags: Tags, m: Message, rest: string)
    requires tags.Valid() && Clean(tags, m)
    ensures Drain(tags, LookingForMessageStart, Framed(tags, m) + rest)
            == After(EventsOf(m), Drain(tags, LookingForMessageStart, rest))
  {
    hide Drain, Ends;
    var afterContent := rest;
    var afterHeader := m.content + tags.end + rest;
    var afterStart := m.header + tags.header + afterHeader;
    TagPassed(tags, LookingForMessageStart, m.before, afterStart);
    TagPassed(tags, ParsingHeader, m.header, afterHeader);
    TagPassed(tags, ParsingContent, m.content, rest);
    assert Framed(tags, m) + rest == m.before + tags.start + afterStart;
    var d := Drain(tags, LookingForMessageStart, rest);
    assert [MessageStart] + ([HeaderComplete(m.header)] + ((Text(m.content) + [MessageEnd]) + d.events))
           == EventsOf(m) + d.events;
  }

  // ---------- Every text ----------

  /** What follows the last complete message. */
  datatype Tail =
    | Outside(text: string)
    | InHeader(before: string, header: string)
    | InContent(before: string, header: string, content: string)

  function TailText(tags: Tags, t: Tail): string {
    match t
    case Outside(text) => text
    case InHeader(before, header) => before + tags.start + header
    case InContent(before, header, content) => before + tags.start + header + tags.header + content
  }

  /** The tail is not further along than it says. */
  predicate CleanTail(tags: Tags, t: Tail) {
    match t
    case Outside(text) => !Contains(text, tags.start)
    case InHeader(before, header) => Ends(before, tags.start) && !Contains(header, tags.header)
    case InContent(before, header, content) =>
      Ends(before, tags.start) && Ends(header, tags.header) && !Contains(content, tags.end)
  }

  /** The content may be given out up to k: what follows may begin the end tag, and what follows any earlier place may
      not. */
  ghost predicate GivenOut(content: string, end: string, k: int) {
    && 0 <= k <= |content| && content[k..] <= end
    && forall j :: 0 <= j < k ==> !(content[j..] <= end)
  }

  function TailEvents(t: Tail, k: int): seq<Event>
    requires t.InContent? ==> 0 <= k <= |t.content|
  {
    match t
    case Outside(_) => []
    case InHeader(_, _) => [MessageStart]
    case InContent(_, header, content) =>
      [MessageStart, HeaderComplete(header)] + if k == 0 then [] else [Content(content[..k])]
  }

  /** What the parser keeps of the tail, and its state. */
  function TailState(t: Tail): State {
    match t
    case Outside(_) => LookingForMessageStart
    case InHeader(_, _) => ParsingHeader
    case InContent(_, _, _) => ParsingContent
  }

  function TailKept(t: Tail, k: int): string
    requires t.InContent? ==> 0 <= k <= |t.content|
  {
    match t
    case Outside(text) => text
    case InHeader(_, header) => header
    case InContent(_, _, content) => content[k..]
  }

  /** The place up to which content is given out: exactly where what is left may begin the end tag. */
  lemma GivenOutExact(content: string, end: string, k: int)
    requires !Contains(content, end) && end != ""
    ensures GivenOut(content, end, k) <==> k == |content| - Overlap(content, end)
    ensures Overlap(content, end) == 0 <==> forall j :: 0 <= j < |content| ==> !(content[j..] <= end)
  {
    var r := Overlap(content, end);
    var n := |content|;
    forall j | 0 <= j <= n ensures content[j..] <= end <==> n - j <= |end| && HasSuffix(content, end[..n - j]) {
      if content[j..] <= end {
        assert end[..n - j] == content[j..];
      }
    }
    forall j | 0 <= j < n - r ensures !(content[j..] <= end) {
      assert n - j <= |end| ==> !HasSuffix(content, end[..n - j]);
    }
    assert content[n - r..] <= end;
  }

  lemma HeaderTailParsed(tags: Tags, before: string, header: string)
    requires tags.Valid() && Ends(before, tags.start) && !Contains(header, tags.header)
    ensures Drain(tags, LookingForMessageStart, before + tags.start + header)
            == Outcome(ParsingHeader, header, [MessageStart])
  {
    DrainHeld(tags, ParsingHeader, header);
    hide Drain, Ends;
    TagPassed(tags, LookingForMessageStart, before, header);
  }

  lemma ContentTailHeld(tags: Tags, content: string, k: int)
    requires tags.Valid() && !Contains(content, tags.end) && GivenOut(content, tags.end, k)
    ensures Drain(tags, ParsingContent, content)
            == Outcome(ParsingContent, content[k..], if k == 0 then [] else [Content(content[..k])])
  {
    GivenOutExact(content, tags.end, k);
    DrainHeld(tags, ParsingContent, content);
    hide Drain, Overlap, Index;
  }

  lemma ContentTailParsed(tags: Tags, before: string, header: string, content: string, k: int)
    requires tags.Valid() && Ends(before, tags.start) && Ends(header, tags.header)
    requires !Contains(content, tags.end) && GivenOut(content, tags.end, k)
    ensures Drain(tags, LookingForMessageStart, before + tags.start + header + tags.header + content)
            == Outcome(ParsingContent, content[k..],
                       [MessageStart, HeaderComplete(header)] + if k == 0 then [] else [Content(content[..k])])
  {
    hide Drain, Ends, Index;
    ContentTailHeld(tags, content, k);
    var afterStart := header + tags.header + content;
    TagPassed(tags, ParsingHeader, header, content);
    TagPassed(tags, LookingForMessageStart, before, afterStart);
    assert before + tags.start + header + tags.header + content == before + tags.start + afterStart;
    var given := if k == 0 then [] else [Content(content[..k])];
    assert [MessageStart] + ([HeaderComplete(header)] + given) == [MessageStart, HeaderComplete(header)] + given;
  }

  lemma TailParsed(tags: Tags, t: Tail, k: int)
    requires tags.Valid() && CleanTail(tags, t) && (t.InContent? ==> GivenOut(t.content, tags.end, k))
    ensures Drain(tags, LookingForMessageStart, TailText(tags, t))
            == Outcome(TailState(t), TailKept(t, k), TailEvents(t, k))
  {
    match t
    case Outside(text) =>
      DrainHeld(tags, LookingForMessageStart, text);
    case InHeader(before, header) =>
      hide Drain, Ends, Index;
      HeaderTailParsed(tags, before, header);
    case InContent(before, header, content) =>
      hide Drain, Ends, Index, GivenOut;
      ContentTailParsed(tags, before, header, content, k);
  }

  function Transcript(tags: Tags, ms: seq<Message>): string {
    if ms == [] then "" else Framed(tags, ms[0]) + Transcript(tags, ms[1..])
  }

  function Events(ms: seq<Message>): seq<Event> {
    if ms == [] then [] else EventsOf(ms[0]) + Events(ms[1..])
  }

  predicate AllClean(tags: Tags, ms: seq<Message>) { forall i :: 0 <= i < |ms| ==> Clean(tags, ms[i]) }

  /** The parser reports exactly the messages and as much of the tail as is certain. */
  lemma {:induction false} TranscriptParsed(tags: Tags, ms: seq<Message>, t: Tail, k: int)
    requires tags.Valid() && AllClean(tags, ms) && CleanTail(tags, t)
    requires t.InContent? ==> GivenOut(t.content, tags.end, k)
    ensures Drain(tags, LookingForMessageStart, Transcript(tags, ms) + TailText(tags, t))
            == Outcome(TailState(t), TailKept(t, k), Events(ms) + TailEvents(t, k))
  {
    hide Drain, Clean, CleanTail, Framed, EventsOf, TailText, TailEvents, TailKept;
    if ms == [] {
      TailParsed(tags, t, k);
      assert "" + TailText(tags, t) == TailText(tags, t) && [] + TailEvents(t, k) == TailEvents(t, k);
    } else {
      var m, rest := ms[0], Transcript(tags, ms[1..]) + TailText(tags, t);
      TranscriptParsed(tags, ms[1..], t, k);
      MessageParsed(tags, m, rest);
      assert Transcript(tags, ms) + TailText(tags, t) == Framed(tags, m) + rest;
      Regroup(EventsOf(m), Events(ms[1..]), TailEvents(t, k));
    }
  }

  /** The text before the first occurrence of a tag. */
  lemma FirstTag(w: string, tag: string) returns (text: string, rest: string)
    requires tag != "" && Contains(w, tag)
    ensures w == text + tag + rest && Ends(text, tag)
  {
    var i := Index(w, tag);
    text, rest := w[..i], w[i + |tag|..];
    assert w[i..i + |tag|] == tag;
    var x := text + tag;
    assert x == w[..i + |tag|];
    assert x[i..i + |tag|] == tag;
    forall j | 0 <= j < i ensures !OccursAt(x, tag, j) {
      if j + |tag| <= |x| {
        TakeSlice(w, i + |tag|, j, j + |tag|);
        assert !OccursAt(w, tag, j);
      }
    }
    IndexUnique(x, tag, i);
  }

  /** Every text is some messages and a tail. */
  lemma {:induction false} EveryText(tags: Tags, w: string) returns (ms: seq<Message>, t: Tail)
    requires tags.Valid()
    ensures AllClean(tags, ms) && CleanTail(tags, t) && w == Transcript(tags, ms) + TailText(tags, t)
    decreases |w|
  {
    hide Index, Ends, Framed;
    ms := [];
    if !Contains(w, tags.start) {
      t := Outside(w);
      return;
    }
    var before, afterStart := FirstTag(w, tags.start);
    if !Contains(afterStart, tags.header) {
      t := InHeader(before, afterStart);
      return;
    }
    var header, afterHeader := FirstTag(afterStart, tags.header);
    if !Contains(afterHeader, tags.end) {
      t := InContent(before, header, afterHeader);
      JoinedText(before, tags.start, header, tags.header, afterHeader);
      return;
    }
    var content, rest := FirstTag(afterHeader, tags.end);
    var m := Message(before, header, content);
    JoinedText(before, tags.start, header, tags.header, content + tags.end + rest);
    FramedFirst(tags, m, rest);
    var more;
    more, t := EveryText(tags, rest);
    ms := [m] + more;
    FramedMore(tags, m, more, TailText(tags, t));
  }

  lemma JoinedText(a: string, b: string, c: string, d: string, e: string)
    ensures a + b + (c + d + e) == a + b + c + d + e
  {
  }

  lemma FramedFirst(tags: Tags, m: Message, rest: string)
    ensures m.before + tags.start + m.header + tags.header + (m.content + tags.end + rest) == Framed(tags, m) + rest
  {
  }

  lemma FramedMore(tags: Tags, m: Message, ms: seq<Message>, tail: string)
    ensures Transcript(tags, [m] + ms) + tail == Framed(tags, m) + (Transcript(tags, ms) + tail)
  {
    assert ([m] + ms)[1..] == ms;
    hide Framed;
    assert Transcript(tags, [m] + ms) == Framed(tags, m) + Transcript(tags, ms);
  }

  // ---------- However the text arrives ----------

  /** No two events of content follow each other. */
  ghost predicate Apart(es: seq<Event>) { forall i :: 0 <= i < |es| - 1 ==> ApartAt(es, i) }

  predicate ApartAt(es: seq<Event>, i: int)
    requires 0 <= i < |es| - 1
  {
    !es[i].Content? || !es[i + 1].Content?
  }

  lemma {:induction false} ApartIsMerged(es: seq<Event>)
    requires Apart(es)
    ensures Merged(es) == es
  {
    if es != [] {
      var n := |es| - 1;
      forall i | 0 <= i < n - 1 ensures ApartAt(es[..n], i) {
        assert ApartAt(es, i);
      }
      ApartIsMerged(es[..n]);
      assert n > 0 ==> ApartAt(es, n - 1);
    }
  }

  lemma ApartAppend(a: seq<Event>, b: seq<Event>)
    requires Apart(a) && Apart(b) && (a == [] || !a[|a| - 1].Content?)
    ensures Apart(a + b)
  {
    forall i | 0 <= i < |a + b| - 1 ensures ApartAt(a + b, i) {
      if i < |a| - 1 {
        assert ApartAt(a, i);
      } else if i >= |a| {
        assert ApartAt(b, i - |a|);
      }
    }
  }

  lemma {:induction false} EventsApart(ms: seq<Message>, t: Tail, k: int)
    requires t.InContent? ==> 0 <= k <= |t.content|
    ensures Apart(Events(ms) + TailEvents(t, k))
  {
    if ms == [] {
      assert [] + TailEvents(t, k) == TailEvents(t, k);
    } else {
      EventsApart(ms[1..], t, k);
      var es := EventsOf(ms[0]);
      assert Apart(es) && es[|es| - 1] == MessageEnd;
      hide Apart, EventsOf, TailEvents;
      ApartAppend(es, Events(ms[1..]) + TailEvents(t, k));
      Regroup(es, Events(ms[1..]), TailEvents(t, k));
    }
  }

  /** However a text is cut into chunks: the parser reports its messages and as much of the tail as is certain. */
  lemma ChunksParsed(tags: Tags, chunks: seq<string>, ms: seq<Message>, t: Tail, k: int)
    requires tags.Valid() && AllClean(tags, ms) && CleanTail(tags, t) && chunks != []
    requires Joined(chunks) == Transcript(tags, ms) + TailText(tags, t)
    requires t.InContent? ==> GivenOut(t.content, tags.end, k)
    ensures var r := FeedAll(tags, LookingForMessageStart, "", chunks);
            r.state == TailState(t) && r.acc == TailKept(t, k) && Merged(r.events) == Events(ms) + TailEvents(t, k)
  {
    hide FeedAll, Drain, CleanTail;
    ChunksDoNotMatter(tags, LookingForMessageStart, "", chunks);
    assert "" + Joined(chunks) == Joined(chunks);
    TranscriptParsed(tags, ms, t, k);
    EventsApart(ms, t, k);
    ApartIsMerged(Events(ms) + TailEvents(t, k));
  }

  /** And every text can be read so. */
  lemma EveryChunking(tags: Tags, chunks: seq<string>) returns (ms: seq<Message>, t: Tail, k: int)
    requires tags.Valid() && chunks != []
    ensures AllClean(tags, ms) && CleanTail(tags, t) && (t.InContent? ==> GivenOut(t.content, tags.end, k))
    ensures Joined(chunks) == Transcript(tags, ms) + TailText(tags, t)
    ensures var r := FeedAll(tags, LookingForMessageStart, "", chunks);
            r.state == TailState(t) && r.acc == TailKept(t, k) && Merged(r.events) == Events(ms) + TailEvents(t, k)
  {
    ms, t := EveryText(tags, Joined(chunks));
    k := 0;
    if t.InContent? {
      k := |t.content| - Overlap(t.content, tags.end);
      GivenOutExact(t.content, tags.end, k);
    }
    hide FeedAll, CleanTail, GivenOut;
    ChunksParsed(tags, chunks, ms, t, k);
  }

  /** Feeding the parser. */
  method FeedChunks(p: HarmonyParser, chunks: seq<string>) returns (events: seq<Event>)
    requires p.tags.Valid()
    modifies p`state, p`acc
    ensures Outcome(p.state, p.acc, events) == FeedAll(p.tags, old(p.state), old(p.acc), chunks)
  {
    events := [];
    for i := 0 to |chunks|
      invariant Outcome(p.state, p.acc, events) == FeedAll(p.tags, old(p.state), old(p.acc), chunks[..i])
    {
      assert chunks[..i + 1][..i] == chunks[..i];
      var more := p.AddContent(chunks[i]);
      events := events + more;
    }
    assert chunks[..|chunks|] == chunks;
  }

  // ---------- What the handler gives out ----------

  /** Where the content behind a header goes. */
  function PlaceOf(header: Header): MessageState {
    if header.channel == "analysis" then (if header.recipient == "" then Thinking else ToolCalling)
    else if header.channel == "commentary" && header.recipient != "" then ToolCalling
    else Normal
  }

  /** The contents of the messages whose header sends them there. */
  function ContentsTo(parse: string -> Header, ms: seq<Message>, place: MessageState): string {
    if ms == [] then ""
    else (if PlaceOf(parse(ms[0].header)) == place then ms[0].content else "") + ContentsTo(parse, ms[1..], place)
  }

  /** The recipient of the last message that is a tool call. */
  function LastTool(parse: string -> Header, ms: seq<Message>, name: string): string {
    if ms == [] then name
    else
      var header := parse(ms[0].header);
      LastTool(parse, ms[1..], if PlaceOf(header) == ToolCalling then header.recipient else name)
  }

  lemma {:induction false} HandleAppend(parse: string -> Header, h: Handled, a: seq<Event>, b: seq<Event>)
    ensures HandleAll(parse, h, a + b) == HandleAll(parse, HandleAll(parse, h, a), b)
  {
    if b == [] {
      assert a + b == a;
    } else {
      var n := |b| - 1;
      assert (a + b)[..|a + b| - 1] == a + b[..n];
      HandleAppend(parse, h, a, b[..n]);
    }
  }

  /** What a message, or the part of it given out so far, adds. */
  function Added(h: Handled, header: Header, content: string): Handled {
    var place := PlaceOf(header);
    Handled(place,
            if place == Normal then h.content + content else h.content,
            if place == Thinking then h.thinking + content else h.thinking,
            if place == ToolCalling then h.tool + content else h.tool,
            if place == ToolCalling then header.recipient else h.toolName)
  }

  lemma HandleOne(parse: string -> Header, h: Handled, e: Event)
    ensures HandleAll(parse, h, [e]) == Handle(parse, h, e)
  {
    assert [e][..0] == [];
    assert HandleAll(parse, h, []) == h;
  }

  /** A header and the content after it. */
  lemma HeaderHandled(parse: string -> Header, h: Handled, header: string, content: string)
    requires h.state == Normal
    ensures HandleAll(parse, h, [MessageStart, HeaderComplete(header)] + if content == "" then []
                      else [Content(content)])
            == Added(h, parse(header), content)
  {
    hide HandleAll;
    var es := if content == "" then [] else [Content(content)];
    HandleOne(parse, h, MessageStart);
    HandleAppend(parse, h, [MessageStart], [HeaderComplete(header)]);
    assert [MessageStart, HeaderComplete(header)] == [MessageStart] + [HeaderComplete(header)];
    HandleOne(parse, h, HeaderComplete(header));
    var g := Handle(parse, h, HeaderComplete(header));
    HandleAppend(parse, h, [MessageStart, HeaderComplete(header)], es);
    if content != "" {
      HandleOne(parse, g, Content(content));
    } else {
      HandleNone(parse, g);
      assert h.content + "" == h.content && h.thinking + "" == h.thinking && h.tool + "" == h.tool;
    }
  }

  lemma HandleNone(parse: string -> Header, h: Handled)
    ensures HandleAll(parse, h, []) == h
  {
  }

  lemma MessageHandled(parse: string -> Header, h: Handled, m: Message)
    requires h.state == Normal
    ensures HandleAll(parse, h, EventsOf(m)) == Added(h, parse(m.header), m.content).(state := Normal)
  {
    hide HandleAll, Added;
    HeaderHandled(parse, h, m.header, m.content);
    var es := [MessageStart, HeaderComplete(m.header)] + if m.content == "" then [] else [Content(m.content)];
    HandleAppend(parse, h, es, [MessageEnd]);
    HandleOne(parse, HandleAll(parse, h, es), MessageEnd);
  }

  lemma {:induction false} MessagesHandled(parse: string -> Header, h: Handled, ms: seq<Message>)
    requires h.state == Normal
    ensures HandleAll(parse, h, Events(ms))
            == Handled(Normal,
                       h.content + ContentsTo(parse, ms, Normal),
                       h.thinking + ContentsTo(parse, ms, Thinking),
                       h.tool + ContentsTo(parse, ms, ToolCalling),
                       LastTool(parse, ms, h.toolName))
    decreases |ms|
  {
    hide HandleAll, EventsOf;
    if ms == [] {
      HandleNone(parse, h);
      assert h.content + "" == h.content && h.thinking + "" == h.thinking && h.tool + "" == h.tool;
    } else {
      var m, rest := ms[0], ms[1..];
      var g := Added(h, parse(m.header), m.content).(state := Normal);
      MessageHandled(parse, h, m);
      MessagesHandled(parse, g, rest);
      HandleAppend(parse, h, EventsOf(m), Events(rest));
      AddedThen(parse, h, m, rest, Normal, h.content, g.content);
      AddedThen(parse, h, m, rest, Thinking, h.thinking, g.thinking);
      AddedThen(parse, h, m, rest, ToolCalling, h.tool, g.tool);
    }
  }

  lemma AddedThen(parse: string -> Header, h: Handled, m: Message, rest: seq<Message>, place: MessageState, was: string,
                  now: string)
    requires now == if PlaceOf(parse(m.header)) == place then was + m.content else was
    ensures now + ContentsTo(parse, rest, place) == was + ContentsTo(parse, [m] + rest, place)
  {
    assert ([m] + rest)[1..] == rest;
    Associative(was, m.content, ContentsTo(parse, rest, place));
    assert "" + ContentsTo(parse, rest, place) == ContentsTo(parse, rest, place);
  }

  /** What has been given out of the beginning of a message. */
  function WithTail(parse: string -> Header, h: Handled, t: Tail, k: int): Handled
    requires t.InContent? ==> 0 <= k <= |t.content|
  {
    if t.InContent? then Added(h, parse(t.header), t.content[..k]) else h
  }

  lemma TailHandled(parse: string -> Header, h: Handled, t: Tail, k: int)
    requires h.state == Normal && (t.InContent? ==> 0 <= k <= |t.content|)
    ensures HandleAll(parse, h, TailEvents(t, k)) == WithTail(parse, h, t, k)
  {
    hide HandleAll, Added;
    match t
    case Outside(_) =>
      HandleNone(parse, h);
    case InHeader(_, _) =>
      HandleOne(parse, h, MessageStart);
    case InContent(_, header, content) =>
      HeaderHandled(parse, h, header, content[..k]);
  }

  /** However a text is cut into chunks: the answer, the thinking and the tool call are the contents of the messages
      whose
      headers send them there, in order, and what is certain of the last one. */
  lemma ConversationHandled(parse: string -> Header, tags: Tags, chunks: seq<string>, ms: seq<Message>, t: Tail, k: int)
    requires tags.Valid() && AllClean(tags, ms) && CleanTail(tags, t) && chunks != []
    requires Joined(chunks) == Transcript(tags, ms) + TailText(tags, t)
    requires t.InContent? ==> GivenOut(t.content, tags.end, k)
    ensures var all := Handled(Normal, ContentsTo(parse, ms, Normal), ContentsTo(parse, ms, Thinking),
                               ContentsTo(parse, ms, ToolCalling), LastTool(parse, ms, ""));
            HandleAll(parse, Handled(Normal, "", "", "", ""), FeedAll(tags, LookingForMessageStart, "", chunks).events)
            == WithTail(parse, all, t, k)
  {
    hide HandleAll, FeedAll, CleanTail, Added, ContentsTo, LastTool, Events, Merged;
    var h := Handled(Normal, "", "", "", "");
    var es := FeedAll(tags, LookingForMessageStart, "", chunks).events;
    ChunksParsed(tags, chunks, ms, t, k);
    HandleMerged(parse, h, es);
    HandleAppend(parse, h, Events(ms), TailEvents(t, k));
    MessagesHandled(parse, h, ms);
    TailHandled(parse, HandleAll(parse, h, Events(ms)), t, k);
    NothingBefore(ContentsTo(parse, ms, Normal), ContentsTo(parse, ms, Thinking), ContentsTo(parse, ms, ToolCalling));
  }

  lemma NothingBefore(a: string, b: string, c: string)
    ensures "" + a == a && "" + b == b && "" + c == c
  {
  }
}
