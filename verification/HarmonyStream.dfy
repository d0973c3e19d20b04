/** The Harmony parser and message handler as objects fed chunk by chunk (harmony/harmonyparser.go). */
module HarmonyStream {
  import opened Strings
  import opened Harmony

  class HarmonyParser {
    var state: State
    const tags: Tags
    var acc: string

    constructor (t: Tags)
      ensures state == LookingForMessageStart && tags == t && acc == ""
    {
      state, tags, acc := LookingForMessageStart, t, "";
    }

    /** One step; more is true when another tag may follow in what is left. */
    method Eat() returns (events: seq<Event>, more: bool)
      requires tags.Valid()
      modifies this`state, this`acc
      ensures more <==> Contains(old(acc), tags.Closing(old(state)))
      ensures more ==>
                var i := Index(old(acc), tags.Closing(old(state)));
                && (state, events) == Close(old(state), old(acc)[..i])
                && acc == old(acc)[i + |tags.Closing(old(state))|..]
      ensures !more ==> Outcome(state, acc, events) == Hold(tags, old(state), old(acc))
    {
      hide Index, Overlap;
      events, more := [], false;
      var i := Index(acc, tags.Closing(state));
      match state
      case LookingForMessageStart =>
        if i >= 0 {
          acc, state := acc[i + |tags.start|..], ParsingHeader;
          events, more := [MessageStart], true;
        }
      case ParsingHeader =>
        if i >= 0 {
          var header := acc[..i];
          acc, state := acc[i + |tags.header|..], ParsingContent;
          events, more := [HeaderComplete(header)], true;
        }
      case ParsingContent =>
        if i >= 0 {
          var content := acc[..i];
          acc, state := acc[i + |tags.end|..], LookingForMessageStart;
          if content != "" {
            events := events + [Content(content)];
          }
          assert events == Text(content);
          events, more := events + [MessageEnd], true;
        } else {
          var n := OverlapOf(acc, tags.end);
          var content := acc[..|acc| - n];
          if n > 0 {
            acc := acc[|acc| - n..];
          } else if content != "" {
            acc := "";
          }
          if content != "" {
            events := [Content(content)];
          }
        }
    }

    /** Terminates, because every tag found is removed from what is accumulated. */
    method AddContent(content: string) returns (events: seq<Event>)
      requires tags.Valid()
      modifies this`state, this`acc
      ensures Outcome(state, acc, events) == Drain(tags, old(state), old(acc) + content)
    {
      hide Drain;
      acc := acc + content;
      ghost var all := Drain(tags, state, acc);
      events := [];
      var more := true;
      while more
        invariant all == if more then After(events, Drain(tags, state, acc)) else Outcome(state, acc, events)
        decreases more, |acc|
      {
        ghost var s, a := state, acc;
        var newEvents;
        newEvents, more := Eat();
        if more {
          DrainStep(tags, s, a, events, Index(a, tags.Closing(s)));
        } else {
          DrainStop(tags, s, a, events);
        }
        events := events + newEvents;
      }
    }
  }

  /** An outcome whose events come after earlier ones. */
  function After(es: seq<Event>, r: Outcome): Outcome { Outcome(r.state, r.acc, es + r.events) }

  lemma DrainStep(tags: Tags, s: State, a: string, es: seq<Event>, i: int)
    requires tags.Valid() && i == Index(a, tags.Closing(s)) >= 0
    ensures var c := Close(s, a[..i]);
            After(es, Drain(tags, s, a)) == After(es + c.1, Drain(tags, c.0, a[i + |tags.Closing(s)|..]))
  {
    DrainFound(tags, s, a, i);
    var c := Close(s, a[..i]);
    Regroup(es, c.1, Drain(tags, c.0, a[i + |tags.Closing(s)|..]).events);
  }

  lemma DrainStop(tags: Tags, s: State, a: string, es: seq<Event>)
    requires tags.Valid() && Index(a, tags.Closing(s)) < 0
    ensures After(es, Drain(tags, s, a)) == After(es, Hold(tags, s, a))
  {
  }

  // ---------- Many chunks ----------

  function Joined(chunks: seq<string>): string {
    if chunks == [] then "" else Joined(chunks[..|chunks| - 1]) + chunks[|chunks| - 1]
  }

  /** What a parser in the given state reports when the chunks are fed one after another. */
  function FeedAll(tags: Tags, state: State, acc: string, chunks: seq<string>): Outcome
    requires tags.Valid()
  {
    if chunks == [] then Outcome(state, acc, [])
    else
      var p := FeedAll(tags, state, acc, chunks[..|chunks| - 1]);
      var q := Drain(tags, p.state, p.acc + chunks[|chunks| - 1]);
      Outcome(q.state, q.acc, p.events + q.events)
  }

  /** However a text is cut into chunks, the parser ends in the same state and reports the same events with
      adjacent content merged. */
  lemma {:induction false} ChunksDoNotMatter(tags: Tags, state: State, acc: string, chunks: seq<string>)
    requires tags.Valid() && chunks != []
    ensures Same(FeedAll(tags, state, acc, chunks), Drain(tags, state, acc + Joined(chunks)))
    decreases |chunks|
  {
    hide Drain;
    var n := |chunks| - 1;
    if n == 0 {
      FirstChunk(tags, state, acc, chunks);
    } else {
      var front, last := chunks[..n], chunks[n];
      ChunksDoNotMatter(tags, state, acc, front);
      ChunkStep(tags, state, acc + Joined(front), last, FeedAll(tags, state, acc, front));
      assert (acc + Joined(front)) + last == acc + Joined(chunks);
    }
  }

  lemma ChunkStep(tags: Tags, state: State, x: string, last: string, p: Outcome)
    requires tags.Valid() && Same(p, Drain(tags, state, x))
    ensures var q := Drain(tags, p.state, p.acc + last);
            Same(Outcome(q.state, q.acc, p.events + q.events), Drain(tags, state, x + last))
  {
    DrainInTwo(tags, state, x, last);
    SameThrough(p, Drain(tags, state, x), Drain(tags, p.state, p.acc + last), Drain(tags, state, x + last));
  }

  lemma FirstChunk(tags: Tags, state: State, acc: string, chunks: seq<string>)
    requires tags.Valid() && |chunks| == 1
    ensures FeedAll(tags, state, acc, chunks) == Drain(tags, state, acc + Joined(chunks))
  {
    assert chunks[..0] == [];
    assert FeedAll(tags, state, acc, []) == Outcome(state, acc, []) && Joined([]) == "";
    assert Joined(chunks) == "" + chunks[0] == chunks[0];
    var q := Drain(tags, state, acc + chunks[0]);
    assert [] + q.events == q.events;
  }

  /** Replacing the first of two outcomes by one that looks the same. */
  lemma SameThrough(p: Outcome, w: Outcome, q: Outcome, all: Outcome)
    requires Same(p, w) && Same(Outcome(q.state, q.acc, w.events + q.events), all)
    ensures Same(Outcome(q.state, q.acc, p.events + q.events), all)
  {
    SameSuffix(p.events, w.events, q.events);
  }

  /** Two ways of cutting the same text give the same merged events and the same state. */
  lemma SameTextSameEvents(tags: Tags, state: State, acc: string, a: seq<string>, b: seq<string>)
    requires tags.Valid() && a != [] && b != [] && Joined(a) == Joined(b)
    ensures var x, y := FeedAll(tags, state, acc, a), FeedAll(tags, state, acc, b);
            x.state == y.state && x.acc == y.acc && Merged(x.events) == Merged(y.events)
  {
    ChunksDoNotMatter(tags, state, acc, a);
    ChunksDoNotMatter(tags, state, acc, b);
  }

  // ---------- The message handler ----------

  datatype MessageState = Normal | Thinking | ToolCalling

  /** What the handler reads off a raw header. */
  datatype Header = Header(role: string, channel: string, recipient: string)

  /** The handler's state and everything it has given out so far. */
  datatype Handled = Handled(state: MessageState, content: string, thinking: string, tool: string, toolName: string)

  function Handle(parse: string -> Header, h: Handled, e: Event): Handled {
    match e
    case MessageStart => h
    case MessageEnd => h.(state := Normal)
    case HeaderComplete(raw) =>
      var header := parse(raw);
      if header.channel == "analysis" then
        if header.recipient != "" then h.(state := ToolCalling, toolName := header.recipient) else h.(state := Thinking)
      else if header.channel == "commentary" then
        if header.recipient != "" then h.(state := ToolCalling, toolName := header.recipient) else h.(state := Normal)
      else if header.channel == "final" then h.(state := Normal)
      else h
    case Content(text) =>
      match h.state
      case Normal => h.(content := h.content + text)
      case Thinking => h.(thinking := h.thinking + text)
      case ToolCalling => h.(tool := h.tool + text)
  }

  function HandleAll(parse: string -> Header, h: Handled, es: seq<Event>): Handled {
    if es == [] then h else Handle(parse, HandleAll(parse, h, es[..|es| - 1]), es[|es| - 1])
  }

  /** The event loop of the handler's AddContent. */
  method HandleEvents(parse: string -> Header, h0: Handled, es: seq<Event>) returns (h: Handled)
    ensures h == HandleAll(parse, h0, es)
  {
    h := h0;
    for i := 0 to |es|
      invariant h == HandleAll(parse, h0, es[..i])
    {
      assert es[..i + 1][..i] == es[..i];
      h := Handle(parse, h, es[i]);
    }
    assert es[..|es|] == es;
  }

  /** Where content goes after these events: as the last header or end of a message says. */
  function StateAfter(parse: string -> Header, state: MessageState, es: seq<Event>): MessageState {
    if es == [] then state
    else
      var before := StateAfter(parse, state, es[..|es| - 1]);
      match es[|es| - 1]
      case MessageStart | Content(_) => before
      case MessageEnd => Normal
      case HeaderComplete(raw) =>
        var header := parse(raw);
        if header.channel == "final" then Normal
        else if header.channel != "analysis" && header.channel != "commentary" then before
        else if header.recipient != "" then ToolCalling
        else if header.channel == "analysis" then Thinking
        else Normal
  }

  /** The text of the content events that come while content goes to the given place. */
  function Routed(parse: string -> Header, state: MessageState, es: seq<Event>, place: MessageState): string {
    if es == [] then ""
    else
      Routed(parse, state, es[..|es| - 1], place) + RoutedLast(parse, state, es, place)
  }

  function RoutedLast(parse: string -> Header, state: MessageState, es: seq<Event>, place: MessageState): string
    requires es != []
  {
    var n := |es| - 1;
    if es[n].Content? && StateAfter(parse, state, es[..n]) == place then es[n].text else ""
  }

  /** One more event. */
  lemma HandledLast(parse: string -> Header, h: Handled, es: seq<Event>)
    requires es != [] && HandleAll(parse, h, es[..|es| - 1]).state == StateAfter(parse, h.state, es[..|es| - 1])
    ensures var f, r := HandleAll(parse, h, es[..|es| - 1]), HandleAll(parse, h, es);
            && r.state == StateAfter(parse, h.state, es)
            && r.content == f.content + RoutedLast(parse, h.state, es, Normal)
            && r.thinking == f.thinking + RoutedLast(parse, h.state, es, Thinking)
            && r.tool == f.tool + RoutedLast(parse, h.state, es, ToolCalling)
    ensures forall place :: Routed(parse, h.state, es, place)
                            == Routed(parse, h.state, es[..|es| - 1], place) + RoutedLast(parse, h.state, es, place)
  {
  }

  /** The answer, the thinking and the tool call are the content that the header before it sends there, in order. */
  lemma {:induction false} HandledIsRouted(parse: string -> Header, h: Handled, es: seq<Event>)
    ensures var r := HandleAll(parse, h, es);
            && r.state == StateAfter(parse, h.state, es)
            && r.content == h.content + Routed(parse, h.state, es, Normal)
            && r.thinking == h.thinking + Routed(parse, h.state, es, Thinking)
            && r.tool == h.tool + Routed(parse, h.state, es, ToolCalling)
  {
    if es != [] {
      var front := es[..|es| - 1];
      HandledIsRouted(parse, h, front);
      hide HandleAll, Routed, StateAfter;
      Associative(h.content, Routed(parse, h.state, front, Normal), RoutedLast(parse, h.state, es, Normal));
      Associative(h.thinking, Routed(parse, h.state, front, Thinking), RoutedLast(parse, h.state, es, Thinking));
      Associative(h.tool, Routed(parse, h.state, front, ToolCalling), RoutedLast(parse, h.state, es, ToolCalling));
      HandledLast(parse, h, es);
    }
  }

  lemma HandlePush(parse: string -> Header, h: Handled, es: seq<Event>, e: Event)
    ensures HandleAll(parse, h, Push(es, e)) == Handle(parse, HandleAll(parse, h, es), e)
  {
    var n := |es| - 1;
    if e.Content? && es != [] && es[n].Content? {
      var joined := Content(es[n].text + e.text);
      assert (es[..n] + [joined])[..n] == es[..n];
      var g := HandleAll(parse, h, es[..n]);
      HandleTwice(parse, g, es[n].text, e.text);
    } else {
      assert (es + [e])[..|es|] == es;
    }
  }

  lemma HandleTwice(parse: string -> Header, h: Handled, x: string, y: string)
    ensures Handle(parse, Handle(parse, h, Content(x)), Content(y)) == Handle(parse, h, Content(x + y))
  {
    assert (h.content + x) + y == h.content + (x + y);
    assert (h.thinking + x) + y == h.thinking + (x + y);
    assert (h.tool + x) + y == h.tool + (x + y);
  }

  /** Merging adjacent content changes nothing for the handler. */
  lemma {:induction false} HandleMerged(parse: string -> Header, h: Handled, es: seq<Event>)
    ensures HandleAll(parse, h, Merged(es)) == HandleAll(parse, h, es)
  {
    if es != [] {
      var n := |es| - 1;
      HandleMerged(parse, h, es[..n]);
      HandlePush(parse, h, Merged(es[..n]), es[n]);
    }
  }

  /** Total content, thinking, tool text, tool name and handler state depend only on the whole text. */
  lemma HandlerChunksDoNotMatter(parse: string -> Header, tags: Tags, state: State, acc: string, h: Handled,
                                 a: seq<string>, b: seq<string>)
    requires tags.Valid() && a != [] && b != [] && Joined(a) == Joined(b)
    ensures HandleAll(parse, h, FeedAll(tags, state, acc, a).events)
            == HandleAll(parse, h, FeedAll(tags, state, acc, b).events)
  {
    SameTextSameEvents(tags, state, acc, a, b);
    HandleMerged(parse, h, FeedAll(tags, state, acc, a).events);
    HandleMerged(parse, h, FeedAll(tags, state, acc, b).events);
  }
}
