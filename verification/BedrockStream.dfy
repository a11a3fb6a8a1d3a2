/** The streaming side of the Bedrock executor
    (crates/bitrouter-bedrock/src/lib.rs): events to canonical stream parts, and
    how what they add up to compares with decoding the finished message at once. */
module BedrockStream {
  import opened Wrappers
  import opened Canonical
  import opened BedrockContent
  import opened Strings
  import Json

  datatype BlockStart = ToolUseStart(toolUseId: string, name: string) | OtherStart

  datatype BlockDelta = TextFragment(text: string) | ToolInput(input: string) | ReasoningFragment(text: string)
                        | OtherDelta

  datatype StopReason =
    | EndTurn | StopSequence | MaxTokens | ToolUse | GuardrailIntervened | ContentFiltered
    | OtherStop(name: string)

  datatype TokenUsage = TokenUsage(input: int, output: int, cacheRead: Option<int>, cacheWrite: Option<int>)

  datatype Event =
    | MessageStart
    | ContentBlockStart(index: int, start: Option<BlockStart>)
    | ContentBlockDelta(index: int, delta: Option<BlockDelta>)
    | ContentBlockStop(index: int)
    | MessageStop(reason: StopReason)
    | MetadataEvent(usage: Option<TokenUsage>)
    | UnknownEvent

  type ToolIds = map<int, string>

  function StopToFinish(reason: StopReason): Option<FinishReason> {
    match reason
    case EndTurn => Some(Stop)
    case StopSequence => Some(Stop)
    case MaxTokens => Some(Length)
    case ToolUse => Some(ToolCalls)
    case GuardrailIntervened => Some(ContentFilter)
    case ContentFiltered => Some(ContentFilter)
    case OtherStop(name) => Some(Other(name))
  }

  function Positive(n: int): nat {
    if n < 0 then 0 else n
  }

  function UsageToCanonical(u: TokenUsage): Usage {
    Usage(Positive(u.input), Positive(u.output), 0,
          if u.cacheRead.Some? then Positive(u.cacheRead.value) else 0,
          if u.cacheWrite.Some? then Positive(u.cacheWrite.value) else 0)
  }

  /** The parts an event turns into, and the tool ids remembered afterwards. */
  function DecodeStep(ids: ToolIds, event: Event): (seq<StreamPart>, ToolIds) {
    match event
    case ContentBlockStart(index, Some(ToolUseStart(id, name))) =>
      ([ToolCallDelta(id, Some(name), "")], ids[index := id])
    case ContentBlockDelta(_, Some(TextFragment(text))) => ([TextDelta(text)], ids)
    case ContentBlockDelta(index, Some(ToolInput(input))) =>
      ([ToolCallDelta(if index in ids then ids[index] else "", None, input)], ids)
    case ContentBlockDelta(_, Some(ReasoningFragment(text))) => ([ReasoningDelta(text)], ids)
    case MessageStop(reason) => ([Finish(match StopToFinish(reason) { case Some(r) => r case None => Stop })], ids)
    case MetadataEvent(Some(usage)) => ([UsagePart(UsageToCanonical(usage))], ids)
    case _ => ([], ids)
  }

  function IdsAfter(events: seq<Event>): ToolIds {
    if events == [] then map[]
    else DecodeStep(IdsAfter(events[..|events| - 1]), events[|events| - 1]).1
  }

  /** All parts of a stream. */
  function Decode(events: seq<Event>): seq<StreamPart> {
    if events == [] then []
    else
      var init := events[..|events| - 1];
      Decode(init) + DecodeStep(IdsAfter(init), events[|events| - 1]).0
  }

  /** What the event receiver yields: an event, or an error that ends the stream. */
  datatype Received = Event(event: Event) | Failed(error: string)

  /** The first error received, if any. */
  function FailureIn(received: seq<Received>): Option<string> {
    if received == [] then None
    else
      var earlier, last := FailureIn(received[..|received| - 1]), received[|received| - 1];
      if earlier.Some? then earlier else if last.Failed? then Some(last.error) else None
  }

  /** The events received before the first error. */
  function EventsBeforeFailure(received: seq<Received>): seq<Event> {
    if received == [] then []
    else
      var init, last := received[..|received| - 1], received[|received| - 1];
      if FailureIn(init).Some? || last.Failed? then EventsBeforeFailure(init)
      else EventsBeforeFailure(init) + [last.event]
  }

  lemma {:induction false} FailureStays(received: seq<Received>, k: nat)
    requires k <= |received| && FailureIn(received[..k]).Some?
    ensures FailureIn(received) == FailureIn(received[..k])
    ensures EventsBeforeFailure(received) == EventsBeforeFailure(received[..k])
  {
    if k == |received| {
      assert received[..k] == received;
    } else {
      var init := received[..|received| - 1];
      assert init[..k] == received[..k];
      FailureStays(init, k);
    }
  }

  /** Remembers the tool id of each open block, to repeat it on every fragment. */
  class StreamDecoder {
    var toolIdByIndex: ToolIds

    constructor ()
      ensures toolIdByIndex == map[]
    {
      toolIdByIndex := map[];
    }

    method EventToParts(event: Event) returns (parts: seq<StreamPart>)
      modifies this
      ensures (parts, toolIdByIndex) == DecodeStep(old(toolIdByIndex), event)
    {
      match event {
        case ContentBlockStart(index, Some(ToolUseStart(id, name))) =>
          toolIdByIndex := toolIdByIndex[index := id];
          return [ToolCallDelta(id, Some(name), "")];
        case ContentBlockDelta(_, Some(TextFragment(text))) =>
          return [TextDelta(text)];
        case ContentBlockDelta(index, Some(ToolInput(input))) =>
          var id := if index in toolIdByIndex then toolIdByIndex[index] else "";
          return [ToolCallDelta(id, None, input)];
        case ContentBlockDelta(_, Some(ReasoningFragment(text))) =>
          return [ReasoningDelta(text)];
        case MessageStop(reason) =>
          var finish := StopToFinish(reason);
          return [Finish(if finish.Some? then finish.value else Stop)];
        case MetadataEvent(Some(usage)) =>
          return [UsagePart(UsageToCanonical(usage))];
        case _ =>
          return [];
      }
    }

    /** The stream loop: parts of every event up to the end or the first error. */
    method DecodeStream(received: seq<Received>) returns (parts: seq<StreamPart>, error: Option<string>)
      requires toolIdByIndex == map[]
      modifies this
      ensures parts == Decode(EventsBeforeFailure(received))
      ensures error == FailureIn(received)
    {
      parts := [];
      for i := 0 to |received|
        invariant FailureIn(received[..i]).None?
        invariant toolIdByIndex == IdsAfter(EventsBeforeFailure(received[..i]))
        invariant parts == Decode(EventsBeforeFailure(received[..i]))
      {
        ghost var events := EventsBeforeFailure(received[..i]);
        assert received[..i + 1][..i] == received[..i];
        match received[i] {
          case Failed(e) =>
            FailureStays(received, i + 1);
            return parts, Some(e);
          case Event(event) =>
            assert (events + [event])[..|events|] == events;
            var more := EventToParts(event);
            parts := parts + more;
        }
      }
      assert received[..|received|] == received;
      return parts, None;
    }
  }

  // ------------------------------------------------------ the finished message

  /** A content block as put together from its events. */
  datatype Block = TextSoFar(text: string) | ToolSoFar(id: string, name: string, input: string)
                   | ReasoningSoFar(text: string)

  type Blocks = map<int, Block>

  function Assemble(blocks: Blocks, event: Event): Blocks {
    match event
    case ContentBlockStart(i, Some(ToolUseStart(id, name))) => blocks[i := ToolSoFar(id, name, "")]
    case ContentBlockDelta(i, Some(TextFragment(text))) =>
      blocks[i := TextSoFar((if i in blocks && blocks[i].TextSoFar? then blocks[i].text else "") + text)]
    case ContentBlockDelta(i, Some(ToolInput(input))) =>
      if i in blocks && blocks[i].ToolSoFar? then blocks[i := blocks[i].(input := blocks[i].input + input)] else blocks
    case ContentBlockDelta(i, Some(ReasoningFragment(text))) =>
      blocks[i := ReasoningSoFar((if i in blocks && blocks[i].ReasoningSoFar? then blocks[i].text else "") + text)]
    case _ => blocks
  }

  function Assembled(events: seq<Event>): Blocks {
    if events == [] then map[] else Assemble(Assembled(events[..|events| - 1]), events[|events| - 1])
  }

  /** A block index keeps one kind, tool blocks open before their input arrives,
      and no two tool blocks share an id. Blocks may interleave in any way. */
  predicate Allowed(blocks: Blocks, event: Event) {
    match event
    case ContentBlockStart(i, Some(ToolUseStart(id, _))) =>
      i !in blocks && forall j :: j in blocks ==> blocks[j].ToolSoFar? ==> blocks[j].id != id
    case ContentBlockDelta(i, Some(TextFragment(_))) => i in blocks ==> blocks[i].TextSoFar?
    case ContentBlockDelta(i, Some(ToolInput(_))) => i in blocks && blocks[i].ToolSoFar?
    case ContentBlockDelta(i, Some(ReasoningFragment(_))) => i in blocks ==> blocks[i].ReasoningSoFar?
    case _ => true
  }

  predicate WellFormed(events: seq<Event>) {
    events != [] ==>
      var init := events[..|events| - 1];
      WellFormed(init) && Allowed(Assembled(init), events[|events| - 1])
  }

  /** The finished block, as the one-shot API would deliver it. */
  function Finished(codec: Codec, b: Block): ContentBlock {
    match b
    case TextSoFar(text) => TextBlock(text)
    case ToolSoFar(id, name, input) =>
      ToolUseBlock(id, name, match codec.parse(input) { case Some(v) => JsonToDocument(v) case None => Document.Null })
    case ReasoningSoFar(_) => OtherBlock
  }

  /** The finished blocks with indices from `lo` up to `hi`, in index order. */
  function FinishedBlocks(codec: Codec, blocks: Blocks, lo: int, hi: int): seq<ContentBlock>
    decreases hi - lo
  {
    if lo >= hi then []
    else
      var k := hi - 1;
      FinishedBlocks(codec, blocks, lo, k) + (if k in blocks then [Finished(codec, blocks[k])] else [])
  }

  /** Decoding the finished message at once. */
  function OneShot(codec: Codec, blocks: Blocks, lo: int, hi: int): seq<Content> {
    ParseAll(codec, FinishedBlocks(codec, blocks, lo, hi))
  }

  ghost predicate Within(blocks: Blocks, lo: int, hi: int) {
    forall i :: i in blocks ==> lo <= i < hi
  }

  // ------------------------------------------------------- tools, by their id

  datatype Call = Call(name: Option<string>, arguments: string)

  function CollectOne(calls: map<string, Call>, part: StreamPart): map<string, Call> {
    match part
    case ToolCallDelta(id, name, arguments) =>
      var earlier := if id in calls then calls[id] else Call(None, "");
      calls[id := Call(if name.Some? then name else earlier.name, earlier.arguments + arguments)]
    case _ => calls
  }

  /** A client putting tool calls back together from the deltas, by id. */
  function Collect(parts: seq<StreamPart>): map<string, Call> {
    if parts == [] then map[] else CollectOne(Collect(parts[..|parts| - 1]), parts[|parts| - 1])
  }

  function CollectMore(calls: map<string, Call>, more: seq<StreamPart>): map<string, Call> {
    if more == [] then calls else CollectOne(calls, more[0])
  }

  /** The collected calls are the tool blocks, no more and no fewer. */
  ghost predicate CallsMatch(blocks: Blocks, ids: ToolIds, calls: map<string, Call>) {
    && (forall i :: i in blocks && blocks[i].ToolSoFar? ==>
          && i in ids && ids[i] == blocks[i].id
          && blocks[i].id in calls && calls[blocks[i].id] == Call(Some(blocks[i].name), blocks[i].input))
    && (forall id :: id in calls ==> exists i :: ToolAt(blocks, i, id))
    && (forall i, j :: && i in blocks && j in blocks && blocks[i].ToolSoFar? && blocks[j].ToolSoFar?
                       && blocks[i].id == blocks[j].id
                       ==> i == j)
  }

  predicate ToolAt(blocks: Blocks, i: int, id: string) {
    i in blocks && blocks[i].ToolSoFar? && blocks[i].id == id
  }

  lemma {:induction false} CollectStep(parts: seq<StreamPart>, more: seq<StreamPart>)
    requires |more| <= 1
    ensures Collect(parts + more) == CollectMore(Collect(parts), more)
  {
    if more == [] {
      assert parts + more == parts;
    } else {
      assert (parts + more)[..|parts|] == parts;
    }
  }

  lemma {:induction false} ToolStartStep(blocks: Blocks, ids: ToolIds, calls: map<string, Call>, k: int, id: string,
                                         name: string)
    requires CallsMatch(blocks, ids, calls)
    requires k !in blocks && forall j :: j in blocks ==> blocks[j].ToolSoFar? ==> blocks[j].id != id
    ensures id !in calls
    ensures CallsMatch(blocks[k := ToolSoFar(id, name, "")], ids[k := id], calls[id := Call(Some(name), "")])
  {
    assert forall i :: !ToolAt(blocks, i, id);
    var after := blocks[k := ToolSoFar(id, name, "")];
    assert ToolAt(after, k, id);
    forall other | other in calls ensures exists i :: ToolAt(after, i, other) {
      var i :| ToolAt(blocks, i, other);
      assert ToolAt(after, i, other);
    }
  }

  lemma {:induction false} ToolInputStep(blocks: Blocks, ids: ToolIds, calls: map<string, Call>, k: int, input: string)
    requires CallsMatch(blocks, ids, calls)
    requires k in blocks && blocks[k].ToolSoFar?
    ensures k in ids && ids[k] == blocks[k].id && ids[k] in calls
    ensures CallsMatch(blocks[k := blocks[k].(input := blocks[k].input + input)], ids,
                       calls[ids[k] := Call(calls[ids[k]].name, calls[ids[k]].arguments + input)])
  {
    var after := blocks[k := blocks[k].(input := blocks[k].input + input)];
    forall id | id in calls ensures exists i :: ToolAt(after, i, id) {
      var i :| ToolAt(blocks, i, id);
      assert ToolAt(after, i, id);
    }
  }

  lemma {:induction false} NoToolStep(blocks: Blocks, ids: ToolIds, calls: map<string, Call>, k: int, b: Block)
    requires CallsMatch(blocks, ids, calls)
    requires !b.ToolSoFar? && (k in blocks ==> !blocks[k].ToolSoFar?)
    ensures CallsMatch(blocks[k := b], ids, calls)
  {
    var after := blocks[k := b];
    forall id | id in calls ensures exists i :: ToolAt(after, i, id) {
      var i :| ToolAt(blocks, i, id);
      assert ToolAt(after, i, id);
    }
  }

  lemma {:induction false} CallsMatchStep(blocks: Blocks, ids: ToolIds, calls: map<string, Call>, event: Event)
    requires CallsMatch(blocks, ids, calls)
    requires Allowed(blocks, event)
    ensures var (more, next) := DecodeStep(ids, event);
            CallsMatch(Assemble(blocks, event), next, CollectMore(calls, more))
  {
    match event
    case ContentBlockStart(k, Some(ToolUseStart(id, name))) =>
      ToolStartStep(blocks, ids, calls, k, id, name);
      assert "" + "" == "";
      assert CollectMore(calls, DecodeStep(ids, event).0) == calls[id := Call(Some(name), "")];
    case ContentBlockDelta(k, Some(ToolInput(input))) =>
      ToolInputStep(blocks, ids, calls, k, input);
    case ContentBlockDelta(k, Some(TextFragment(_))) =>
      NoToolStep(blocks, ids, calls, k, Assemble(blocks, event)[k]);
    case ContentBlockDelta(k, Some(ReasoningFragment(_))) =>
      NoToolStep(blocks, ids, calls, k, Assemble(blocks, event)[k]);
    case _ =>
  }

  lemma {:induction false} CallsMatchRun(events: seq<Event>)
    requires WellFormed(events)
    ensures CallsMatch(Assembled(events), IdsAfter(events), Collect(Decode(events)))
  {
    if events != [] {
      var init, event := events[..|events| - 1], events[|events| - 1];
      CallsMatchRun(init);
      CallsMatchStep(Assembled(init), IdsAfter(init), Collect(Decode(init)), event);
      CollectStep(Decode(init), DecodeStep(IdsAfter(init), event).0);
    }
  }

  /** The one-shot contents carry exactly the tool blocks, with their JSON arguments. */
  ghost predicate CallOf(codec: Codec, b: Block, c: Content) {
    && c.ToolCall? && b.ToolSoFar?
    && c.id == b.id && c.name == b.name
    && codec.parse(b.input).Some? && codec.parse(c.arguments) == codec.parse(b.input)
  }

  ghost predicate InputsParse(codec: Codec, blocks: Blocks) {
    forall i :: i in blocks && blocks[i].ToolSoFar? ==> codec.parse(blocks[i].input).Some?
  }

  lemma {:induction false} FinishedTool(codec: Codec, b: Block)
    requires codec.Valid() && (b.ToolSoFar? ==> codec.parse(b.input).Some?)
    ensures var c := ParseOne(codec, Finished(codec, b));
            && (b.ToolSoFar? ==> c.Some? && CallOf(codec, b, c.value))
            && (c.Some? && c.value.ToolCall? ==> b.ToolSoFar?)
            && (b.TextSoFar? ==> c == Some(Text(b.text, map[])))
            && (c.Some? && c.value.Text? ==> b.TextSoFar?)
  {
    if b.ToolSoFar? {
      JsonSurvives(codec.parse(b.input).value);
    }
  }

  lemma {:induction false} OneShotStep(codec: Codec, blocks: Blocks, lo: int, hi: int)
    requires lo < hi
    ensures OneShot(codec, blocks, lo, hi) ==
            OneShot(codec, blocks, lo, hi - 1) +
            (if hi - 1 in blocks then Keep(ParseOne(codec, Finished(codec, blocks[hi - 1]))) else [])
  {
    var before := FinishedBlocks(codec, blocks, lo, hi - 1);
    if hi - 1 in blocks {
      assert (before + [Finished(codec, blocks[hi - 1])])[..|before|] == before;
    } else {
      assert before + [] == before;
    }
  }

  lemma {:induction false} OneShotTools(codec: Codec, blocks: Blocks, lo: int, hi: int)
    requires codec.Valid() && InputsParse(codec, blocks)
    ensures forall c :: c in OneShot(codec, blocks, lo, hi) && c.ToolCall? ==>
                          exists i :: i in blocks && CallOf(codec, blocks[i], c)
    ensures forall i :: i in blocks && lo <= i < hi && blocks[i].ToolSoFar? ==>
                          exists c :: c in OneShot(codec, blocks, lo, hi) && CallOf(codec, blocks[i], c)
    decreases hi - lo
  {
    if lo < hi {
      var k := hi - 1;
      OneShotStep(codec, blocks, lo, hi);
      OneShotTools(codec, blocks, lo, k);
      if k in blocks {
        FinishedTool(codec, blocks[k]);
        var c := ParseOne(codec, Finished(codec, blocks[k]));
        if blocks[k].ToolSoFar? {
          assert c.value in Keep(c);
        }
      }
      var before, all := OneShot(codec, blocks, lo, k), OneShot(codec, blocks, lo, hi);
      assert forall c :: c in before ==> c in all;
    }
  }

  /** The calls collected from the deltas against those decoded in one go: the
      same ids, and for each the same name and the same JSON value as arguments. */
  ghost predicate SameCalls(codec: Codec, calls: map<string, Call>, contents: seq<Content>) {
    && (forall c :: c in contents && c.ToolCall? ==>
          && c.id in calls && calls[c.id].name == Some(c.name)
          && codec.parse(c.arguments).Some? && codec.parse(calls[c.id].arguments) == codec.parse(c.arguments))
    && (forall id :: id in calls ==> exists c :: c in contents && c.ToolCall? && c.id == id)
  }

  /** For every well-formed stream, whatever the interleaving and fragmentation. */
  lemma {:induction false} StreamedCallsAreOneShotCalls(codec: Codec, events: seq<Event>, lo: int, hi: int)
    requires codec.Valid() && WellFormed(events)
    requires Within(Assembled(events), lo, hi) && InputsParse(codec, Assembled(events))
    ensures SameCalls(codec, Collect(Decode(events)), OneShot(codec, Assembled(events), lo, hi))
  {
    var blocks, calls := Assembled(events), Collect(Decode(events));
    var contents := OneShot(codec, blocks, lo, hi);
    CallsMatchRun(events);
    OneShotTools(codec, blocks, lo, hi);
    forall c | c in contents && c.ToolCall?
      ensures && c.id in calls && calls[c.id].name == Some(c.name)
              && codec.parse(c.arguments).Some? && codec.parse(calls[c.id].arguments) == codec.parse(c.arguments)
    {
      var i :| i in blocks && CallOf(codec, blocks[i], c);
    }
    forall id | id in calls ensures exists c :: c in contents && c.ToolCall? && c.id == id {
      var i :| ToolAt(blocks, i, id);
      var c :| c in contents && CallOf(codec, blocks[i], c);
    }
  }

  lemma {:induction false} OneShotHas(codec: Codec, blocks: Blocks, lo: int, hi: int, i: int)
    requires i in blocks && lo <= i < hi && blocks[i].ToolSoFar?
    ensures ParseOne(codec, Finished(codec, blocks[i])).value in OneShot(codec, blocks, lo, hi)
    decreases hi - lo
  {
    var k := hi - 1;
    OneShotStep(codec, blocks, lo, hi);
    if i < k {
      OneShotHas(codec, blocks, lo, k, i);
    } else {
      var c := ParseOne(codec, Finished(codec, blocks[i]));
      assert c.value in Keep(c);
    }
  }

  /** The JSON inputs are exactly what it takes: a tool whose fragments add up to
      anything else, or to nothing, matches no one-shot call. */
  lemma {:induction false} CallsAgreeIff(codec: Codec, events: seq<Event>, lo: int, hi: int)
    requires codec.Valid() && WellFormed(events) && Within(Assembled(events), lo, hi)
    ensures SameCalls(codec, Collect(Decode(events)), OneShot(codec, Assembled(events), lo, hi))
       <==> InputsParse(codec, Assembled(events))
  {
    var blocks := Assembled(events);
    if InputsParse(codec, blocks) {
      StreamedCallsAreOneShotCalls(codec, events, lo, hi);
    } else {
      var i :| i in blocks && blocks[i].ToolSoFar? && codec.parse(blocks[i].input).None?;
      CallsMatchRun(events);
      OneShotHas(codec, blocks, lo, hi, i);
    }
  }

  /** A tool that takes no input: it is streamed as a call with empty arguments,
      which is no JSON, and the two decoders disagree. */
  lemma {:induction false} ToolWithoutInputDisagrees(codec: Codec, index: int, id: string, name: string)
    requires codec.Valid() && codec.parse("").None?
    ensures var events := [ContentBlockStart(index, Some(ToolUseStart(id, name))), ContentBlockStop(index)];
            && WellFormed(events)
            && Collect(Decode(events)) == map[id := Call(Some(name), "")]
            && !SameCalls(codec, Collect(Decode(events)), OneShot(codec, Assembled(events), index, index + 1))
  {
    var start := ContentBlockStart(index, Some(ToolUseStart(id, name)));
    var events := [start, ContentBlockStop(index)];
    assert events[..1] == [start] && [start][..0] == [];
    assert Assembled([start]) == map[index := ToolSoFar(id, name, "")];
    assert Assembled(events) == Assembled([start]);
    var part := ToolCallDelta(id, Some(name), "");
    assert Decode([start]) == [] + [part];
    EmptyFirst([part]);
    assert events[..|events| - 1] == [start];
    assert DecodeStep(IdsAfter([start]), events[1]).0 == [];
    assert Decode(events) == Decode([start]) + [];
    AppendNothing([part]);
    AppendNothing("");
    assert [part][..0] == [];
    assert Collect([part]) == map[id := Call(Some(name), "" + "")];
    assert WellFormed([start]) && WellFormed(events);
    assert index in Assembled(events) && codec.parse(Assembled(events)[index].input).None?;
    CallsAgreeIff(codec, events, index, index + 1);
  }

  // -------------------------------------------------------------------- text

  function StreamedText(parts: seq<StreamPart>): string {
    if parts == [] then ""
    else StreamedText(parts[..|parts| - 1]) + (if parts[|parts| - 1].TextDelta? then parts[|parts| - 1].text else "")
  }

  function ContentText(contents: seq<Content>): string {
    if contents == [] then ""
    else
      var last := contents[|contents| - 1];
      ContentText(contents[..|contents| - 1]) + (if last.Text? then last.text else "")
  }

  /** The texts of the text blocks from `lo` up to `hi`, in index order. */
  function BlocksText(blocks: Blocks, lo: int, hi: int): string
    decreases hi - lo
  {
    if lo >= hi then ""
    else
      var k := hi - 1;
      BlocksText(blocks, lo, k) + (if k in blocks && blocks[k].TextSoFar? then blocks[k].text else "")
  }

  lemma {:induction false} OneShotText(codec: Codec, blocks: Blocks, lo: int, hi: int)
    requires codec.Valid() && InputsParse(codec, blocks)
    ensures ContentText(OneShot(codec, blocks, lo, hi)) == BlocksText(blocks, lo, hi)
    decreases hi - lo
  {
    if lo < hi {
      var k := hi - 1;
      OneShotStep(codec, blocks, lo, hi);
      OneShotText(codec, blocks, lo, k);
      if k in blocks {
        FinishedTool(codec, blocks[k]);
        ContentTextKeep(OneShot(codec, blocks, lo, k), ParseOne(codec, Finished(codec, blocks[k])));
      } else {
        ContentTextKeep(OneShot(codec, blocks, lo, k), None);
      }
    }
  }

  lemma {:induction false} ContentTextKeep(contents: seq<Content>, more: Option<Content>)
    ensures ContentText(contents + Keep(more)) ==
            ContentText(contents) + (if more.Some? && more.value.Text? then more.value.text else "")
  {
    if more.Some? {
      assert (contents + [more.value])[..|contents|] == contents;
    } else {
      assert contents + [] == contents;
    }
  }

  /** Text arrives in block order: never for a block below one that already has some. */
  predicate InBlockOrder(blocks: Blocks, event: Event) {
    event.ContentBlockDelta? && event.delta.Some? && event.delta.value.TextFragment? ==>
      forall j :: j in blocks && blocks[j].TextSoFar? ==> j <= event.index
  }

  predicate TextInOrder(events: seq<Event>) {
    events != [] ==>
      var init := events[..|events| - 1];
      TextInOrder(init) && InBlockOrder(Assembled(init), events[|events| - 1])
  }

  /** Blocks that agree on their texts in a range give the same text there. */
  lemma {:induction false} SameBlocksText(a: Blocks, b: Blocks, lo: int, hi: int)
    requires forall i :: lo <= i < hi ==> TextAt(a, i) == TextAt(b, i)
    ensures BlocksText(a, lo, hi) == BlocksText(b, lo, hi)
    decreases hi - lo
  {
    if lo < hi {
      SameBlocksText(a, b, lo, hi - 1);
      assert TextAt(a, hi - 1) == TextAt(b, hi - 1);
    }
  }

  function TextAt(blocks: Blocks, i: int): string {
    if i in blocks && blocks[i].TextSoFar? then blocks[i].text else ""
  }

  /** Text appended to the last block that has any is appended to the whole. */
  lemma {:induction false} AppendToLast(a: Blocks, b: Blocks, lo: int, hi: int, k: int, text: string)
    requires lo <= k < hi
    requires forall i :: i != k ==> TextAt(a, i) == TextAt(b, i)
    requires forall i :: k < i < hi ==> TextAt(a, i) == ""
    requires TextAt(b, k) == TextAt(a, k) + text
    ensures BlocksText(b, lo, hi) == BlocksText(a, lo, hi) + text
    decreases hi - lo
  {
    var last := hi - 1;
    assert BlocksText(a, lo, hi) == BlocksText(a, lo, last) + TextAt(a, last);
    assert BlocksText(b, lo, hi) == BlocksText(b, lo, last) + TextAt(b, last);
    if k == last {
      SameBlocksText(a, b, lo, last);
      Assoc(BlocksText(a, lo, last), TextAt(a, k), text);
    } else {
      AppendToLast(a, b, lo, last, k, text);
      assert TextAt(a, last) == "" && TextAt(b, last) == "";
      assert BlocksText(a, lo, last) + "" == BlocksText(a, lo, last);
      assert BlocksText(b, lo, last) + "" == BlocksText(b, lo, last);
    }
  }

  /** The text of a part list, of which no event yields more than one. */
  function FirstText(parts: seq<StreamPart>): string {
    if parts != [] && parts[0].TextDelta? then parts[0].text else ""
  }

  lemma {:induction false} TextWhateverIds(ids: ToolIds, event: Event)
    ensures |DecodeStep(ids, event).0| <= 1
    ensures FirstText(DecodeStep(ids, event).0) == FirstText(DecodeStep(map[], event).0)
  {
  }

  lemma {:induction false} StreamedTextStep(parts: seq<StreamPart>, more: seq<StreamPart>)
    requires |more| <= 1
    ensures StreamedText(parts + more) ==
            StreamedText(parts) + FirstText(more)
  {
    if more == [] {
      assert parts + more == parts;
    } else {
      assert (parts + more)[..|parts|] == parts;
    }
  }

  lemma {:induction false} TextStep(blocks: Blocks, event: Event, lo: int, hi: int)
    requires Allowed(blocks, event) && InBlockOrder(blocks, event)
    requires Within(Assemble(blocks, event), lo, hi)
    ensures var (more, _) := DecodeStep(map[], event);
            BlocksText(Assemble(blocks, event), lo, hi) ==
            BlocksText(blocks, lo, hi) + FirstText(more)
  {
    var after := Assemble(blocks, event);
    match event
    case ContentBlockDelta(k, Some(TextFragment(text))) =>
      assert k in after;
      AppendToLast(blocks, after, lo, hi, k, text);
    case _ =>
      SameBlocksText(blocks, after, lo, hi);
  }

  lemma {:induction false} WithinEarlier(blocks: Blocks, event: Event, lo: int, hi: int)
    requires Within(Assemble(blocks, event), lo, hi)
    ensures Within(blocks, lo, hi)
  {
    assert forall i :: i in blocks ==> i in Assemble(blocks, event);
  }

  lemma {:induction false} StreamedTextIsBlocksText(events: seq<Event>, lo: int, hi: int)
    requires WellFormed(events) && TextInOrder(events)
    requires Within(Assembled(events), lo, hi)
    ensures StreamedText(Decode(events)) == BlocksText(Assembled(events), lo, hi)
  {
    if events == [] {
      SameBlocksTextEmpty(lo, hi);
    } else {
      var init, event := events[..|events| - 1], events[|events| - 1];
      WithinEarlier(Assembled(init), event, lo, hi);
      StreamedTextIsBlocksText(init, lo, hi);
      TextWhateverIds(IdsAfter(init), event);
      StreamedTextStep(Decode(init), DecodeStep(IdsAfter(init), event).0);
      TextStep(Assembled(init), event, lo, hi);
    }
  }

  lemma {:induction false} SameBlocksTextEmpty(lo: int, hi: int)
    ensures BlocksText(map[], lo, hi) == ""
    decreases hi - lo
  {
    if lo < hi {
      SameBlocksTextEmpty(lo, hi - 1);
    }
  }

  /** When text arrives in block order, the streamed text is the one-shot text. */
  lemma {:induction false} StreamedTextIsOneShotText(codec: Codec, events: seq<Event>, lo: int, hi: int)
    requires codec.Valid() && WellFormed(events) && TextInOrder(events)
    requires Within(Assembled(events), lo, hi) && InputsParse(codec, Assembled(events))
    ensures StreamedText(Decode(events)) == ContentText(OneShot(codec, Assembled(events), lo, hi))
  {
    StreamedTextIsBlocksText(events, lo, hi);
    OneShotText(codec, Assembled(events), lo, hi);
  }

  // ---------------------------------- the block order is exactly what it takes

  /** A stream of text fragments only: the block each goes to, and its text. */
  function TextEvents(order: seq<int>, texts: seq<string>): seq<Event>
    requires |order| == |texts|
  {
    seq(|order|, k requires 0 <= k < |order| => ContentBlockDelta(order[k], Some(TextFragment(texts[k]))))
  }

  predicate Nondecreasing(order: seq<int>) {
    forall k :: 0 < k < |order| ==> order[k - 1] <= order[k]
  }

  ghost predicate SameTextFor(order: seq<int>, texts: seq<string>, lo: int, hi: int)
    requires |order| == |texts|
  {
    var events := TextEvents(order, texts);
    StreamedText(Decode(events)) == BlocksText(Assembled(events), lo, hi)
  }

  /** Streaming and one-shot agree on the text whatever the fragments say. */
  ghost predicate AlwaysSameText(order: seq<int>, lo: int, hi: int) {
    forall texts: seq<string> :: |texts| == |order| ==> SameTextFor(order, texts, lo, hi)
  }

  lemma {:induction false} TextEventsInit(order: seq<int>, texts: seq<string>)
    requires |order| == |texts| && order != []
    ensures var n := |order| - 1;
            var events := TextEvents(order, texts);
            && events[..n] == TextEvents(order[..n], texts[..n])
            && events[n] == ContentBlockDelta(order[n], Some(TextFragment(texts[n])))
  {
  }

  lemma {:induction false} TextEventsAssemble(order: seq<int>, texts: seq<string>)
    requires |order| == |texts|
    ensures var blocks := Assembled(TextEvents(order, texts));
            && WellFormed(TextEvents(order, texts))
            && (forall i :: i in blocks <==> i in order)
            && (forall i :: i in blocks ==> blocks[i].TextSoFar?)
    decreases order
  {
    if order != [] {
      var n := |order| - 1;
      TextEventsInit(order, texts);
      TextEventsAssemble(order[..n], texts[..n]);
      assert order == order[..n] + [order[n]];
    }
  }

  lemma {:induction false} TextEventsText(order: seq<int>, texts: seq<string>)
    requires |order| == |texts|
    ensures StreamedText(Decode(TextEvents(order, texts))) == Concat(texts)
    decreases order
  {
    if order != [] {
      var n := |order| - 1;
      var events := TextEvents(order, texts);
      TextEventsInit(order, texts);
      TextEventsText(order[..n], texts[..n]);
      StreamedTextStep(Decode(events[..n]), DecodeStep(IdsAfter(events[..n]), events[n]).0);
      ConcatTake(texts, n);
      assert texts[..n + 1] == texts;
    }
  }

  lemma {:induction false} SortedIsInOrder(order: seq<int>, texts: seq<string>)
    requires |order| == |texts| && Nondecreasing(order)
    ensures TextInOrder(TextEvents(order, texts))
    decreases order
  {
    if order != [] {
      var n := |order| - 1;
      TextEventsInit(order, texts);
      SortedIsInOrder(order[..n], texts[..n]);
      TextEventsAssemble(order[..n], texts[..n]);
      forall j | j in order[..n] ensures j <= order[n] {
        var k :| 0 <= k < n && order[k] == j;
        SortedReach(order, k, n);
      }
    }
  }

  lemma {:induction false} SortedReach(order: seq<int>, k: nat, n: nat)
    requires Nondecreasing(order) && k <= n < |order|
    ensures order[k] <= order[n]
    decreases n
  {
    if k < n {
      SortedReach(order, k, n - 1);
    }
  }

  /** Texts that are empty but for "a" at `k - 1` and "b" at `k`. */
  function Probe(n: nat, k: nat): (r: seq<string>)
    ensures |r| == n
  {
    seq(n, i => if i == k - 1 then "a" else if i == k then "b" else "")
  }

  /** The texts sent to block `i`, joined. */
  function Gathered(order: seq<int>, texts: seq<string>, i: int): string
    requires |order| == |texts|
  {
    if order == [] then ""
    else
      var n := |order| - 1;
      Gathered(order[..n], texts[..n], i) + (if order[n] == i then texts[n] else "")
  }

  lemma {:induction false} BlocksGather(order: seq<int>, texts: seq<string>, i: int)
    requires |order| == |texts|
    ensures TextAt(Assembled(TextEvents(order, texts)), i) == Gathered(order, texts, i)
    decreases order
  {
    if order != [] {
      var n := |order| - 1;
      TextEventsInit(order, texts);
      TextEventsAssemble(order[..n], texts[..n]);
      BlocksGather(order[..n], texts[..n], i);
    }
  }

  lemma {:induction false} ProbeInit(n: nat, k: nat)
    requires n > 0
    ensures Probe(n, k)[..n - 1] == Probe(n - 1, k)
  {
  }

  lemma {:induction false} ProbeGathers(order: seq<int>, k: nat, i: int)
    requires 0 < k && (k < |order| ==> order[k - 1] != order[k])
    ensures Gathered(order, Probe(|order|, k), i) ==
            if k <= |order| && i == order[k - 1] then "a" else if k < |order| && i == order[k] then "b" else ""
    decreases order
  {
    if order != [] {
      var n := |order| - 1;
      ProbeInit(|order|, k);
      ProbeGathers(order[..n], k, i);
    }
  }

  lemma {:induction false} ProbeConcat(n: nat, k: nat)
    requires 0 < k
    ensures Concat(Probe(n, k)) == if k < n then "ab" else if k == n then "a" else ""
    decreases n
  {
    if n > 0 {
      var texts := Probe(n, k);
      ConcatTake(texts, n - 1);
      ProbeInit(n, k);
      assert texts[..n] == texts;
      ProbeConcat(n - 1, k);
    }
  }

  lemma {:induction false} TwoTexts(blocks: Blocks, lo: int, hi: int, p: int, q: int)
    requires p < q && lo <= p
    requires forall i :: TextAt(blocks, i) == if i == q then "a" else if i == p then "b" else ""
    ensures BlocksText(blocks, lo, hi) == if q < hi then "ba" else if p < hi then "b" else ""
    decreases hi - lo
  {
    if lo < hi {
      TwoTexts(blocks, lo, hi - 1, p, q);
      assert BlocksText(blocks, lo, hi) == BlocksText(blocks, lo, hi - 1) + TextAt(blocks, hi - 1);
    }
  }

  /** Where the order goes down, two one-letter texts come out the other way round. */
  lemma {:induction false} ProbeDisagrees(order: seq<int>, lo: int, hi: int, k: nat)
    requires forall j :: 0 <= j < |order| ==> lo <= order[j] < hi
    requires 0 < k < |order| && order[k - 1] > order[k]
    ensures !SameTextFor(order, Probe(|order|, k), lo, hi)
  {
    var texts := Probe(|order|, k);
    TextEventsText(order, texts);
    ProbeConcat(|order|, k);
    var blocks := Assembled(TextEvents(order, texts));
    forall i ensures TextAt(blocks, i) == if i == order[k - 1] then "a" else if i == order[k] then "b" else "" {
      BlocksGather(order, texts, i);
      ProbeGathers(order, k, i);
    }
    TwoTexts(blocks, lo, hi, order[k], order[k - 1]);
    assert "ab"[0] != "ba"[0];
  }

  /** Over all fragment texts, the streamed text is the one-shot text exactly when
      the fragments arrive in nondecreasing block order. */
  lemma {:induction false} TextOrderIsExact(order: seq<int>, lo: int, hi: int)
    requires forall k :: 0 <= k < |order| ==> lo <= order[k] < hi
    ensures AlwaysSameText(order, lo, hi) <==> Nondecreasing(order)
  {
    if Nondecreasing(order) {
      forall texts: seq<string> | |texts| == |order| ensures SameTextFor(order, texts, lo, hi) {
        SortedIsInOrder(order, texts);
        TextEventsAssemble(order, texts);
        StreamedTextIsBlocksText(TextEvents(order, texts), lo, hi);
      }
    } else {
      var k :| 0 < k < |order| && order[k - 1] > order[k];
      ProbeDisagrees(order, lo, hi, k);
    }
  }

  // ------------------------------------------ whatever comes between the fragments

  predicate IsText(event: Event) {
    event.ContentBlockDelta? && event.delta.Some? && event.delta.value.TextFragment?
  }

  /** The blocks that the text fragments of a stream go to, in order of arrival. */
  function TextOrder(events: seq<Event>): seq<int> {
    if events == [] then []
    else
      var last := events[|events| - 1];
      TextOrder(events[..|events| - 1]) + (if IsText(last) then [last.index] else [])
  }

  function FragmentTexts(events: seq<Event>): (texts: seq<string>)
    ensures |texts| == |TextOrder(events)|
  {
    if events == [] then []
    else
      var last := events[|events| - 1];
      FragmentTexts(events[..|events| - 1]) + (if IsText(last) then [last.delta.value.text] else [])
  }

  /** The same stream but for what the text fragments say. */
  predicate SameShape(a: seq<Event>, b: seq<Event>) {
    |a| == |b| && forall k :: 0 <= k < |a| ==> SameShapeAt(a[k], b[k])
  }

  predicate SameShapeAt(a: Event, b: Event) {
    a == b || (IsText(a) && IsText(b) && a.index == b.index)
  }

  /** The stream with other texts in its fragments. */
  function Refit(events: seq<Event>, texts: seq<string>): seq<Event>
    requires |texts| == |TextOrder(events)|
  {
    if events == [] then []
    else
      var init, last := events[..|events| - 1], events[|events| - 1];
      if IsText(last) then
        var n := |texts| - 1;
        Refit(init, texts[..n]) + [ContentBlockDelta(last.index, Some(TextFragment(texts[n])))]
      else Refit(init, texts) + [last]
  }

  lemma {:induction false} SnocShape(a: seq<Event>, b: seq<Event>, x: Event, y: Event)
    requires SameShape(a, b) && SameShapeAt(x, y)
    ensures SameShape(a + [x], b + [y])
  {
  }

  lemma {:induction false} RefitFits(events: seq<Event>, texts: seq<string>)
    requires |texts| == |TextOrder(events)|
    ensures SameShape(events, Refit(events, texts)) && FragmentTexts(Refit(events, texts)) == texts
  {
    if events != [] {
      var init, last := events[..|events| - 1], events[|events| - 1];
      InitAndLast(events);
      var left := if IsText(last) then texts[..|texts| - 1] else texts;
      var fitted := if IsText(last) then ContentBlockDelta(last.index, Some(TextFragment(texts[|texts| - 1])))
                    else last;
      RefitFits(init, left);
      SnocShape(init, Refit(init, left), last, fitted);
      assert (Refit(init, left) + [fitted])[..|events| - 1] == Refit(init, left);
      if IsText(last) {
        InitAndLast(texts);
      }
    }
  }

  /** Only the texts of text blocks differ. */
  ghost predicate SameButText(a: Blocks, b: Blocks) {
    a.Keys == b.Keys && forall i :: i in a ==> a[i] == b[i] || (a[i].TextSoFar? && b[i].TextSoFar?)
  }

  lemma {:induction false} ShapeStep(a: Blocks, b: Blocks, x: Event, y: Event)
    requires SameButText(a, b) && SameShapeAt(x, y) && Allowed(a, x)
    ensures Allowed(b, y) && SameButText(Assemble(a, x), Assemble(b, y))
  {
  }

  lemma {:induction false} ShapeKept(a: seq<Event>, b: seq<Event>)
    requires SameShape(a, b) && WellFormed(a)
    ensures WellFormed(b) && TextOrder(a) == TextOrder(b) && SameButText(Assembled(a), Assembled(b))
  {
    if a != [] {
      var n := |a| - 1;
      assert forall k :: 0 <= k < n ==> a[..n][k] == a[k] && b[..n][k] == b[k];
      ShapeKept(a[..n], b[..n]);
      assert SameShapeAt(a[n], b[n]);
      ShapeStep(Assembled(a[..n]), Assembled(b[..n]), a[n], b[n]);
    }
  }

  lemma {:induction false} OnlyTextStreams(ids: ToolIds, event: Event)
    ensures |DecodeStep(ids, event).0| <= 1
    ensures FirstText(DecodeStep(ids, event).0) == if IsText(event) then event.delta.value.text else ""
  {
  }

  lemma {:induction false} FragmentsStreamed(events: seq<Event>)
    ensures StreamedText(Decode(events)) == Concat(FragmentTexts(events))
  {
    if events != [] {
      var init, last := events[..|events| - 1], events[|events| - 1];
      FragmentsStreamed(init);
      StreamedTextStep(Decode(init), DecodeStep(IdsAfter(init), last).0);
      OnlyTextStreams(IdsAfter(init), last);
      if IsText(last) {
        ConcatSnoc(FragmentTexts(init), last.delta.value.text);
      } else {
        AppendNothing(FragmentTexts(init));
        AppendNothing(Concat(FragmentTexts(init)));
      }
    }
  }

  lemma {:induction false} GatheredSnoc(order: seq<int>, texts: seq<string>, index: int, text: string, i: int)
    requires |order| == |texts|
    ensures Gathered(order + [index], texts + [text], i) ==
            Gathered(order, texts, i) + (if index == i then text else "")
  {
    assert (order + [index])[..|order|] == order && (texts + [text])[..|order|] == texts;
  }

  lemma {:induction false} TextAdded(blocks: Blocks, event: Event, i: int)
    requires Allowed(blocks, event) && IsText(event)
    ensures TextAt(Assemble(blocks, event), i) ==
            TextAt(blocks, i) + (if event.index == i then event.delta.value.text else "")
  {
    AppendNothing(TextAt(blocks, i));
  }

  lemma {:induction false} FragmentsGathered(events: seq<Event>, i: int)
    requires WellFormed(events)
    ensures TextAt(Assembled(events), i) == Gathered(TextOrder(events), FragmentTexts(events), i)
  {
    if events != [] {
      var init, last := events[..|events| - 1], events[|events| - 1];
      FragmentsGathered(init, i);
      if IsText(last) {
        GatheredSnoc(TextOrder(init), FragmentTexts(init), last.index, last.delta.value.text, i);
        TextAdded(Assembled(init), last, i);
      } else {
        AppendNothing(TextOrder(init));
        AppendNothing(FragmentTexts(init));
        TextUntouched(Assembled(init), last, i);
      }
    }
  }

  lemma {:induction false} FragmentBlocksExist(events: seq<Event>)
    ensures forall i :: i in TextOrder(events) ==> i in Assembled(events)
  {
    if events != [] {
      FragmentBlocksExist(events[..|events| - 1]);
    }
  }

  lemma {:induction false} TextUntouched(blocks: Blocks, event: Event, i: int)
    requires Allowed(blocks, event) && !IsText(event)
    ensures TextAt(Assemble(blocks, event), i) == TextAt(blocks, i)
  {
  }

  /** The streamed and the one-shot text of one stream. */
  ghost predicate SameText(codec: Codec, events: seq<Event>, lo: int, hi: int)
    requires codec.Valid()
  {
    StreamedText(Decode(events)) == ContentText(OneShot(codec, Assembled(events), lo, hi))
  }

  /** What comes between the fragments does not matter to the text. */
  lemma {:induction false} OnlyFragmentsMatter(codec: Codec, events: seq<Event>, lo: int, hi: int)
    requires codec.Valid() && WellFormed(events) && InputsParse(codec, Assembled(events))
    ensures SameText(codec, events, lo, hi) <==> SameTextFor(TextOrder(events), FragmentTexts(events), lo, hi)
  {
    var order, texts := TextOrder(events), FragmentTexts(events);
    FragmentsStreamed(events);
    TextEventsText(order, texts);
    OneShotText(codec, Assembled(events), lo, hi);
    forall i ensures TextAt(Assembled(events), i) == TextAt(Assembled(TextEvents(order, texts)), i) {
      FragmentsGathered(events, i);
      BlocksGather(order, texts, i);
    }
    SameBlocksText(Assembled(events), Assembled(TextEvents(order, texts)), lo, hi);
  }

  /** Whatever the text fragments of the stream say, both decoders give the same text. */
  ghost predicate TextAlwaysAgrees(codec: Codec, events: seq<Event>, lo: int, hi: int)
    requires codec.Valid()
  {
    forall other :: SameShape(events, other) ==> SameText(codec, other, lo, hi)
  }

  lemma {:induction false} ParsesAlike(codec: Codec, a: Blocks, b: Blocks)
    requires SameButText(a, b) && InputsParse(codec, a)
    ensures InputsParse(codec, b)
  {
    forall i | i in b && b[i].ToolSoFar? ensures codec.parse(b[i].input).Some? {
      assert a[i] == b[i];
    }
  }

  /** For any well-formed stream, with tools and reasoning in between: streamed and
      one-shot text agree whatever the fragments say exactly when the fragments
      arrive in nondecreasing block order. */
  lemma {:induction false} StreamTextOrderIsExact(codec: Codec, events: seq<Event>, lo: int, hi: int)
    requires codec.Valid() && WellFormed(events) && InputsParse(codec, Assembled(events))
             && Within(Assembled(events), lo, hi)
    ensures TextAlwaysAgrees(codec, events, lo, hi) <==> Nondecreasing(TextOrder(events))
  {
    var order := TextOrder(events);
    FragmentBlocksExist(events);
    forall k | 0 <= k < |order| ensures lo <= order[k] < hi {
      assert order[k] in order;
    }
    TextOrderIsExact(order, lo, hi);
    if AlwaysSameText(order, lo, hi) {
      forall other | SameShape(events, other) ensures SameText(codec, other, lo, hi) {
        ShapeKept(events, other);
        ParsesAlike(codec, Assembled(events), Assembled(other));
        OnlyFragmentsMatter(codec, other, lo, hi);
      }
    }
    if TextAlwaysAgrees(codec, events, lo, hi) {
      forall texts: seq<string> | |texts| == |order| ensures SameTextFor(order, texts, lo, hi) {
        RefitFits(events, texts);
        ShapeKept(events, Refit(events, texts));
        ParsesAlike(codec, Assembled(events), Assembled(Refit(events, texts)));
        OnlyFragmentsMatter(codec, Refit(events, texts), lo, hi);
      }
    }
  }
}
