/** The upstream and downstream guardrail hooks
    (plugins/bitrouter-guardrails/src/hooks.rs). */
module GuardrailHooks {
  import opened Wrappers
  import opened Strings
  import opened GuardrailRules
  import opened GuardrailStreaming
  import opened Canonical
  import Json
  import GuardrailRedaction

  type Rules = seq<GuardrailRule>

  // ------------------------------------------------------ scanning the request

  /** The scannable text of one content part, if it carries any. */
  function Fragment(content: Content, show: Json.Value -> string): Option<string> {
    match content
    case Text(text, _) => Some(text)
    case Reasoning(text, _) => Some(text)
    case ToolResult(_, _, output, _, _) => Some(ProviderString(output, show))
    case ToolCall(_, _, arguments, _, _, _) => Some(arguments)
    case File(_, _, _, _) => None
    case Source(_, _) => None
    case ToolApprovalResponse(_, _, reason, _) => reason
    case ToolApprovalRequest(_, _, _) => None
  }

  function ContentFragments(content: seq<Content>, show: Json.Value -> string): seq<string> {
    if content == [] then []
    else
      var last := content[|content| - 1];
      ContentFragments(content[..|content| - 1], show) +
      match Fragment(last, show) { case Some(text) => [text] case None => [] }
  }

  function MessageFragments(messages: seq<Message>, show: Json.Value -> string): seq<string> {
    if messages == [] then []
    else
      MessageFragments(messages[..|messages| - 1], show) +
      ContentFragments(messages[|messages| - 1].content, show)
  }

  /** Every piece of a prompt that is scanned, in order. */
  function Fragments(prompt: Prompt, show: Json.Value -> string): seq<string> {
    (match prompt.system { case Some(text) => [text] case None => [] }) + MessageFragments(prompt.messages, show)
  }

  /** The fragments, each ended by a newline. */
  function Lines(fragments: seq<string>): string {
    if fragments == [] then "" else Lines(fragments[..|fragments| - 1]) + fragments[|fragments| - 1] + "\n"
  }

  lemma {:induction false} LinesSnoc(fragments: seq<string>, text: string)
    ensures Lines(fragments + [text]) == Lines(fragments) + text + "\n"
  {
    assert (fragments + [text])[..|fragments|] == fragments;
  }

  lemma {:induction false} FragmentsSnoc(content: seq<Content>, c: nat, show: Json.Value -> string)
    requires c < |content|
    ensures ContentFragments(content[..c + 1], show) ==
            ContentFragments(content[..c], show) +
            match Fragment(content[c], show) { case Some(text) => [text] case None => [] }
  {
    assert content[..c + 1][..c] == content[..c];
  }

  lemma {:induction false} MessagesSnoc(messages: seq<Message>, m: nat, show: Json.Value -> string)
    requires m < |messages|
    ensures MessageFragments(messages[..m + 1], show) ==
            MessageFragments(messages[..m], show) + ContentFragments(messages[m].content, show)
  {
    assert messages[..m + 1][..m] == messages[..m];
  }

  /** Append the scannable text of one content part, if any, as a line. */
  method PushContent(buf: string, content: Content, show: Json.Value -> string) returns (r: string)
    ensures r == match Fragment(content, show) { case Some(text) => buf + text + "\n" case None => buf }
  {
    r := buf;
    match content {
      case Text(text, _) =>
        r := r + text + "\n";
      case Reasoning(text, _) =>
        r := r + text + "\n";
      case ToolResult(_, _, output, _, _) =>
        r := r + ProviderString(output, show) + "\n";
      case ToolCall(_, _, arguments, _, _, _) =>
        r := r + arguments + "\n";
      case ToolApprovalResponse(_, _, reason, _) =>
        if reason.Some? {
          r := r + reason.value + "\n";
        }
      case _ =>
    }
  }

  method RequestText(prompt: Prompt, show: Json.Value -> string) returns (buf: string)
    ensures buf == Lines(Fragments(prompt, show))
  {
    buf := "";
    ghost var done: seq<string> := [];
    if prompt.system.Some? {
      LinesSnoc([], prompt.system.value);
      buf := buf + prompt.system.value + "\n";
      done := [] + [prompt.system.value];
    }
    ghost var first := done;
    for m := 0 to |prompt.messages|
      invariant done == first + MessageFragments(prompt.messages[..m], show)
      invariant buf == Lines(done)
    {
      var content := prompt.messages[m].content;
      ghost var before := done;
      assert before + ContentFragments(content[..0], show) == before;
      for c := 0 to |content|
        invariant done == before + ContentFragments(content[..c], show)
        invariant buf == Lines(done)
      {
        FragmentsSnoc(content, c, show);
        buf := PushContent(buf, content[c], show);
        ghost var fragment := Fragment(content[c], show);
        if fragment.Some? {
          LinesSnoc(done, fragment.value);
          Assoc(before, ContentFragments(content[..c], show), [fragment.value]);
          done := done + [fragment.value];
        } else {
          assert ContentFragments(content[..c], show) + [] == ContentFragments(content[..c], show);
        }
      }
      assert content[..|content|] == content;
      MessagesSnoc(prompt.messages, m, show);
      Assoc(first, MessageFragments(prompt.messages[..m], show), ContentFragments(content, show));
    }
    assert prompt.messages[..|prompt.messages|] == prompt.messages;
  }

  /** A denial carries the name of the rule that its message quotes. */
  datatype HookDecision = Allow | Deny(rule: string)

  /** The upstream hook; `rules` is the rule set found in the request, if any. */
  method CheckRequest(rules: Option<Rules>, prompt: Prompt, show: Json.Value -> string) returns (decision: HookDecision)
    ensures rules.None? ==> decision.Allow?
    ensures rules.Some? ==>
              decision == match FirstBlock(rules.value, Lines(Fragments(prompt, show)))
                          case Some(name) => Deny(name)
                          case None => Allow
  {
    if rules.None? || rules.value == [] {
      return Allow;
    }
    var text := RequestText(prompt, show);
    var hit := FirstBlock(rules.value, text);
    return if hit.Some? then Deny(hit.value) else Allow;
  }

  ghost predicate OccursInSome(w: string, fragments: seq<string>) {
    exists k :: 0 <= k < |fragments| && Occurs(w, fragments[k])
  }

  lemma {:induction false} FragmentInLines(w: string, fragments: seq<string>, k: nat)
    requires k < |fragments| && Occurs(w, fragments[k])
    ensures Occurs(w, Lines(fragments))
  {
    var n := |fragments| - 1;
    var init, last := fragments[..n], fragments[n];
    if k == n {
      OccursInside(w, Lines(init), last, "\n");
    } else {
      FragmentInLines(w, init, k);
      OccursInside(w, "", Lines(init), last + "\n");
      assert "" + Lines(init) + (last + "\n") == Lines(fragments);
    }
  }

  /** A newline-free word cannot reach across the end of a line. */
  lemma {:induction false} NoReachAcross(w: string, before: string, last: string, i: int)
    requires '\n' !in w && w != "" && OccursAt(w, before + last + "\n", i)
    requires before == "" || before[|before| - 1] == '\n'
    ensures Occurs(w, before) || Occurs(w, last)
  {
    var whole := before + last + "\n";
    if i < |before| {
      if i + |w| > |before| {
        OccursChar(w, whole, i, |before| - 1);
      }
      assert whole == before + (last + "\n");
      OccursAtLeft(w, before, last + "\n", i);
      assert OccursAt(w, before, i);
    } else {
      if i + |w| == |whole| {
        OccursChar(w, whole, i, |whole| - 1);
      }
      OccursAtLeft(w, before + last, "\n", i);
      OccursAtRight(w, before, last, i);
      assert OccursAt(w, last, i - |before|);
    }
  }

  lemma {:induction false} LinesEnd(fragments: seq<string>)
    ensures Lines(fragments) == "" || Lines(fragments)[|Lines(fragments)| - 1] == '\n'
  {
  }

  lemma {:induction false} NewlineFreeWordInFragment(w: Word, fragments: seq<string>)
    requires '\n' !in w && Occurs(w, Lines(fragments))
    ensures OccursInSome(w, fragments)
  {
    var text := Lines(fragments);
    var i :| 0 <= i <= |text| - |w| && OccursAt(w, text, i);
    var n := |fragments| - 1;
    var init := fragments[..n];
    LinesEnd(init);
    NoReachAcross(w, Lines(init), fragments[n], i);
    if Occurs(w, fragments[n]) {
    } else {
      NewlineFreeWordInFragment(w, init);
      var k :| 0 <= k < |init| && Occurs(w, init[k]);
      assert Occurs(w, fragments[k]);
    }
  }

  /** `w` cut at its newlines. */
  function Pieces(w: string): (r: seq<string>)
    ensures |r| > 0
    ensures forall k :: 0 <= k < |r| ==> '\n' !in r[k]
  {
    if w == "" then [""]
    else
      var init, last := Pieces(w[..|w| - 1]), w[|w| - 1];
      if last == '\n' then init + [""]
      else init[..|init| - 1] + [init[|init| - 1] + [last]]
  }

  lemma {:induction false} PiecesJoin(w: string)
    ensures Lines(Pieces(w)) == w + "\n"
  {
    if w == "" {
      assert Pieces(w)[..0] == [];
    } else {
      var short, last := w[..|w| - 1], w[|w| - 1];
      var init := Pieces(short);
      PiecesJoin(short);
      assert w == short + [last];
      var n := |init| - 1;
      if last == '\n' {
        assert (init + [""])[..|init|] == init;
      } else {
        assert (init[..n] + [init[n] + [last]])[..n] == init[..n];
        DropNewline(Lines(init[..n]), init[n], short, last);
      }
    }
  }

  lemma {:induction false} DropNewline(before: string, piece: string, short: string, last: char)
    requires before + piece + "\n" == short + "\n"
    ensures before + (piece + [last]) + "\n" == short + [last] + "\n"
  {
    assert (before + piece + "\n")[..|before + piece|] == before + piece;
    assert (short + "\n")[..|short|] == short;
    assert before + (piece + [last]) == before + piece + [last];
  }

  ghost predicate FoundOnlyInFragments(w: Word) {
    forall fragments :: Occurs(w, Lines(fragments)) <==> OccursInSome(w, fragments)
  }

  /** A word is found exactly in single fragments, never through text joined
      across them, precisely when it contains no newline. */
  lemma {:induction false} FragmentScanIsExact(w: Word)
    ensures FoundOnlyInFragments(w) <==> '\n' !in w
  {
    if '\n' !in w {
      forall fragments ensures Occurs(w, Lines(fragments)) <==> OccursInSome(w, fragments) {
        if Occurs(w, Lines(fragments)) {
          NewlineFreeWordInFragment(w, fragments);
        }
        if k :| 0 <= k < |fragments| && Occurs(w, fragments[k]) {
          FragmentInLines(w, fragments, k);
        }
      }
    } else {
      var pieces := Pieces(w);
      PiecesJoin(w);
      OccursAtLeft(w, w, "\n", 0);
      assert OccursAt(w, Lines(pieces), 0);
      forall k | 0 <= k < |pieces| ensures !Occurs(w, pieces[k]) {
        NewlineNotIn(w, pieces[k]);
      }
    }
  }

  lemma {:induction false} NewlineNotIn(w: string, t: string)
    requires '\n' in w && '\n' !in t
    ensures !Occurs(w, t)
  {
    var j :| 0 <= j < |w| && w[j] == '\n';
    forall i | 0 <= i <= |t| - |w| ensures !OccursAt(w, t, i) {
      if OccursAt(w, t, i) {
        OccursCharIn(w, t, i, j);
      }
    }
  }

  ghost predicate BlocksSome(rules: Rules, k: nat, fragments: seq<string>)
    requires k < |rules|
  {
    exists f :: 0 <= f < |fragments| && BlocksAt(rules, k, fragments[f])
  }

  ghost predicate NewlineFree(rules: Rules) {
    forall w :: BlockWord(rules, w) ==> '\n' !in w
  }

  lemma {:induction false} BlocksLinesIffSome(rules: Rules, k: nat, fragments: seq<string>)
    requires NewlineFree(rules) && k < |rules|
    ensures BlocksAt(rules, k, Lines(fragments)) <==> BlocksSome(rules, k, fragments)
  {
    if BlocksAt(rules, k, Lines(fragments)) {
      var p := rules[k].pattern;
      var j :| 0 <= j < |p| && Occurs(p[j], Lines(fragments));
      assert BlockWordAt(rules, k, j, p[j]);
      NewlineFreeWordInFragment(p[j], fragments);
      var f :| 0 <= f < |fragments| && Occurs(p[j], fragments[f]);
      assert BlocksAt(rules, k, fragments[f]);
    }
    if f :| 0 <= f < |fragments| && BlocksAt(rules, k, fragments[f]) {
      var p := rules[k].pattern;
      var j :| 0 <= j < |p| && Occurs(p[j], fragments[f]);
      FragmentInLines(p[j], fragments, f);
    }
  }

  /** With newline-free `Block` words, the request scan fires exactly when some
      word occurs inside one fragment, and names the first rule that fires. */
  lemma {:induction false} RequestScanNamesFirstRule(rules: Rules, prompt: Prompt, show: Json.Value -> string)
    requires NewlineFree(rules)
    ensures var fragments := Fragments(prompt, show);
            var hit := FirstBlock(rules, Lines(fragments));
            && (hit.None? <==> forall k :: 0 <= k < |rules| ==> !BlocksSome(rules, k, fragments))
            && (hit.Some? ==> exists k :: 0 <= k < |rules| && BlocksSome(rules, k, fragments)
                                          && hit.value == rules[k].name
                                          && forall j :: 0 <= j < k ==> !BlocksSome(rules, j, fragments))
  {
    var fragments := Fragments(prompt, show);
    FirstBlockIsEarliest(rules, Lines(fragments));
    forall k | 0 <= k < |rules|
      ensures BlocksAt(rules, k, Lines(fragments)) <==> BlocksSome(rules, k, fragments)
    {
      BlocksLinesIffSome(rules, k, fragments);
    }
  }

  // ----------------------------------------------------- scanning the response

  const PLUGIN_ID: string := "bitrouter-guardrails"

  /** An abort carries the name of the rule that its error message quotes. */
  datatype StreamAction = Pass | Replace(parts: seq<StreamPart>) | Drop | Abort(rule: string)

  /** The carry persisted in the stream metadata; absent or ill-shaped is empty. */
  function LoadCarry(metadata: Metadata): string {
    if PLUGIN_ID in metadata && metadata[PLUGIN_ID].Object?
       && "carry" in metadata[PLUGIN_ID].entries && metadata[PLUGIN_ID].entries["carry"].String?
    then metadata[PLUGIN_ID].entries["carry"].s
    else ""
  }

  function StoreCarry(metadata: Metadata, carry: string): (r: Metadata)
    ensures LoadCarry(r) == carry
    ensures r - {PLUGIN_ID} == metadata - {PLUGIN_ID}
  {
    metadata[PLUGIN_ID := Json.Object(map["carry" := Json.String(carry)])]
  }

  predicate HasText(part: StreamPart) {
    part.TextDelta? || part.ReasoningDelta?
  }

  /** A part of the same kind with other text. */
  function Rebuild(part: StreamPart, text: string): StreamPart
    requires HasText(part)
  {
    if part.TextDelta? then TextDelta(text) else ReasoningDelta(text)
  }

  /** What the stream hook does with one part: its action and the metadata it leaves. */
  function HookStep(rules: Option<Rules>, metadata: Metadata, part: StreamPart): (StreamAction, Metadata) {
    if rules.None? || rules.value == [] || !HasText(part) then (Pass, metadata)
    else
      var carry := LoadCarry(metadata);
      match Verdict(rules.value, carry, part.text)
      case Blocked(name) => (Abort(name), StoreCarry(metadata, carry))
      case Emit(text) =>
        (if text == part.text then Pass else Replace([Rebuild(part, text)]),
         StoreCarry(metadata, LastChars(carry + part.text, CARRY_CHARS)))
  }

  /** The per-request context a stream hook sees. */
  class StreamContext {
    const rules: Option<Rules>
    var metadata: Metadata

    constructor (rules: Option<Rules>, metadata: Metadata)
      ensures this.rules == rules && this.metadata == metadata
    {
      this.rules, this.metadata := rules, metadata;
    }

    /** The hook keeps no state of its own: it restores a matcher from the
        metadata, feeds it one delta, and stores the window back. */
    method OnPart(part: StreamPart) returns (action: StreamAction)
      modifies this
      ensures (action, metadata) == HookStep(rules, old(metadata), part)
    {
      if rules.None? || rules.value == [] || !HasText(part) {
        return Pass;
      }
      var carry := LoadCarry(metadata);
      var matcher := new SlidingWindowMatcher.WithCarry(rules.value, carry);
      var verdict := matcher.Feed(part.text);
      metadata := StoreCarry(metadata, matcher.carry);
      match verdict {
        case Blocked(name) =>
          return Abort(name);
        case Emit(text) =>
          return if text == part.text then Pass else Replace([Rebuild(part, text)]);
      }
    }

    /** Drives one part through the hook; parts it has no interest in bypass it. */
    method ProcessPart(part: StreamPart) returns (r: Result<seq<StreamPart>, string>)
      modifies this
      ensures (r, metadata) == ProcessStep(rules, old(metadata), part)
    {
      if !HasText(part) {
        return Ok([part]);
      }
      var action := OnPart(part);
      match action {
        case Pass => return Ok([part]);
        case Replace(parts) => return Ok(parts);
        case Drop => return Ok([]);
        case Abort(rule) => return Err(rule);
      }
    }

    /** Drives a whole stream through the hook, until it ends or is aborted. */
    method ProcessStream(parts: seq<StreamPart>) returns (emitted: seq<StreamPart>, abort: Option<string>)
      modifies this
      ensures Trace(emitted, abort, metadata) == HookRun(rules, old(metadata), parts)
    {
      emitted, abort := [], None;
      for i := 0 to |parts|
        invariant abort.None?
        invariant var rest := HookRun(rules, metadata, parts[i..]);
                  HookRun(rules, old(metadata), parts) == rest.(emitted := emitted + rest.emitted)
      {
        assert parts[i..][0] == parts[i] && parts[i..][1..] == parts[i + 1..];
        var r := ProcessPart(parts[i]);
        match r {
          case Ok(more) => emitted := emitted + more;
          case Err(error) => return emitted, Some(error);
        }
      }
    }
  }

  function ProcessStep(rules: Option<Rules>, metadata: Metadata, part: StreamPart)
    : (Result<seq<StreamPart>, string>, Metadata)
  {
    if !HasText(part) then (Ok([part]), metadata)
    else
      var (action, next) := HookStep(rules, metadata, part);
      (match action
       case Pass => Ok([part])
       case Replace(parts) => Ok(parts)
       case Drop => Ok([])
       case Abort(rule) => Err(rule), next)
  }

  /** What a run put out, the error that ended it, if any, and the final metadata. */
  datatype Trace = Trace(emitted: seq<StreamPart>, abort: Option<string>, metadata: Metadata)

  function HookRun(rules: Option<Rules>, metadata: Metadata, parts: seq<StreamPart>): Trace
    decreases parts
  {
    if parts == [] then Trace([], None, metadata)
    else
      var (r, next) := ProcessStep(rules, metadata, parts[0]);
      match r
      case Err(error) => Trace([], Some(error), next)
      case Ok(more) =>
        var rest := HookRun(rules, next, parts[1..]);
        rest.(emitted := more + rest.emitted)
  }

  // ------------------------------------------- the hook against one matcher

  /** The text of a part that the hook scans. */
  function TextOf(part: StreamPart): string {
    if HasText(part) then part.text else ""
  }

  /** All text of a stream, text and reasoning deltas interleaved as they came. */
  function Received(parts: seq<StreamPart>): string {
    if parts == [] then "" else TextOf(parts[0]) + Received(parts[1..])
  }

  function RedactPart(rules: Rules, part: StreamPart): StreamPart {
    if HasText(part) then Rebuild(part, RedactText(rules, part.text)) else part
  }

  /** The deltas a long-lived matcher would be fed. */
  function Deltas(parts: seq<StreamPart>): seq<string> {
    if parts == [] then []
    else (if HasText(parts[0]) then [parts[0].text] else []) + Deltas(parts[1..])
  }

  lemma {:induction false} DeltasText(parts: seq<StreamPart>)
    ensures Concat(Deltas(parts)) == Received(parts)
  {
    if parts != [] {
      DeltasText(parts[1..]);
      if HasText(parts[0]) {
        assert Deltas(parts)[1..] == Deltas(parts[1..]);
      } else {
        assert [] + Deltas(parts[1..]) == Deltas(parts[1..]);
      }
    }
  }

  /** The rule that ended a matcher's run, if one did. */
  function BlockedBy(out: seq<WindowResult>): Option<string> {
    if out == [] then None
    else if out[0].Blocked? then Some(out[0].rule)
    else BlockedBy(out[1..])
  }

  /** The deltas a matcher's run lets through. */
  function EmittedDeltas(out: seq<WindowResult>): seq<string> {
    if out == [] then []
    else (if out[0].Emit? then [out[0].text] else []) + EmittedDeltas(out[1..])
  }

  /** The same part, up to its text if it has any. */
  predicate SameKind(a: StreamPart, b: StreamPart) {
    if HasText(b) then HasText(a) && a == Rebuild(b, a.text) else a == b
  }

  ghost predicate SameKinds(emitted: seq<StreamPart>, parts: seq<StreamPart>) {
    |emitted| <= |parts| && forall i :: 0 <= i < |emitted| ==> SameKind(emitted[i], parts[i])
  }

  /** A run of the hook and a run of a matcher: the same end, by the same rule,
      and the same deltas, in parts of the kinds they came in. */
  ghost predicate SameRun(parts: seq<StreamPart>, tr: Trace, out: seq<WindowResult>) {
    && tr.abort == BlockedBy(out)
    && Deltas(tr.emitted) == EmittedDeltas(out)
    && SameKinds(tr.emitted, parts)
    && (tr.abort.None? ==> |tr.emitted| == |parts|)
  }

  /** Over every run, the stateless hook does to the stream what one long-lived
      matcher, started with the stored carry and fed all text and reasoning
      deltas, does to these. */
  lemma {:induction false} HookIsOneMatcher(rules: Rules, metadata: Metadata, parts: seq<StreamPart>)
    requires rules != []
    ensures SameRun(parts, HookRun(Some(rules), metadata, parts), Run(rules, LoadCarry(metadata), Deltas(parts)))
    decreases parts
  {
    if parts != [] {
      var part, rest := parts[0], parts[1..];
      var next := ProcessStep(Some(rules), metadata, part).1;
      var carry := LoadCarry(metadata);
      HeadAndTail(parts);
      HookRunCons(Some(rules), metadata, part, rest);
      DeltasCons(part, rest);
      var tail := HookRun(Some(rules), next, rest);
      if HasText(part) {
        ProcessOutcome(rules, metadata, part);
        RunStep(rules, carry, part.text, Deltas(rest));
        match Verdict(rules, carry, part.text)
        case Blocked(name) =>
          StoppedRun(part, rest, name, next);
        case Emit(text) =>
          HookIsOneMatcher(rules, next, rest);
          SameRunText(part, text, rest, tail, Run(rules, LoadCarry(next), Deltas(rest)));
      } else {
        HookIsOneMatcher(rules, next, rest);
        SameRunOther(part, rest, tail, Run(rules, LoadCarry(next), Deltas(rest)));
      }
    }
  }

  lemma {:induction false} StoppedRun(part: StreamPart, rest: seq<StreamPart>, name: string, next: Metadata)
    ensures SameRun([part] + rest, Trace([], Some(name), next), [Blocked(name)])
  {
    assert [Blocked(name)][1..] == [];
  }

  lemma {:induction false} SameRunText(part: StreamPart, text: string, rest: seq<StreamPart>, tail: Trace,
                                       out: seq<WindowResult>)
    requires HasText(part) && SameRun(rest, tail, out)
    ensures SameRun([part] + rest, tail.(emitted := [Rebuild(part, text)] + tail.emitted), [Emit(text)] + out)
  {
    DeltasCons(Rebuild(part, text), tail.emitted);
    SameKindsCons(Rebuild(part, text), tail.emitted, part, rest);
    assert ([Emit(text)] + out)[1..] == out;
  }

  lemma {:induction false} SameRunOther(part: StreamPart, rest: seq<StreamPart>, tail: Trace, out: seq<WindowResult>)
    requires !HasText(part) && SameRun(rest, tail, out)
    ensures SameRun([part] + rest, tail.(emitted := [part] + tail.emitted), out)
  {
    DeltasCons(part, tail.emitted);
    SameKindsCons(part, tail.emitted, part, rest);
  }

  lemma {:induction false} SameKindsCons(a: StreamPart, emitted: seq<StreamPart>, b: StreamPart, parts: seq<StreamPart>)
    requires SameKind(a, b) && SameKinds(emitted, parts)
    ensures SameKinds([a] + emitted, [b] + parts)
  {
  }

  lemma {:induction false} DeltasCons(part: StreamPart, rest: seq<StreamPart>)
    ensures Deltas([part] + rest) == if HasText(part) then [part.text] + Deltas(rest) else Deltas(rest)
  {
    assert ([part] + rest)[1..] == rest;
    assert [] + Deltas(rest) == Deltas(rest);
  }

  lemma {:induction false} EmittedDeltasText(out: seq<WindowResult>)
    ensures Concat(EmittedDeltas(out)) == GuardrailRedaction.EmittedText(out)
    ensures BlockedBy(out).Some? <==> EndsBlocked(out)
  {
    if out != [] {
      HeadAndTail(out);
      EndsBlockedCons(out[0], out[1..]);
      EmittedDeltasText(out[1..]);
      if out[0].Emit? {
        ConcatCons(out[0].text, EmittedDeltas(out[1..]));
      } else {
        EmptyFirst(EmittedDeltas(out[1..]));
        EmptyFirst(Concat(EmittedDeltas(out[1..])));
      }
    }
  }

  lemma {:induction false} ReceivedCons(part: StreamPart, rest: seq<StreamPart>)
    ensures Received([part] + rest) == TextOf(part) + Received(rest)
    ensures !HasText(part) ==> Received([part] + rest) == Received(rest)
  {
    EmptyFirst(Received(rest));
    assert ([part] + rest)[1..] == rest;
  }

  /** All text seen once the first `k` parts have come in. */
  function SeenAfter(seen: string, parts: seq<StreamPart>, k: nat): string
    requires k <= |parts|
  {
    seen + Received(parts[..k])
  }

  lemma {:induction false} SeenAfterCons(seen: string, part: StreamPart, rest: seq<StreamPart>, k: nat)
    requires k <= |rest|
    ensures SeenAfter(seen, [part] + rest, k + 1) == SeenAfter(seen + TextOf(part), rest, k)
  {
    assert ([part] + rest)[..k + 1] == [part] + rest[..k];
    ReceivedCons(part, rest[..k]);
    Assoc(seen, TextOf(part), Received(rest[..k]));
  }

  lemma {:induction false} SeenAfterNone(seen: string, parts: seq<StreamPart>)
    ensures SeenAfter(seen, parts, 0) == seen
  {
    assert parts[..0] == [];
  }

  /** The parts let through are the first ones, redacted one for one. */
  ghost predicate PartsRedacted(rules: Rules, parts: seq<StreamPart>, emitted: seq<StreamPart>) {
    |emitted| <= |parts| && forall i :: 0 <= i < |emitted| ==> emitted[i] == RedactPart(rules, parts[i])
  }

  /** After `n` parts nothing has matched; the run goes on to the end, or stops
      because the next part completes a match, and says which. */
  ghost predicate StopsRightly(rules: Rules, seen: string, parts: seq<StreamPart>, n: nat, abort: Option<string>)
    requires n <= |parts|
  {
    && FirstBlock(rules, SeenAfter(seen, parts, n)).None?
    && (abort.None? ==> n == |parts|)
    && (abort.Some? ==>
          && n < |parts|
          && FirstBlock(rules, SeenAfter(seen, parts, n + 1)).Some?
          && abort.value == FirstBlock(rules, SeenAfter(seen, parts, n + 1)).value)
  }

  /** Everything a run over the whole text would promise, said of the hook. */
  ghost predicate GuardedRun(rules: Rules, seen: string, metadata: Metadata, parts: seq<StreamPart>, tr: Trace) {
    var n := |tr.emitted|;
    && PartsRedacted(rules, parts, tr.emitted)
    && StopsRightly(rules, seen, parts, n, tr.abort)
    && LoadCarry(tr.metadata) == LastChars(SeenAfter(seen, parts, n), CARRY_CHARS)
    && tr.metadata - {PLUGIN_ID} == metadata - {PLUGIN_ID}
  }

  lemma {:induction false} PartsRedactedCons(rules: Rules, part: StreamPart, rest: seq<StreamPart>,
                                             emitted: seq<StreamPart>)
    requires PartsRedacted(rules, rest, emitted)
    ensures PartsRedacted(rules, [part] + rest, [RedactPart(rules, part)] + emitted)
  {
  }

  lemma {:induction false} StopsRightlyCons(rules: Rules, seen: string, part: StreamPart, rest: seq<StreamPart>, n: nat,
                                            abort: Option<string>)
    requires n <= |rest| && StopsRightly(rules, seen + TextOf(part), rest, n, abort)
    ensures StopsRightly(rules, seen, [part] + rest, n + 1, abort)
  {
    SeenAfterCons(seen, part, rest, n);
    if abort.Some? {
      SeenAfterCons(seen, part, rest, n + 1);
    }
  }

  lemma {:induction false} GuardedCons(rules: Rules, seen: string, metadata: Metadata, part: StreamPart,
                                       rest: seq<StreamPart>, next: Metadata, tail: Trace)
    requires GuardedRun(rules, seen + TextOf(part), next, rest, tail)
    requires next - {PLUGIN_ID} == metadata - {PLUGIN_ID}
    ensures GuardedRun(rules, seen, metadata, [part] + rest, tail.(emitted := [RedactPart(rules, part)] + tail.emitted))
  {
    var n := |tail.emitted|;
    PartsRedactedCons(rules, part, rest, tail.emitted);
    StopsRightlyCons(rules, seen, part, rest, n, tail.abort);
    SeenAfterCons(seen, part, rest, n);
    assert |[RedactPart(rules, part)] + tail.emitted| == n + 1;
  }

  lemma {:induction false} HookRunCons(rules: Option<Rules>, metadata: Metadata, part: StreamPart,
                                       rest: seq<StreamPart>)
    ensures var (r, next) := ProcessStep(rules, metadata, part);
            HookRun(rules, metadata, [part] + rest) ==
            match r
            case Err(error) => Trace([], Some(error), next)
            case Ok(more) => var tail := HookRun(rules, next, rest); tail.(emitted := more + tail.emitted)
  {
    assert ([part] + rest)[1..] == rest;
  }

  lemma {:induction false} GuardedEnd(rules: Rules, seen: string, metadata: Metadata)
    requires FirstBlock(rules, seen).None? && LoadCarry(metadata) == LastChars(seen, CARRY_CHARS)
    ensures GuardedRun(rules, seen, metadata, [], Trace([], None, metadata))
  {
    SeenAfterNone(seen, []);
  }

  lemma {:induction false} GuardedStop(rules: Rules, seen: string, metadata: Metadata, part: StreamPart,
                                       rest: seq<StreamPart>, next: Metadata)
    requires FirstBlock(rules, seen).None? && FirstBlock(rules, seen + TextOf(part)).Some?
    requires LoadCarry(next) == LastChars(seen, CARRY_CHARS) && next - {PLUGIN_ID} == metadata - {PLUGIN_ID}
    ensures GuardedRun(rules, seen, metadata, [part] + rest,
                       Trace([], Some(FirstBlock(rules, seen + TextOf(part)).value), next))
  {
    SeenAfterNone(seen, [part] + rest);
    SeenAfterCons(seen, part, rest, 0);
    SeenAfterNone(seen + TextOf(part), rest);
  }

  /** Over every run with short `Block` words, the hook aborts at the first part
      that completes a match in the text so far, with that rule's name; the parts
      before it come out one for one, of the same kind and redacted; the stored
      window is the last 128 characters; other metadata is untouched. */
  lemma {:induction false} HookRunIsGuarded(rules: Rules, seen: string, metadata: Metadata, parts: seq<StreamPart>)
    requires rules != [] && BlockWordsWithin(rules, CARRY_CHARS + 1)
    requires FirstBlock(rules, seen).None?
    requires LoadCarry(metadata) == LastChars(seen, CARRY_CHARS)
    ensures GuardedRun(rules, seen, metadata, parts, HookRun(Some(rules), metadata, parts))
    decreases parts
  {
    if parts == [] {
      GuardedEnd(rules, seen, metadata);
    } else {
      var part, rest := parts[0], parts[1..];
      var next := ProcessStep(Some(rules), metadata, part).1;
      HeadAndTail(parts);
      HookRunCons(Some(rules), metadata, part, rest);
      GuardedStep(rules, seen, metadata, part);
      if FirstBlock(rules, seen + TextOf(part)).Some? {
        GuardedStop(rules, seen, metadata, part, rest, next);
      } else {
        HookRunIsGuarded(rules, seen + TextOf(part), next, rest);
        GuardedCons(rules, seen, metadata, part, rest, next, HookRun(Some(rules), next, rest));
      }
    }
  }

  /** What one text-bearing part does, in terms of the carry alone. */
  ghost predicate StepOutcome(rules: Rules, carry: string, part: StreamPart, r: Result<seq<StreamPart>, string>,
                              next: string)
    requires HasText(part)
  {
    match Verdict(rules, carry, part.text)
    case Blocked(name) => r == Err(name) && next == carry
    case Emit(text) => r == Ok([Rebuild(part, text)]) && next == LastChars(carry + part.text, CARRY_CHARS)
  }

  lemma {:induction false} ProcessOutcome(rules: Rules, metadata: Metadata, part: StreamPart)
    requires rules != [] && HasText(part)
    ensures var (r, next) := ProcessStep(Some(rules), metadata, part);
            && StepOutcome(rules, LoadCarry(metadata), part, r, LoadCarry(next))
            && next - {PLUGIN_ID} == metadata - {PLUGIN_ID}
  {
  }

  lemma {:induction false} GuardedOutcome(rules: Rules, seen: string, part: StreamPart,
                                          r: Result<seq<StreamPart>, string>, next: string)
    requires BlockWordsWithin(rules, CARRY_CHARS + 1) && FirstBlock(rules, seen).None? && HasText(part)
    requires StepOutcome(rules, LastChars(seen, CARRY_CHARS), part, r, next)
    ensures var hit := FirstBlock(rules, seen + TextOf(part));
            && r == (if hit.Some? then Err(hit.value) else Ok([RedactPart(rules, part)]))
            && next == LastChars(if hit.Some? then seen else seen + TextOf(part), CARRY_CHARS)
  {
    LastCharsSuffice(rules, seen, part.text);
  }

  lemma {:induction false} GuardedStep(rules: Rules, seen: string, metadata: Metadata, part: StreamPart)
    requires rules != [] && BlockWordsWithin(rules, CARRY_CHARS + 1)
    requires FirstBlock(rules, seen).None?
    requires LoadCarry(metadata) == LastChars(seen, CARRY_CHARS)
    ensures var (r, next) := ProcessStep(Some(rules), metadata, part);
            var hit := FirstBlock(rules, seen + TextOf(part));
            && r == (if hit.Some? then Err(hit.value) else Ok([RedactPart(rules, part)]))
            && next - {PLUGIN_ID} == metadata - {PLUGIN_ID}
            && LoadCarry(next) == LastChars(if hit.Some? then seen else seen + TextOf(part), CARRY_CHARS)
  {
    if HasText(part) {
      var (r, next) := ProcessStep(Some(rules), metadata, part);
      ProcessOutcome(rules, metadata, part);
      GuardedOutcome(rules, seen, part, r, LoadCarry(next));
    } else {
      AppendNothing(seen);
    }
  }

  /** A fresh stream, end to end. */
  lemma {:induction false} FreshStreamIsGuarded(rules: Rules, metadata: Metadata, parts: seq<StreamPart>)
    requires rules != [] && BlockWordsWithin(rules, CARRY_CHARS + 1)
    requires LoadCarry(metadata) == ""
    ensures GuardedRun(rules, "", metadata, parts, HookRun(Some(rules), metadata, parts))
  {
    EmptyTextPasses(rules);
    HookRunIsGuarded(rules, "", metadata, parts);
  }

  /** Without a rule set, or with an empty one, the stream passes untouched. */
  lemma {:induction false} NoRulesPass(rules: Option<Rules>, metadata: Metadata, parts: seq<StreamPart>)
    requires rules == None || rules == Some([])
    ensures HookRun(rules, metadata, parts) == Trace(parts, None, metadata)
    decreases parts
  {
    if parts != [] {
      NoRulesPass(rules, metadata, parts[1..]);
      assert [parts[0]] + parts[1..] == parts;
    }
  }

  /** The text that leaves a stream that was not aborted is the redaction of the
      text that entered it, when no `Redact` word straddles a delta boundary. */
  lemma {:induction false} HookEmitsRedactedText(rules: Rules, metadata: Metadata, parts: seq<StreamPart>)
    requires rules != [] && LoadCarry(metadata) == ""
    requires GuardrailRedaction.Untouchable(rules)
    requires GuardrailRedaction.BoundariesClear(rules, Deltas(parts))
    requires HookRun(Some(rules), metadata, parts).abort.None?
    ensures Received(HookRun(Some(rules), metadata, parts).emitted) == RedactText(rules, Received(parts))
  {
    HookIsOneMatcher(rules, metadata, parts);
    EmittedDeltasText(Run(rules, "", Deltas(parts)));
    DeltasText(HookRun(Some(rules), metadata, parts).emitted);
    GuardrailRedaction.StreamEmitsRedactedText(rules, Deltas(parts));
    DeltasText(parts);
  }
}
