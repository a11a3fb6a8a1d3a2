/** Translation between the canonical content and Bedrock Converse blocks
    (crates/bitrouter-bedrock/src/lib.rs). */
module BedrockContent {
  import opened Wrappers
  import opened Canonical
  import Json

  // ------------------------------------------------------- JSON and documents

  datatype DocumentNumber = PosInt(u: Json.U64) | NegInt(i: Json.I64) | Float(d: Json.Double)

  /** The SDK's own JSON-like value. */
  datatype Document =
    | Null
    | Bool(b: bool)
    | Number(n: DocumentNumber)
    | String(s: string)
    | Array(items: seq<Document>)
    | Object(entries: map<string, Document>)

  /** Integers that fit an `i64` travel as `NegInt`, whatever their sign; only
      larger ones travel as `PosInt`. */
  function NumberToDocument(n: Json.Number): DocumentNumber {
    match n
    case PosInt(u) => if u <= Json.I64_MAX then NegInt(u) else PosInt(u)
    case NegInt(i) => NegInt(i)
    case Float(bits) => Float(Json.Finite(bits))
  }

  function JsonToDocument(v: Json.Value): Document {
    match v
    case Null => Null
    case Bool(b) => Bool(b)
    case Num(n) => Number(NumberToDocument(n))
    case String(s) => String(s)
    case Array(items) => Array(seq(|items|, i requires 0 <= i < |items| => JsonToDocument(items[i])))
    case Object(entries) => Object(map k | k in entries :: JsonToDocument(entries[k]))
  }

  function NumberToJson(n: DocumentNumber): Json.Value {
    match n
    case NegInt(i) => Json.Num(if i < 0 then Json.NegInt(i) else Json.PosInt(i))
    case PosInt(u) => Json.Num(Json.PosInt(u))
    case Float(d) => if d.Finite? then Json.Num(Json.Float(d.bits)) else Json.Null
  }

  function DocumentToJson(d: Document): Json.Value {
    match d
    case Null => Json.Null
    case Bool(b) => Json.Bool(b)
    case Number(n) => NumberToJson(n)
    case String(s) => Json.String(s)
    case Array(items) => Json.Array(seq(|items|, i requires 0 <= i < |items| => DocumentToJson(items[i])))
    case Object(entries) => Json.Object(map k | k in entries :: DocumentToJson(entries[k]))
  }

  /** Every JSON tree survives the trip through a document. */
  lemma {:induction false} JsonSurvives(v: Json.Value)
    ensures DocumentToJson(JsonToDocument(v)) == v
  {
    match v
    case Array(items) =>
      forall i | 0 <= i < |items| ensures DocumentToJson(JsonToDocument(items[i])) == items[i] {
        JsonSurvives(items[i]);
      }
    case Object(entries) =>
      forall k | k in entries ensures DocumentToJson(JsonToDocument(entries[k])) == entries[k] {
        JsonSurvives(entries[k]);
      }
      var there := JsonToDocument(v).entries;
      assert there.Keys == entries.Keys;
      assert (map k | k in there :: DocumentToJson(there[k])) == entries;
    case _ =>
  }

  /** The documents that JSON values turn into. */
  predicate Canonic(d: Document) {
    match d
    case Number(PosInt(u)) => u > Json.I64_MAX
    case Number(Float(x)) => x.Finite?
    case Array(items) => forall i :: 0 <= i < |items| ==> Canonic(items[i])
    case Object(entries) => forall k :: k in entries ==> Canonic(entries[k])
    case _ => true
  }

  lemma {:induction false} JsonDocumentsAreCanonic(v: Json.Value)
    ensures Canonic(JsonToDocument(v))
  {
    match v
    case Array(items) =>
      forall i | 0 <= i < |items| ensures Canonic(JsonToDocument(items[i])) {
        JsonDocumentsAreCanonic(items[i]);
      }
    case Object(entries) =>
      forall k | k in entries ensures Canonic(JsonToDocument(entries[k])) {
        JsonDocumentsAreCanonic(entries[k]);
      }
    case _ =>
  }

  /** A document survives the trip through JSON exactly when it is one that a
      JSON value turns into. */
  lemma {:induction false} DocumentSurvivesIff(d: Document)
    ensures JsonToDocument(DocumentToJson(d)) == d <==> Canonic(d)
  {
    match d
    case Array(items) =>
      var back := JsonToDocument(DocumentToJson(d)).items;
      forall i | 0 <= i < |items| ensures back[i] == items[i] <==> Canonic(items[i]) {
        DocumentSurvivesIff(items[i]);
      }
      assert back == items <==> forall i :: 0 <= i < |items| ==> back[i] == items[i];
    case Object(entries) =>
      var back := JsonToDocument(DocumentToJson(d)).entries;
      assert back.Keys == entries.Keys;
      forall k | k in entries ensures back[k] == entries[k] <==> Canonic(entries[k]) {
        DocumentSurvivesIff(entries[k]);
      }
      assert back == entries <==> forall k :: k in entries ==> back[k] == entries[k];
    case _ =>
  }

  // ------------------------------------------------------------ content blocks

  datatype Status = Success | Error

  datatype ResultBlock = ResultText(text: string) | ResultJson(doc: Document) | ResultOther

  datatype ContentBlock =
    | TextBlock(text: string)
    | ToolUseBlock(id: string, name: string, input: Document)
    | ToolResultBlock(toolUseId: string, content: seq<ResultBlock>, status: Option<Status>)
    | OtherBlock

  datatype RenderError = InvalidArguments | BuildFailed

  /** The outside world: a JSON parser and printer, and whether the SDK's builder
      accepts a tool result with no content block. */
  datatype Codec = Codec(parse: string -> Option<Json.Value>, show: Json.Value -> string, emptyResultBuilds: bool) {
    /** Printing and parsing are inverse. */
    ghost predicate Valid() {
      forall v :: parse(show(v)) == Some(v)
    }
  }

  // ------------------------------------------------------ canonical to Bedrock

  function TextBlocks(parts: seq<ToolResultPart>): seq<ResultBlock> {
    if parts == [] then []
    else (if parts[0].TextPart? then [ResultText(parts[0].text)] else []) + TextBlocks(parts[1..])
  }

  function RenderOutput(codec: Codec, output: ToolResultOutput): seq<ResultBlock> {
    match output
    case TextOutput(text) => [ResultText(text)]
    case ErrorText(text) => [ResultText(text)]
    case JsonOutput(value) => [ResultJson(JsonToDocument(value))]
    case ErrorJson(value) => [ResultJson(JsonToDocument(value))]
    case ContentOutput(parts) => TextBlocks(parts)
    case ExecutionDenied(_) => [ResultText(ProviderString(output, codec.show))]
  }

  /** The block for one content part: none when Bedrock has no place for it. */
  function RenderOne(codec: Codec, c: Content): Result<Option<ContentBlock>, RenderError> {
    match c
    case Text(text, _) => Ok(Some(TextBlock(text)))
    case ToolCall(id, name, arguments, _, _, _) =>
      (match codec.parse(arguments)
       case None => Err(InvalidArguments)
       case Some(v) => Ok(Some(ToolUseBlock(id, name, JsonToDocument(v)))))
    case ToolResult(callId, _, output, _, _) =>
      var blocks := RenderOutput(codec, output);
      if blocks == [] && !codec.emptyResultBuilds then Err(BuildFailed)
      else Ok(Some(ToolResultBlock(callId, blocks, if IsError(output) then Some(Error) else None)))
    case _ => Ok(None)
  }

  function Keep<T>(item: Option<T>): seq<T> {
    match item case Some(x) => [x] case None => []
  }

  /** All parts rendered in order; the first failure is the result. */
  function RenderAll(codec: Codec, contents: seq<Content>): Result<seq<ContentBlock>, RenderError> {
    if contents == [] then Ok([])
    else
      var n := |contents| - 1;
      match RenderAll(codec, contents[..n])
      case Err(e) => Err(e)
      case Ok(before) =>
        match RenderOne(codec, contents[n])
        case Err(e) => Err(e)
        case Ok(last) => Ok(before + Keep(last))
  }

  lemma {:induction false} RenderErrorStays(codec: Codec, contents: seq<Content>, k: nat)
    requires k <= |contents| && RenderAll(codec, contents[..k]).Err?
    ensures RenderAll(codec, contents) == RenderAll(codec, contents[..k])
  {
    if k == |contents| {
      assert contents[..k] == contents;
    } else {
      var init := contents[..|contents| - 1];
      assert init[..k] == contents[..k];
      RenderErrorStays(codec, init, k);
    }
  }

  method RenderContent(codec: Codec, c: Content) returns (r: Result<Option<ContentBlock>, RenderError>)
    ensures r == RenderOne(codec, c)
  {
    match c {
      case Text(text, _) =>
        return Ok(Some(TextBlock(text)));
      case ToolCall(id, name, arguments, _, _, _) =>
        var v := codec.parse(arguments);
        if v.None? {
          return Err(InvalidArguments);
        }
        return Ok(Some(ToolUseBlock(id, name, JsonToDocument(v.value))));
      case ToolResult(callId, _, output, _, _) =>
        var status := if IsError(output) then Some(Error) else None;
        var blocks := RenderOutput(codec, output);
        if blocks == [] && !codec.emptyResultBuilds {
          return Err(BuildFailed);
        }
        return Ok(Some(ToolResultBlock(callId, blocks, status)));
      case _ =>
        return Ok(None);
    }
  }

  method CanonicalContentToBedrock(codec: Codec, contents: seq<Content>)
    returns (r: Result<seq<ContentBlock>, RenderError>)
    ensures r == RenderAll(codec, contents)
  {
    var out: seq<ContentBlock> := [];
    for i := 0 to |contents|
      invariant RenderAll(codec, contents[..i]) == Ok(out)
    {
      assert contents[..i + 1][..i] == contents[..i];
      var block := RenderContent(codec, contents[i]);
      if block.Err? {
        RenderErrorStays(codec, contents, i + 1);
        return Err(block.error);
      }
      out := out + Keep(block.value);
    }
    assert contents[..|contents|] == contents;
    return Ok(out);
  }

  // ------------------------------------------------------ Bedrock to canonical

  /** The text blocks of a tool result, joined. */
  function ResultTexts(blocks: seq<ResultBlock>): string {
    if blocks == [] then ""
    else (if blocks[0].ResultText? then blocks[0].text else "") + ResultTexts(blocks[1..])
  }

  /** A lone JSON block is a structured output; anything else is its joined text. */
  function ParseOutput(blocks: seq<ResultBlock>, status: Option<Status>): ToolResultOutput {
    var isError := status == Some(Error);
    if |blocks| == 1 && blocks[0].ResultJson? then
      var value := DocumentToJson(blocks[0].doc);
      if isError then ErrorJson(value) else JsonOutput(value)
    else if isError then ErrorText(ResultTexts(blocks))
    else TextOutput(ResultTexts(blocks))
  }

  function ParseOne(codec: Codec, b: ContentBlock): Option<Content> {
    match b
    case TextBlock(text) => Some(Text(text, map[]))
    case ToolUseBlock(id, name, input) =>
      Some(ToolCall(id, name, codec.show(DocumentToJson(input)), false, false, map[]))
    case ToolResultBlock(id, content, status) =>
      Some(ToolResult(id, None, ParseOutput(content, status), false, map[]))
    case OtherBlock => None
  }

  function ParseAll(codec: Codec, blocks: seq<ContentBlock>): seq<Content> {
    if blocks == [] then []
    else ParseAll(codec, blocks[..|blocks| - 1]) + Keep(ParseOne(codec, blocks[|blocks| - 1]))
  }

  method ParseBlock(codec: Codec, b: ContentBlock) returns (r: Option<Content>)
    ensures r == ParseOne(codec, b)
  {
    match b {
      case TextBlock(text) =>
        return Some(Text(text, map[]));
      case ToolUseBlock(id, name, input) =>
        var arguments := codec.show(DocumentToJson(input));
        return Some(ToolCall(id, name, arguments, false, false, map[]));
      case ToolResultBlock(id, content, status) =>
        var isError := status == Some(Error);
        var output;
        if |content| == 1 && content[0].ResultJson? {
          var value := DocumentToJson(content[0].doc);
          output := if isError then ErrorJson(value) else JsonOutput(value);
        } else {
          var text := ResultTexts(content);
          output := if isError then ErrorText(text) else TextOutput(text);
        }
        return Some(ToolResult(id, None, output, false, map[]));
      case OtherBlock =>
        return None;
    }
  }

  method BedrockContentToCanonical(codec: Codec, blocks: seq<ContentBlock>) returns (out: seq<Content>)
    ensures out == ParseAll(codec, blocks)
  {
    out := [];
    for i := 0 to |blocks|
      invariant out == ParseAll(codec, blocks[..i])
    {
      assert blocks[..i + 1][..i] == blocks[..i];
      var content := ParseBlock(codec, blocks[i]);
      out := out + Keep(content);
    }
    assert blocks[..|blocks|] == blocks;
  }

  // --------------------------------------------------------------- round trip

  /** What Bedrock can express of a tool result. */
  function NormalOutput(output: ToolResultOutput): ToolResultOutput {
    match output
    case ContentOutput(parts) => TextOutput(PartsText(parts))
    case ExecutionDenied(reason) => TextOutput(if reason.Some? then reason.value else DENIED)
    case _ => output
  }

  /** What Bedrock can express of a content part: text and tool traffic, without
      metadata, flags or tool name, and with arguments in printed form. */
  function NormalForm(codec: Codec, c: Content): Option<Content> {
    match c
    case Text(text, _) => Some(Text(text, map[]))
    case ToolCall(id, name, arguments, _, _, _) =>
      var v := codec.parse(arguments);
      Some(ToolCall(id, name, if v.Some? then codec.show(v.value) else arguments, false, false, map[]))
    case ToolResult(callId, _, output, _, _) => Some(ToolResult(callId, None, NormalOutput(output), false, map[]))
    case _ => None
  }

  function NormalForms(codec: Codec, contents: seq<Content>): seq<Content> {
    if contents == [] then []
    else NormalForms(codec, contents[..|contents| - 1]) + Keep(NormalForm(codec, contents[|contents| - 1]))
  }

  /** The part cannot be sent: bad JSON arguments, or a result with nothing left in it. */
  predicate Unrenderable(codec: Codec, c: Content) {
    || (c.ToolCall? && codec.parse(c.arguments).None?)
    || (c.ToolResult? && !codec.emptyResultBuilds && c.output.ContentOutput?
        && forall i :: 0 <= i < |c.output.parts| ==> !c.output.parts[i].TextPart?)
  }

  lemma {:induction false} TextBlocksJoin(parts: seq<ToolResultPart>)
    ensures ResultTexts(TextBlocks(parts)) == PartsText(parts)
    ensures forall i :: 0 <= i < |TextBlocks(parts)| ==> TextBlocks(parts)[i].ResultText?
  {
    if parts != [] {
      TextBlocksJoin(parts[1..]);
      if parts[0].TextPart? {
        assert TextBlocks(parts)[1..] == TextBlocks(parts[1..]);
      } else {
        assert TextBlocks(parts) == TextBlocks(parts[1..]);
      }
    }
  }

  lemma {:induction false} NoTextBlocks(parts: seq<ToolResultPart>)
    ensures TextBlocks(parts) == [] <==> forall i :: 0 <= i < |parts| ==> !parts[i].TextPart?
  {
    if parts != [] {
      NoTextBlocks(parts[1..]);
      assert forall i :: 0 < i < |parts| ==> parts[i] == parts[1..][i - 1];
    }
  }

  lemma {:induction false} OutputRoundTrip(codec: Codec, output: ToolResultOutput)
    ensures ParseOutput(RenderOutput(codec, output), if IsError(output) then Some(Error) else None) ==
            NormalOutput(output)
  {
    match output
    case ContentOutput(parts) =>
      TextBlocksJoin(parts);
    case JsonOutput(value) =>
      JsonSurvives(value);
    case ErrorJson(value) =>
      JsonSurvives(value);
    case _ =>
      var blocks := RenderOutput(codec, output);
      assert blocks[1..] == [];
      assert ResultTexts(blocks) == blocks[0].text + "";
  }

  lemma {:induction false} OneRoundTrip(codec: Codec, c: Content)
    ensures RenderOne(codec, c).Err? <==> Unrenderable(codec, c)
    ensures RenderOne(codec, c).Ok? ==>
              match RenderOne(codec, c).value
              case Some(b) => ParseOne(codec, b) == NormalForm(codec, c)
              case None => NormalForm(codec, c).None?
  {
    match c
    case ToolCall(_, _, arguments, _, _, _) =>
      var v := codec.parse(arguments);
      if v.Some? {
        JsonSurvives(v.value);
      }
    case ToolResult(_, _, output, _, _) =>
      OutputRoundTrip(codec, output);
      if output.ContentOutput? {
        TextBlocksJoin(output.parts);
        NoTextBlocks(output.parts);
      }
    case _ =>
  }

  /** Rendering fails exactly on an unrenderable part; otherwise parsing the
      blocks gives back the representable parts, in order, in normal form. */
  lemma {:induction false} ContentRoundTrip(codec: Codec, contents: seq<Content>)
    ensures RenderAll(codec, contents).Err? <==> exists i :: 0 <= i < |contents| && Unrenderable(codec, contents[i])
    ensures RenderAll(codec, contents).Ok? ==>
              ParseAll(codec, RenderAll(codec, contents).value) == NormalForms(codec, contents)
  {
    if contents != [] {
      var n := |contents| - 1;
      var init := contents[..n];
      OneRoundTrip(codec, contents[n]);
      ContentRoundTrip(codec, init);
      assert forall i :: 0 <= i < n ==> contents[i] == init[i];
      if RenderAll(codec, contents).Ok? {
        var last := RenderOne(codec, contents[n]).value;
        ParseKeep(codec, RenderAll(codec, init).value, last);
      }
    }
  }

  lemma {:induction false} ParseKeep(codec: Codec, blocks: seq<ContentBlock>, last: Option<ContentBlock>)
    ensures ParseAll(codec, blocks + Keep(last)) ==
            ParseAll(codec, blocks) + match last { case Some(b) => Keep(ParseOne(codec, b)) case None => [] }
  {
    if last.Some? {
      assert (blocks + [last.value])[..|blocks|] == blocks;
    } else {
      assert blocks + [] == blocks;
      assert ParseAll(codec, blocks) + [] == ParseAll(codec, blocks);
    }
  }

  lemma {:induction false} NormalFormIsNormal(codec: Codec, c: Content)
    requires codec.Valid() && NormalForm(codec, c).Some?
    ensures NormalForm(codec, NormalForm(codec, c).value) == NormalForm(codec, c)
    ensures Unrenderable(codec, NormalForm(codec, c).value) ==> Unrenderable(codec, c)
  {
  }

  /** The normal form is idempotent, and can be sent whenever the original can. */
  lemma {:induction false} NormalFormsAreNormal(codec: Codec, contents: seq<Content>)
    requires codec.Valid()
    ensures NormalForms(codec, NormalForms(codec, contents)) == NormalForms(codec, contents)
    ensures RenderAll(codec, contents).Ok? ==> RenderAll(codec, NormalForms(codec, contents)).Ok?
  {
    if contents != [] {
      var n := |contents| - 1;
      var c, before := contents[n], NormalForms(codec, contents[..n]);
      NormalFormsAreNormal(codec, contents[..n]);
      var normal := NormalForm(codec, c);
      if normal.Some? {
        assert (before + [normal.value])[..|before|] == before;
        NormalFormIsNormal(codec, c);
        OneRoundTrip(codec, normal.value);
        OneRoundTrip(codec, c);
      } else {
        assert before + [] == before;
      }
    }
  }
}
