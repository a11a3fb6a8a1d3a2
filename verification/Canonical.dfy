/** The canonical content and stream parts that every provider is translated to
    and from (crates/bitrouter-sdk/src/language_model/types.rs). */
module Canonical {
  import opened Wrappers
  import Json

  type Metadata = map<string, Json.Value>

  datatype Role = System | User | Assistant | Tool

  datatype DataContent = Base64(data: string) | Url(url: string)

  datatype ToolResultPart =
    | TextPart(text: string)
    | MediaPart(mediaType: string, data: DataContent)
    | FileIdPart(fileMediaType: Option<string>, fileId: string)

  datatype ToolResultOutput =
    | TextOutput(text: string)
    | JsonOutput(value: Json.Value)
    | ErrorText(text: string)
    | ErrorJson(value: Json.Value)
    | ContentOutput(parts: seq<ToolResultPart>)
    | ExecutionDenied(reason: Option<string>)

  datatype Content =
    | Text(text: string, metadata: Metadata)
    | Reasoning(text: string, metadata: Metadata)
    | File(mediaType: string, data: DataContent, filename: Option<string>, metadata: Metadata)
    | ToolCall(id: string, name: string, arguments: string, providerExecuted: bool, dynamic: bool, metadata: Metadata)
    | ToolResult(callId: string, toolName: Option<string>, output: ToolResultOutput, dynamic: bool, metadata: Metadata)
    | Source(source: string, metadata: Metadata)
    | ToolApprovalRequest(approvalId: string, toolCallId: string, metadata: Metadata)
    | ToolApprovalResponse(approvalId: string, approved: bool, reason: Option<string>, metadata: Metadata)

  datatype Message = Message(role: Role, content: seq<Content>)

  datatype Prompt = Prompt(system: Option<string>, messages: seq<Message>)

  datatype FinishReason = Stop | Length | ToolCalls | ContentFilter | Other(reason: string)

  datatype Usage = Usage(promptTokens: nat, completionTokens: nat, reasoningTokens: nat, cacheReadTokens: nat,
                         cacheWriteTokens: nat)

  datatype StreamPart =
    | TextStart(blockId: string)
    | TextDelta(text: string)
    | TextEnd(blockId: string)
    | ReasoningStart(blockId: string)
    | ReasoningDelta(text: string)
    | ReasoningEnd(blockId: string)
    | ToolCallDelta(id: string, name: Option<string>, arguments: string)
    | ServerToolCall(id: string, toolName: string, arguments: string, serverName: Option<string>, dynamic: bool)
    | ServerToolResult(callId: string, resultName: Option<string>, output: ToolResultOutput, dynamic: bool)
    | FilePart(mediaType: string, data: DataContent)
    | SourcePart(source: string)
    | UsagePart(usage: Usage)
    | ResponseStarted(responseId: string)
    | Finish(reason: FinishReason)
    | ResponseCompleted(responseId: string, status: string, finalUsage: Option<Usage>)

  /** The text parts of a multimodal result, joined. */
  function PartsText(parts: seq<ToolResultPart>): string {
    if parts == [] then ""
    else (if parts[0].TextPart? then parts[0].text else "") + PartsText(parts[1..])
  }

  const DENIED: string := "Tool call execution denied."

  predicate IsError(output: ToolResultOutput) {
    output.ErrorText? || output.ErrorJson?
  }

  /** A tool result collapsed to one string; `show` is the JSON printer. */
  function ProviderString(output: ToolResultOutput, show: Json.Value -> string): string {
    match output
    case TextOutput(text) => text
    case ErrorText(text) => text
    case JsonOutput(value) => show(value)
    case ErrorJson(value) => show(value)
    case ContentOutput(parts) => PartsText(parts)
    case ExecutionDenied(reason) => if reason.Some? then reason.value else DENIED
  }
}
