/** The shared records of the chat client: engine modes, grounding sources,
    message parts, messages and sessions. */
module Types {
  import opened Basics

  /** The three request targets. */
  datatype EngineMode = Flash | Ultra | LocalX1

  /** The string value each enum member carries. */
  function ModeName(m: EngineMode): string {
    match m
    case Flash => "Muntasir-Flash"
    case Ultra => "Muntasir-Ultra"
    case LocalX1 => "Sovereign-Core-X1"
  }

  lemma ModeNameInjective(a: EngineMode, b: EngineMode)
    ensures ModeName(a) == ModeName(b) <==> a == b
  {
  }

  datatype GroundingSource = GroundingSource(title: string, uri: string)

  /** A part may carry text, an image data URI, both or neither. */
  datatype MessagePart = MessagePart(text: Option<string>, image: Option<string>)

  function TextPart(t: string): MessagePart { MessagePart(Some(t), None) }
  function ImagePart(img: string): MessagePart { MessagePart(None, Some(img)) }

  datatype Role = User | Model

  datatype Message = Message(
    id: string,
    role: Role,
    content: seq<MessagePart>,
    mode: Option<EngineMode>,
    timestamp: int,
    sources: Option<seq<GroundingSource>>,
    isThinking: Option<bool>,
    modelName: Option<string>)

  datatype Session = Session(
    id: string,
    title: string,
    messages: seq<Message>,
    lastUpdated: int)
}
