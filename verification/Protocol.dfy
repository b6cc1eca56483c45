/** The frames of an agent's socket that the chat and its journal deal in. */
module Protocol {
  import opened Util

  /** The origin that a message and its turn carry along. */
  datatype Source = Source(
    endpoint: string,
    sender: Option<string>,
    images: seq<string>,
    attachments: seq<string>,
    agentSender: Option<string>)

  /** A message waiting for the agent to read it, as pages are told of it. */
  datatype Queued = Queued(
    id: string,
    content: string,
    images: seq<string>,
    attachments: seq<string>,
    sender: Option<string>,
    endpoint: string)

  datatype DeltaKind = TextDelta | ThinkingDelta

  datatype Frame =
    | UserMessage(id: string, turn: string, content: string, source: Source)
    | TurnStarted(turn: string, source: Source)
    | TurnEnded(turn: string)
    | TurnUsage(turn: string, outputTokens: nat)
    | Delta(kind: DeltaKind, turn: string, call: nat, text: string)
    /** A tool call or result, a complete thought or text, or a stream's restart. */
    | Progress(turn: string, detail: string)
    /** A reply, with the empty turn when no turn posted it. */
    | Response(turn: string, reply: string)
    | MessageQueued(message: Queued)
    | MessageWithdrawn(id: string)
    /** A frame of no main-agent turn, such as an error or a notice. */
    | Untracked(detail: string)

  /** The id by which a frame names its turn, when it names one. */
  function TurnOf(frame: Frame): Option<string>
  {
    match frame
    case UserMessage(_, turn, _, _) => Some(turn)
    case TurnStarted(turn, _) => Some(turn)
    case TurnEnded(turn) => Some(turn)
    case TurnUsage(turn, _) => Some(turn)
    case Delta(_, turn, _, _) => Some(turn)
    case Progress(turn, _) => Some(turn)
    case Response(turn, _) => if turn == "" then None else Some(turn)
    case MessageQueued(_) => None
    case MessageWithdrawn(_) => None
    case Untracked(_) => None
  }
}
