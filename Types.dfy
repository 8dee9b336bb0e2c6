/** The records every part of the chat client exchanges (types.ts). */
module Types {

  /** Who wrote a message: the person at the keyboard, or the model. */
  datatype Role = User | Ai

  /**
   * One chat message. In the source `isError` is optional; an absent flag is
   * modelled as `false`, which is how every reader of the flag treats it.
   */
  datatype Message = Message(id: string, role: Role, content: string, timestamp: int, isError: bool)

  /** A persisted conversation: its messages in append order and the model it uses. */
  datatype ChatSession = ChatSession(
    id: string,
    title: string,
    messages: seq<Message>,
    lastModified: int,
    model: string)

  /** The model identifiers the user can choose from; the first is the default. */
  const AvailableModels: seq<string> := [
    "claude-sonnet-4.5",
    "gpt-5",
    "grok-4",
    "gemini-2.5-pro",
    "kyvex",
    "kyvex-labs-deep-research",
    "gemini-imagen-4"
  ]
}
