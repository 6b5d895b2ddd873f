/** The JSON shapes the chat client and the backend exchange. */
module Wire {

  /** A value that may be absent: a missing dictionary key in Python, or
      `undefined` for a missing object property in JavaScript. */
  datatype Option<T> = None | Some(value: T)

  /** One entry of `conversationHistory`: `{"role": ..., "content": ...}`. */
  datatype Message = Message(role: string, content: string)

  /** One bubble of the chat transcript: `{id, text, isAI}`. */
  datatype DisplayMessage = DisplayMessage(id: int, text: string, isAI: bool)

  /** The body of `POST /api/message`. */
  datatype PromptRequest = PromptRequest(prompt: string, conversationHistory: seq<Message>)

  const SystemRole := "system"
  const UserRole := "user"
  const AssistantRole := "assistant"
}
