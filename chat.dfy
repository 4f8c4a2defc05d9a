/** The chat-completion call that both Doubao scripts make through the Ark SDK
    (get_completion_from_messages), seen as data: the request, and the remote model as an
    oracle from a request to the reply text or an error. */
module Chat {
  import opened Wrappers

  datatype Message = Message(role: string, content: string)

  /** One call: the model endpoint, the host that forms the base URL, the messages, the
      temperature in tenths (both scripts use 0.8) and max_tokens (both use 2048). */
  datatype ChatRequest = ChatRequest(
    endpointId: string, apiHost: string, messages: seq<Message>,
    temperatureTenths: nat, maxTokens: nat)

  /** The remote model. */
  type Completion = ChatRequest -> Result<string, string>

  /** A request with the scripts' fixed settings: a system message, then one user message. */
  function SystemAndUser(endpointId: string, apiHost: string, system: string, user: string)
    : ChatRequest
  {
    ChatRequest(endpointId, apiHost,
                [Message("system", system), Message("user", user)], 8, 2048)
  }
}
