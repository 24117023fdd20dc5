/** The chat-completion endpoint as the application sees it: the request it posts
    and the two ways a call can go wrong. The HTTP transport itself is not modelled;
    each call's outcome is an input to the operations that make it. */
module Endpoint {

  /** The model every request names. */
  const ModelName: string := "meta-llama/Meta-Llama-3-8B-Instruct"

  /** `max_tokens` of every request. */
  const MaxTokens: nat := 512

  /** The warning sign (U+26A0 followed by the emoji presentation selector U+FE0F)
      that starts every error text shown in place of a completion. */
  const WarningSign: string := "\U{26A0}\U{FE0F}"

  datatype Role = System | User | Assistant

  datatype Message = Message(role: Role, content: string)

  /** The JSON body posted to the endpoint. */
  datatype Request = Request(model: string, messages: seq<Message>, temperature: real, maxTokens: nat)

  /** What reading `response.json()["choices"][0]["message"]["content"]` gives: the
      completion text, or the text of the exception raised while decoding it. */
  datatype Reply = Content(text: string) | Malformed(error: string)

  /** One call of `requests.post` that comes back: either it returns a response
      whose body is read as a `Reply`, or it raises (connection refused, a broken
      connection, ...), which nothing in the application catches. A call that never
      comes back is not modelled: no timeout is set on it. */
  datatype Exchange = Responded(reply: Reply) | PostRaised(error: string)
}
