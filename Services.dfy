/** The two external AI services, as oracles: what each returns for a given
    input, or the message of the error it throws. */
module Services {
  import opened JsValues

  /** An embedding: the provider's `embedding.values`, opaque to the backend. */
  type Vector = seq<real>

  datatype EmbedReply = Embedded(values: Vector) | EmbedFailed(message: Text)

  /** `getEmbedding`: the embedding model's answer for a text. */
  type Embedder = Text -> EmbedReply

  datatype GenerateReply = Generated(text: Text) | GenerateFailed(message: Text)

  /** `model.generateContent(prompt)` followed by `result.response.text()`. */
  type Generator = Text -> GenerateReply
}
