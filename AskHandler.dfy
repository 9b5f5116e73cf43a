/** The `POST /ask` handler: validate the question, embed it, build the
    context and the prompt, and forward the prompt to the generation model. */
module AskHandler {
  import opened JsValues
  import opened Services
  import opened Retrieval

  /** What the handler sends back: status 400, 200 or 500 with its JSON body. */
  datatype Response = BadRequest(error: Text) | Ok(answer: Text) | ServerError(error: Text)

  function Status(r: Response): nat
  {
    match r
    case BadRequest(_) => 400
    case Ok(_) => 200
    case ServerError(_) => 500
  }

  /** An outbound call to one of the two services, in the order it is made. */
  datatype Call = EmbedCall(input: Text) | GenerateCall(prompt: Text)

  /** The response together with the calls made to produce it. */
  datatype Exchange = Exchange(response: Response, calls: seq<Call>)

  const QuestionRequired: Text := Units("Question is required")

  /** The fixed instruction the prompt starts with. */
  const InstructionString: string := "Use the following context to answer the question, and if the answer is not directly available in the context then use your own intelligence and give appropriate and correct answer. Don't use assterics (*) symbol while answering:"
  const Instruction: Text := Units(InstructionString)

  /** What separates the context from the question. */
  const QuestionLabel: Text := Units("\n\nQuestion: ")

  /** `!question` for the values the model covers: a missing field and the
      empty string are falsy, every other string is truthy. */
  predicate IsFalsy(question: Option<Text>)
  {
    question.None? || question.value == []
  }

  /** What precedes the context in every prompt. */
  const PromptHead: Text := Instruction + [LF]

  lemma SplitConcat(a: Text, b: Text)
    ensures (a + b)[..|a|] == a && (a + b)[|a|..] == b
  {
  }

  /** The prompt template: the instruction and a newline, the context, the
      question label, the question. */
  function Prompt(context: Text, question: Text): (r: Text)
    ensures |r| == |PromptHead| + |context| + |QuestionLabel| + |question|
    ensures r[..|PromptHead|] == PromptHead
    ensures r[|PromptHead| .. |PromptHead| + |context|] == context
    ensures r[|r| - |question| - |QuestionLabel| .. |r| - |question|] == QuestionLabel
    ensures r[|r| - |question|..] == question
  {
    var withContext := PromptHead + context;
    var withLabel := withContext + QuestionLabel;
    SplitConcat(PromptHead, context);
    SplitConcat(withContext, QuestionLabel);
    SplitConcat(withLabel, question);
    assert (withLabel + question)[..|withContext|] == withContext;
    assert (withLabel + question)[|withContext| .. |withLabel|] == QuestionLabel;
    withLabel + question
  }

  /** Once the question's length is known, the prompt gives back both the
      context and the question it was built from. */
  lemma PromptDeterminesParts(c1: Text, q1: Text, c2: Text, q2: Text)
    requires Prompt(c1, q1) == Prompt(c2, q2) && |q1| == |q2|
    ensures c1 == c2 && q1 == q2
  {
    var p := Prompt(c1, q1);
    assert |c1| == |c2|;
    assert c1 == p[|PromptHead| .. |PromptHead| + |c1|] == c2;
  }

  /** Whether a call, answered by the oracles, failed with message m. */
  predicate FailedWith(c: Call, m: Text, embed: Embedder, generate: Generator)
  {
    match c
    case EmbedCall(t) => embed(t) == EmbedFailed(m)
    case GenerateCall(p) => generate(p) == GenerateFailed(m)
  }

  /** One request to `POST /ask` against the entries of the store. */
  function HandleAsk(store: seq<Entry>, question: Option<Text>, embed: Embedder,
                     sim: Similarity, generate: Generator): (x: Exchange)
    // a falsy question, and only that, is a client error, answered before any call
    ensures x.response.BadRequest? <==> IsFalsy(question)
    ensures x.response.BadRequest? ==> x.response.error == QuestionRequired && x.calls == []
    // otherwise the question is embedded first, and at most one more call follows
    ensures !IsFalsy(question) ==> 1 <= |x.calls| <= 2 && x.calls[0] == EmbedCall(question.value)
    // the second call, when made, sends the prompt built from the retrieved context
    ensures |x.calls| == 2 ==>
              embed(question.value).Embedded? &&
              x.calls[1] == GenerateCall(Prompt(Context(store, embed(question.value).values, sim), question.value))
    // success exactly when both calls succeed, and the answer is the generated text unchanged
    ensures x.response.Ok? <==>
              !IsFalsy(question) && embed(question.value).Embedded? && |x.calls| == 2 &&
              generate(x.calls[1].prompt).Generated?
    ensures x.response.Ok? ==> generate(x.calls[1].prompt) == Generated(x.response.answer)
    // a server error carries the message of the call that failed, which was the last one made
    ensures x.response.ServerError? ==>
              x.calls != [] && FailedWith(x.calls[|x.calls| - 1], x.response.error, embed, generate)
  {
    if IsFalsy(question) then Exchange(BadRequest(QuestionRequired), [])
    else
      var q := question.value;
      match embed(q)
      case EmbedFailed(m) => Exchange(ServerError(m), [EmbedCall(q)])
      case Embedded(vector) =>
        var prompt := Prompt(Context(store, vector, sim), q);
        var calls := [EmbedCall(q), GenerateCall(prompt)];
        match generate(prompt)
        case GenerateFailed(m) => Exchange(ServerError(m), calls)
        case Generated(text) => Exchange(Ok(text), calls)
  }

  /** The status codes in terms of the services' replies: 400 for a falsy
      question; otherwise 200 exactly when the question's embedding and the
      generation for its prompt both succeed, and 500 when either fails. */
  lemma StatusOfHandleAsk(store: seq<Entry>, question: Option<Text>, embed: Embedder,
                          sim: Similarity, generate: Generator)
    ensures var x := HandleAsk(store, question, embed, sim, generate);
            Status(x.response) in {400, 200, 500} &&
            (Status(x.response) == 400 <==> IsFalsy(question))
    ensures !IsFalsy(question) ==>
              var q := question.value;
              var x := HandleAsk(store, question, embed, sim, generate);
              var succeeds := embed(q).Embedded? &&
                              generate(Prompt(Context(store, embed(q).values, sim), q)).Generated?;
              (Status(x.response) == 200 <==> succeeds) &&
              (Status(x.response) == 500 <==> !succeeds)
  {
  }
}
