/** The question-answering side of the web server (web/app.py): the demo
    answerer, the wrapper that chains retrieval, reranking and generation,
    the one-time choice between the two, and the `/api/ask` request check. */
module Server {
  import opened Outcomes
  import opened Text
  import opened JsonValues
  import Reranking
  import Generation
  import StableSort

  // ---------------------------------------------------------------------------
  // The demo answerer
  // ---------------------------------------------------------------------------

  /** The canned answers, keyed by keyword, in the dict's insertion order
      (the answers hold a literal backslash followed by `n`, not a newline). */
  const DemoResponses: seq<(string, string)> := [
    ("摩擦力",
     "滑动摩擦力是物体相对滑动时产生的阻碍相对运动的力。它的大小与接触面间的正压力成正比，方向与物体相对运动方向相反。\\n\\n**计算公式：** f = μN\\n其中：\\n- f 是滑动摩擦力\\n- μ 是滑动摩擦系数\\n- N 是正压力"),
    ("牛顿第一定律",
     "牛顿第一定律，也称为**惯性定律**，表述为：任何物体在没有外力作用或合外力为零的情况下，都会保持静止状态或匀速直线运动状态。\\n\\n**要点：**\\n1. 物体具有保持原有运动状态的性质，这种性质称为惯性\\n2. 力不是维持物体运动的原因，而是改变物体运动状态的原因"),
    ("加速度",
     "物体的加速度可以通过以下公式计算：\\n\\n**基本公式：**\\na = (v₂ - v₁) / t\\n\\n其中：\\n- a 是加速度（m/s²）\\n- v₁ 是初始速度（m/s）\\n- v₂ 是末速度（m/s）\\n- t 是时间间隔（s）"),
    ("动能势能",
     "**动能**和**势能**是机械能的两种基本形式：\\n\\n**动能（Kinetic Energy）：**\\n- 定义：物体由于运动而具有的能量\\n- 公式：Ek = ½mv²\\n\\n**势能（Potential Energy）：**\\n- 定义：物体由于位置或状态而具有的能量\\n- 重力势能：Ep = mgh")
  ]
  const DemoDefaultHead: string := "感谢您的提问：\""
  const DemoDefaultTail: string :=
    "\"。这是一个很好的学习问题。在实际部署中，EduAgent会通过RAG技术从知识库中检索相关信息并生成准确的答案。目前演示模式下，请尝试询问关于摩擦力、牛顿第一定律、加速度或动能势能的问题。"

  /** The demo answerer's keywords, in the dictionary's order. */
  lemma DemoKeywords()
    ensures Keywords(DemoResponses) == ["摩擦力", "牛顿第一定律", "加速度", "动能势能"]
  {
  }

  /** The first keyword the question contains picks the canned answer;
      otherwise the fallback text quotes the question. */
  function DemoReply(question: string): string
  {
    match FirstMatch(question, DemoResponses)
    case Some(response) => response
    case None => DemoDefaultHead + question + DemoDefaultTail
  }

  /** The demo answer is the canned answer of the first keyword, in table
      order, that occurs in the question; when no keyword occurs it is the
      fallback text with the question quoted at a fixed offset. */
  lemma DemoReplyChoice(question: string)
    ensures forall k :: 0 <= k < |DemoResponses| && Contains(question, DemoResponses[k].0)
                        && (forall j :: 0 <= j < k ==> !Contains(question, DemoResponses[j].0))
                        ==> DemoReply(question) == DemoResponses[k].1
    ensures (forall k :: 0 <= k < |DemoResponses| ==> !Contains(question, DemoResponses[k].0))
            ==> DemoReply(question) == DemoDefaultHead + question + DemoDefaultTail
                && OccursAt(DemoReply(question), question, |DemoDefaultHead|)
  {
    FirstMatchIsFirst(question, DemoResponses);
  }

  /** `EduAgentDemo.answer_question`: the keyword scan, then the fallback. */
  method DemoAnswer(question: string) returns (answer: string)
    ensures answer == DemoReply(question)
  {
    var canned := FirstKeywordResponse(question, DemoResponses);
    if canned.Some? {
      answer := canned.value;
    } else {
      answer := DemoDefaultHead + question + DemoDefaultTail;
    }
  }

  // ---------------------------------------------------------------------------
  // The retrieval-augmented answerer
  // ---------------------------------------------------------------------------

  /** The retriever: the `top_k` nearest chunks for a question, or the error it raises. */
  type Retriever = (string, nat) -> Result<seq<string>, string>

  const RetrieveTopK: nat := 5
  const RerankTopK: nat := 3
  const NoInformation: string := "抱歉，没有找到相关信息来回答您的问题。"
  const ErrorPrefix: string := "处理问题时出现错误: "

  /** `EduAgentWrapper.answer_question`: retrieve five chunks, keep the best
      three, and generate from the best one; an empty reranking gives the
      apology, and any exception becomes the error text. `passages` is how the
      best chunk is handed to the generator as its list of chunks. */
  function Pipeline(question: string, retrieve: Retriever, predict: Reranking.Predictor,
                    model: string, llm: Generation.TextModel, passages: string -> seq<string>): string
  {
    match retrieve(question, RetrieveTopK)
    case Err(e) => ErrorPrefix + e
    case Ok(retrieved) =>
      match Reranking.RerankResult(question, retrieved, RerankTopK, predict)
      case Err(e) => ErrorPrefix + e
      case Ok(reranked) =>
        if reranked == [] then NoInformation
        else
          match Generation.Generate(model, question, passages(reranked[0]), llm)
          case Err(e) => ErrorPrefix + e
          case Ok(answer) => answer
  }

  /** The answerer as written: the best chunk string itself is passed where a
      list of chunks is expected, so the generator joins its characters (see
      `Generation.TopChunkKnowledgeAsWritten`). */
  function WrapperReply(question: string, retrieve: Retriever, predict: Reranking.Predictor,
                        model: string, llm: Generation.TextModel): string
  {
    Pipeline(question, retrieve, predict, model, llm, Generation.CharsAsPassages)
  }

  /** The answerer as evidently intended: the best chunk is the one passage. */
  function WrapperReplyIntended(question: string, retrieve: Retriever, predict: Reranking.Predictor,
                                model: string, llm: Generation.TextModel): string
  {
    Pipeline(question, retrieve, predict, model, llm, top => [top])
  }

  /** When nothing is retrieved the text model is never consulted: the
      cross-encoder is still handed the empty pair list, and the answer is the
      apology when it accepts that list, or its error text when it raises. */
  lemma WrapperNothingRetrieved(question: string, retrieve: Retriever, predict: Reranking.Predictor,
                                model: string, llm: Generation.TextModel)
    requires retrieve(question, RetrieveTopK) == Ok([])
    ensures WrapperReply(question, retrieve, predict, model, llm)
            == (if predict([]).Ok? then NoInformation else ErrorPrefix + predict([]).error)
  {
    assert Reranking.Pairs(question, []) == [];
    if predict([]).Ok? {
      Reranking.RerankedSubMultiset([], predict([]).value, RerankTopK);
    }
  }

  /** When the reranking keeps something, the best chunk is one of the
      retrieved ones and scores at least as high as every retrieved chunk, and
      the answer is the model's reply (or its error, prefixed) to the prompt
      whose knowledge block is that chunk's characters joined by blank lines. */
  lemma WrapperUsesBestChunk(question: string, retrieve: Retriever, predict: Reranking.Predictor,
                             model: string, llm: Generation.TextModel)
    requires retrieve(question, RetrieveTopK).Ok?
    requires predict(Reranking.Pairs(question, retrieve(question, RetrieveTopK).value)).Ok?
    requires Reranking.Reranked(retrieve(question, RetrieveTopK).value,
                                predict(Reranking.Pairs(question, retrieve(question, RetrieveTopK).value)).value,
                                RerankTopK) != []
    ensures var retrieved := retrieve(question, RetrieveTopK).value;
            var scores := predict(Reranking.Pairs(question, retrieved)).value;
            var best := Reranking.Reranked(retrieved, scores, RerankTopK)[0];
            && best in retrieved
            && (exists score :: (best, score) in Reranking.Zip(retrieved, scores)
                                && forall p :: p in Reranking.Zip(retrieved, scores) ==> score >= p.1)
            && WrapperReply(question, retrieve, predict, model, llm)
               == (match llm(Generation.ContentRequest(model, Generation.GenerationPrompt(
                                Generation.TopChunkKnowledgeAsWritten(best), question)))
                   case Ok(answer) => answer
                   case Err(e) => ErrorPrefix + e)
  {
    var retrieved := retrieve(question, RetrieveTopK).value;
    var scores := predict(Reranking.Pairs(question, retrieved)).value;
    var reranked := Reranking.Reranked(retrieved, scores, RerankTopK);
    Reranking.RerankedFirstIsBest(retrieved, scores, RerankTopK);
    var kept := Reranking.Kept(retrieved, scores, RerankTopK);
    assert (reranked[0], kept[0].1) == kept[0];
  }

  /** The intended answerer puts exactly the best chunk in the knowledge slot. */
  lemma WrapperIntendedUsesBestChunk(question: string, retrieve: Retriever, predict: Reranking.Predictor,
                                     model: string, llm: Generation.TextModel)
    requires retrieve(question, RetrieveTopK).Ok?
    requires predict(Reranking.Pairs(question, retrieve(question, RetrieveTopK).value)).Ok?
    requires Reranking.Reranked(retrieve(question, RetrieveTopK).value,
                                predict(Reranking.Pairs(question, retrieve(question, RetrieveTopK).value)).value,
                                RerankTopK) != []
    ensures var retrieved := retrieve(question, RetrieveTopK).value;
            var scores := predict(Reranking.Pairs(question, retrieved)).value;
            var best := Reranking.Reranked(retrieved, scores, RerankTopK)[0];
            WrapperReplyIntended(question, retrieve, predict, model, llm)
            == (match llm(Generation.ContentRequest(model, Generation.GenerationPrompt(best, question)))
                case Ok(answer) => answer
                case Err(e) => ErrorPrefix + e)
  {
    var retrieved := retrieve(question, RetrieveTopK).value;
    var scores := predict(Reranking.Pairs(question, retrieved)).value;
    var block := Generation.TopChunkKnowledge(Reranking.Reranked(retrieved, scores, RerankTopK)[0]);
  }

  /** The written and the intended answerer differ only through the knowledge
      block: they give the same answer whenever the best chunk has at most one
      character (or nothing is kept, or a step fails before generation). */
  lemma WrapperAgreesOnShortChunk(question: string, retrieve: Retriever, predict: Reranking.Predictor,
                                  model: string, llm: Generation.TextModel)
    requires retrieve(question, RetrieveTopK).Ok? &&
             predict(Reranking.Pairs(question, retrieve(question, RetrieveTopK).value)).Ok? ==>
               var ranked := Reranking.Reranked(retrieve(question, RetrieveTopK).value,
                                                predict(Reranking.Pairs(question, retrieve(question, RetrieveTopK).value)).value,
                                                RerankTopK);
               ranked != [] ==> |ranked[0]| <= 1
    ensures WrapperReply(question, retrieve, predict, model, llm)
            == WrapperReplyIntended(question, retrieve, predict, model, llm)
  {
    if retrieve(question, RetrieveTopK).Ok? {
      var retrieved := retrieve(question, RetrieveTopK).value;
      if predict(Reranking.Pairs(question, retrieved)).Ok? {
        var reranked := Reranking.Reranked(retrieved, predict(Reranking.Pairs(question, retrieved)).value, RerankTopK);
        if reranked != [] {
          Generation.TopChunkKnowledgeAsWrittenShort(reranked[0]);
        }
      }
    }
  }

  /** A retriever failure is reported as the error text, not raised. */
  lemma WrapperReportsRetrievalError(question: string, retrieve: Retriever, predict: Reranking.Predictor,
                                     model: string, llm: Generation.TextModel)
    requires retrieve(question, RetrieveTopK).Err?
    ensures WrapperReply(question, retrieve, predict, model, llm)
            == ErrorPrefix + retrieve(question, RetrieveTopK).error
  {
  }

  // ---------------------------------------------------------------------------
  // The /api/ask request check
  // ---------------------------------------------------------------------------

  const MissingQuestionError: string := "缺少问题参数"
  const EmptyQuestionError: string := "问题不能为空"

  /** How the request body is judged before any answering. */
  datatype AskCheck =
    | MissingQuestion                 // 400: no body, or no `question` in it
    | EmptyQuestion                   // 400: the question is blank once stripped
    | Malformed(error: PyError)       // 500: the checks themselves raised
    | Accepted(question: string)      // the stripped question

  /** `if not data or 'question' not in data`, then `data['question'].strip()`. */
  function CheckAskRequest(data: Json): (r: AskCheck)
    ensures r == MissingQuestion <==> Falsy(data) || PyIn("question", data) == Ok(false)
    ensures r.Accepted? <==> data.JObj? && "question" in data.fields && data.fields["question"].JStr?
                             && PyStrip(data.fields["question"].s) != []
    ensures r.Accepted? ==> r.question == PyStrip(data.fields["question"].s)
    ensures r == EmptyQuestion <==> data.JObj? && "question" in data.fields && data.fields["question"].JStr?
                                    && PyStrip(data.fields["question"].s) == []
  {
    if Falsy(data) then MissingQuestion
    else
      match PyIn("question", data)
      case Err(e) => Malformed(e)
      case Ok(present) =>
        if !present then MissingQuestion
        else
          match PySubscript(data, "question")
          case Err(e) => Malformed(e)
          case Ok(value) =>
            if !value.JStr? then Malformed(AttributeError)
            else if PyStrip(value.s) == [] then EmptyQuestion
            else Accepted(PyStrip(value.s))
  }

  /** A question made only of whitespace is refused, and an accepted question
      is already stripped: it neither starts nor ends with whitespace. */
  lemma AskRequestBlank(data: Json)
    requires data.JObj? && "question" in data.fields && data.fields["question"].JStr?
    ensures var s := data.fields["question"].s;
            (forall k :: 0 <= k < |s| ==> IsPythonSpace(s[k])) <==> CheckAskRequest(data) == EmptyQuestion
    ensures CheckAskRequest(data).Accepted? ==> PyStrip(CheckAskRequest(data).question) == CheckAskRequest(data).question
  {
    var s := data.fields["question"].s;
    TrimEmptyIff(s, IsPythonSpace);
    TrimIdempotent(s, IsPythonSpace);
  }

  /** A list body naming `question` passes the membership test but cannot be
      subscripted by a string, so the check raises `TypeError`. */
  lemma AskRequestListBody()
    ensures CheckAskRequest(JArr([JStr("question")])) == Malformed(TypeError)
  {
    assert JStr("question") in [JStr("question")];
  }

  // ---------------------------------------------------------------------------
  // The server's agent and the /api/ask handler
  // ---------------------------------------------------------------------------

  /** The global `edu_agent`: unset, the demo answerer or the wrapper. */
  datatype Agent = NoAgent | Demo | Wrapper

  /** The reply of `/api/ask`. */
  datatype AskReply =
    | BadRequest(error: string)
    | ServerError(raised: PyError)
    | Answered(answer: string, question: string)

  /** The server's global state (`edu_agent`, `initialized`) together with
      what it depends on: whether building the wrapper succeeds (the document
      file exists and the chunker, index and models load without raising) and
      the components the wrapper calls. */
  class App {
    var agent: Agent
    var initialized: bool
    const wrapperBuilds: bool
    const retrieve: Retriever
    const predict: Reranking.Predictor
    const model: string
    const llm: Generation.TextModel

    /** An agent is set exactly when the server is initialized. */
    ghost predicate Valid()
      reads this
    {
      initialized <==> agent != NoAgent
    }

    constructor (wrapperBuilds: bool, retrieve: Retriever, predict: Reranking.Predictor,
                 model: string, llm: Generation.TextModel)
      ensures Valid() && !initialized && agent == NoAgent
      ensures this.wrapperBuilds == wrapperBuilds && this.retrieve == retrieve
      ensures this.predict == predict && this.model == model && this.llm == llm
    {
      this.wrapperBuilds := wrapperBuilds;
      this.retrieve := retrieve;
      this.predict := predict;
      this.model := model;
      this.llm := llm;
      agent := NoAgent;
      initialized := false;
    }

    /** `initialize_edu_agent`: runs once; the wrapper when it builds, the
        demo answerer when building it raises. */
    method Initialize()
      requires Valid()
      modifies this
      ensures Valid() && initialized
      ensures old(initialized) ==> agent == old(agent)
      ensures !old(initialized) ==> agent == (if wrapperBuilds then Wrapper else Demo)
    {
      if initialized {
        return;
      }
      if wrapperBuilds {
        agent := Wrapper;
      } else {
        agent := Demo;
      }
      initialized := true;
    }

    /** What the current agent answers. */
    function AgentReply(question: string): string
      reads this
    {
      if agent == Wrapper then WrapperReply(question, retrieve, predict, model, llm)
      else DemoReply(question)
    }

    /** `ask_question`: a refused request changes nothing; an accepted one
        initializes the server if needed and answers the stripped question. */
    method AskQuestion(data: Json) returns (reply: AskReply)
      requires Valid()
      modifies this
      ensures Valid()
      ensures CheckAskRequest(data) == MissingQuestion ==> reply == BadRequest(MissingQuestionError) && unchanged(this)
      ensures CheckAskRequest(data) == EmptyQuestion ==> reply == BadRequest(EmptyQuestionError) && unchanged(this)
      ensures CheckAskRequest(data).Malformed? ==> reply == ServerError(CheckAskRequest(data).error) && unchanged(this)
      ensures CheckAskRequest(data).Accepted? ==>
                && initialized
                && agent == (if old(initialized) then old(agent) else if wrapperBuilds then Wrapper else Demo)
                && reply == Answered(AgentReply(CheckAskRequest(data).question), CheckAskRequest(data).question)
    {
      var check := CheckAskRequest(data);
      match check {
        case MissingQuestion =>
          return BadRequest(MissingQuestionError);
        case EmptyQuestion =>
          return BadRequest(EmptyQuestionError);
        case Malformed(e) =>
          return ServerError(e);
        case Accepted(question) =>
          if !initialized {
            Initialize();
          }
          var answer;
          if agent == Wrapper {
            answer := WrapperReply(question, retrieve, predict, model, llm);
          } else {
            answer := DemoAnswer(question);
          }
          return Answered(answer, question);
      }
    }
  }
}
