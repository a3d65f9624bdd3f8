/** The question classifier (`QueryClassifier.classify`,
    src/query_classifier.py). The question is placed in a fixed prompt, a chat
    model answers, and the answer is trimmed, lower-cased and accepted only if
    it is one of four labels; anything else, and any failure, is "other". */
module QueryClassifier {
  import opened Outcomes
  import opened Text

  /** The four category labels, in the order the source tests them. */
  const Labels: seq<string> := ["concept", "calculation", "experiment", "other"]

  /** The system message sent with every classification request. */
  const SystemMessage: string :=
    "You are a helpful assistant that classifies physics questions. Return only one of: concept, calculation, experiment, other"

  /** The classification rubric that opens the prompt. */
  const ClassificationRubric: string :=
    "\n"
    + "        ## 任务说明\n"
    + "        请将下面的物理问题分类到以下四个类别之一，只需要返回类别名称：\n"
    + "\n"
    + "        ### 分类标准：\n"
    + "\n"
    + "        **概念诊断型 (concept)**：\n"
    + "        - 询问中学物理摩擦力相关概念的定义、特征、本质\n"
    + "        - 询问摩擦力物理现象的原理、机制\n"
    + "        - 包含摩擦力概念混淆或理解错误\n"
    + "        - 询问\"什么是...\"、\"为什么...\"、\"原理是...\"\n"
    + "        - 例子：什么是摩擦力？为什么会产生摩擦？静摩擦和滑动摩擦有什么区别？\n"
    + "\n"
    + "        **计算分析型 (calculation)**：\n"
    + "        - 涉及摩擦力相关的具体数值计算\n"
    + "        - 求解摩擦力的大小、方向\n"
    + "        - 分析物体在摩擦作用下的运动状态\n"
    + "        - 包含\"求\"、\"计算\"、\"多大\"、\"多少\"等关键词\n"
    + "        - 给出具体的物理条件和参数\n"
    + "        - 例子：一个10kg的物体在水平面上滑动，摩擦系数是0.3，求摩擦力大小？\n"
    + "\n"
    + "        **实验应用型 (experiment)**：\n"
    + "        - 询问摩擦力相关实验设计、实验步骤、实验现象\n"
    + "        - 询问摩擦力在生活中的应用实例\n"
    + "        - 询问如何验证摩擦力相关的物理规律\n"
    + "        - 包含\"实验\"、\"如何测量\"、\"生活中\"、\"应用\"等关键词\n"
    + "        - 例子：如何用实验测量摩擦系数？生活中摩擦力的应用有哪些？\n"
    + "\n"
    + "        **其他类型 (other)**：\n"
    + "        - 与中学物理摩擦力知识无关的问题\n"
    + "        - 涉及其他物理知识（如电学、光学、热学等）\n"
    + "        - 非物理学科问题（如数学、化学、语文、历史等）\n"
    + "        - 日常生活问题、聊天内容\n"
    + "        - 例子：什么是电流？光的折射定律是什么？今天天气如何？你是谁？\n"
    + "\n"

  /** The heading under which the question is placed. */
  const QuestionHeading: string := "        ### 待分类问题：\n" + "        "

  /** The text of the prompt after the question slot. */
  const ClassificationPromptTail: string :=
    "\n"
    + "\n"
    + "        ### 输出要求：\n"
    + "        只返回以下四个词中的一个：concept、calculation、experiment、other\n"
    + "        "

  /** One chat-completion request: the model name, the system and user
      messages, and the streaming flag (always off here). */
  datatype ChatRequest = ChatRequest(model: string, system: string, user: string, stream: bool)

  /** What the chat client yields: an exception it raised, or the content of
      the first choice's message, `None` when there is no content (or no choice). */
  datatype ChatReply = Raised(message: string) | Replied(content: Option<string>)

  type ChatClient = ChatRequest -> ChatReply

  /** The f-string prompt: the rubric, then the heading with the question
      right after it, then the output requirements. */
  function ClassificationPrompt(query: string): string
  {
    ClassificationRubric + (QuestionHeading + query) + ClassificationPromptTail
  }

  function ClassificationRequest(model: string, query: string): ChatRequest
  {
    ChatRequest(model, SystemMessage, ClassificationPrompt(query), false)
  }

  /** `.strip().lower()`: Python whitespace trimmed at both ends, letters lower-cased. */
  function Normalize(content: string): string
  {
    LowerAscii(PyStrip(content))
  }

  /** The category test: a normalised reply that is a category is returned as is, anything else is "other". */
  function ParseLabel(normalized: string): (category: string)
    ensures category in Labels
    ensures normalized in Labels ==> category == normalized
    ensures normalized !in Labels ==> category == "other"
  {
    if normalized in Labels then normalized else "other"
  }

  /** What `classify` makes of the chat client's reply: a failure or a
      missing content is "other", a content is normalised and checked. */
  function ClassifyReply(reply: ChatReply): (category: string)
    ensures category in Labels
  {
    match reply
    case Raised(_) => "other"
    case Replied(None) => "other"
    case Replied(Some(content)) => ParseLabel(Normalize(content))
  }

  /** `classify`: ask the chat model and validate its reply. */
  function Classify(model: string, query: string, chat: ChatClient): (category: string)
    ensures category in Labels
  {
    ClassifyReply(chat(ClassificationRequest(model, query)))
  }

  // ---------------------------------------------------------------------------
  // Properties
  // ---------------------------------------------------------------------------

  /** A category other than "other" is only ever the model's own content,
      normalised; and the answer is "other" exactly when there is no content
      or the normalised content is not one of the three real categories. */
  lemma ClassifyEchoesReply(reply: ChatReply)
    ensures ClassifyReply(reply) != "other" ==>
              reply.Replied? && reply.content.Some? && Normalize(reply.content.value) == ClassifyReply(reply)
    ensures ClassifyReply(reply) == "other" <==>
              !(reply.Replied? && reply.content.Some? && Normalize(reply.content.value) in Labels && Normalize(reply.content.value) != "other")
  {
  }

  /** Normalising a core wrapped in Python whitespace lower-cases the core. */
  lemma NormalizeAround(pre: string, core: string, post: string)
    requires forall k :: 0 <= k < |pre| ==> IsPythonSpace(pre[k])
    requires forall k :: 0 <= k < |post| ==> IsPythonSpace(post[k])
    requires |core| > 0 && !IsPythonSpace(core[0]) && !IsPythonSpace(core[|core| - 1])
    ensures Normalize(pre + core + post) == LowerAscii(core)
  {
    TrimAround(pre, core, post, IsPythonSpace);
  }

  /** A reply with no surrounding whitespace is only lower-cased. */
  lemma NormalizeTrimmed(core: string)
    requires |core| > 0 && !IsPythonSpace(core[0]) && !IsPythonSpace(core[|core| - 1])
    ensures Normalize(core) == LowerAscii(core)
  {
    TrimAround([], core, [], IsPythonSpace);
    assert [] + core + [] == core;
  }

  /** Surrounding whitespace and capitals do not hide a category: " Concept\n"
      normalises to "concept". */
  lemma NormalizeConceptExample()
    ensures Normalize(" Concept\n") == "concept"
  {
    assert LowerAscii("Concept") == "concept";
    assert " Concept\n" == " " + "Concept" + "\n";
    NormalizeAround(" ", "Concept", "\n");
  }

  /** A tab and a trailing blank around "OTHER" are stripped as well. */
  lemma NormalizeOtherExample()
    ensures Normalize("\tOTHER ") == "other"
  {
    assert LowerAscii("OTHER") == "other";
    assert "\tOTHER " == "\t" + "OTHER" + " ";
    NormalizeAround("\t", "OTHER", " ");
  }

  /** A reply that is close to a category but not equal to one is "other". */
  lemma ParseLabelNearMissExample()
    ensures ParseLabel(Normalize("concept.")) == "other"
  {
    NormalizeTrimmed("concept.");
    assert Normalize("concept.") == "concept." by {
      assert LowerAscii("concept.") == "concept.";
    }
    assert "concept." !in Labels;
  }

  /** A blank reply is "other". */
  lemma ParseLabelBlankExample()
    ensures ParseLabel(Normalize(" \n ")) == "other"
  {
    TrimEmptyIff(" \n ", IsPythonSpace);
    assert PyStrip(" \n ") == [];
  }

  /** A model reply of " Concept\n" classifies as "concept". */
  lemma ClassifyConceptExample()
    ensures ClassifyReply(Replied(Some(" Concept\n"))) == "concept"
  {
    NormalizeConceptExample();
  }

  /** The prompt carries the question verbatim, right after the "待分类问题"
      heading that closes the rubric. */
  lemma PromptCarriesQuery(query: string)
    ensures OccursAt(ClassificationPrompt(query), QuestionHeading + query, |ClassificationRubric|)
  {
    ThreePieces(ClassificationRubric, QuestionHeading + query, ClassificationPromptTail);
  }
}
