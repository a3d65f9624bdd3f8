/** Answer generation (`ResponseGenerator.generate`, src/generation.py): the
    passages are joined with a blank line into a knowledge block, the block and
    the question fill the two slots of one fixed teaching prompt, and the
    text model's reply is returned as it is. */
module Generation {
  import opened Outcomes
  import opened Text
  import Chunking

  /** The fixed template around the two slots: the text before the knowledge
      block, between it and the question, and after the question. */
  const GenerationPromptHead: string :=
    "\n"
    + "        ## 角色定位\n"
    + "        你是一位拥有15年教龄的中学物理高级教师，擅长通过“启发式教学”引导学生理解摩擦力。你说话风格亲切、严谨，多用生活中的例子，善于发现学生思维中的底层误区。\n"
    + "\n"
    + "        ## 任务说明\n"
    + "        请结合【参考知识库】的内容，回答【学生提问】。\n"
    + "        1. **隐形使用知识库**：将参考片段内化为自己的知识。严禁出现“根据片段”、“资料显示”、“我找到的回答是”等字眼。\n"
    + "        2. **误区诊断**：如果学生的问题中包含明显的物理概念错误（例如：混淆压力与重力、认为摩擦力只能是阻力等），请不要直接给答案，而是先指出其逻辑矛盾点。\n"
    + "        3. **启发式引导**：多使用“你试着想一下...”、“如果...会发生什么？”等句式，引导学生自己推导出结论。\n"
    + "        4. **学科严谨性**：涉及“相对运动”和“相对运动趋势”时，表述必须极其精准。\n"
    + "\n"
    + "        ## 教学逻辑参考\n"
    + "        - **步骤1：** 快速判断学生当前处于哪个认知水平或存在哪个误区。\n"
    + "        - **步骤2：** 引用知识库中的“典型错误”或“引导逻辑”，设计一个情境提问。\n"
    + "        - **步骤3：** 给出鼓励性的总结，并留下一个思考题。\n"
    + "\n"
    + "        ---\n"
    + "        【参考知识库】\n"
    + "        "
  const GenerationPromptMiddle: string :=
    "\n"
    + "\n"
    + "        【学生提问】\n"
    + "        "
  const GenerationPromptTail: string :=
    "\n"
    + "\n"
    + "        ---\n"
    + "        请以老师的身份开始对话：\n"
    + "        "

  /** One `generate_content` call: the model name and the prompt. */
  datatype ContentRequest = ContentRequest(model: string, contents: string)

  /** The text model: the reply's text, or the error it raises. */
  type TextModel = ContentRequest -> Result<string, string>

  /** `"\n\n".join(chunks)`: the knowledge block. */
  function KnowledgeBlock(chunks: seq<string>): string
  {
    Chunking.JoinParagraphs(chunks)
  }

  /** The f-string prompt: the template with the knowledge block and the question in their slots. */
  function GenerationPrompt(chunksText: string, query: string): string
  {
    GenerationPromptHead + chunksText + GenerationPromptMiddle + query + GenerationPromptTail
  }

  /** `generate(query, chunks)`: the text model's reply to the prompt; its
      errors are not caught. */
  function Generate(model: string, query: string, chunks: seq<string>, llm: TextModel): Result<string, string>
  {
    llm(ContentRequest(model, GenerationPrompt(KnowledgeBlock(chunks), query)))
  }

  // ---------------------------------------------------------------------------
  // Properties
  // ---------------------------------------------------------------------------

  /** No passages give an empty knowledge block, one passage is the block itself. */
  lemma KnowledgeBlockSmall(chunks: seq<string>)
    ensures |chunks| == 0 ==> KnowledgeBlock(chunks) == ""
    ensures |chunks| == 1 ==> KnowledgeBlock(chunks) == chunks[0]
  {
  }

  /** The passages appear in the block in the given order, each at its offset,
      and when none of them holds a paragraph break they can be read back by
      splitting the block. */
  lemma KnowledgeBlockOrder(chunks: seq<string>, k: nat)
    requires k < |chunks|
    ensures var o := Chunking.ChunkOffset(chunks, k);
            OccursAt(KnowledgeBlock(chunks), chunks[k], o)
    ensures Chunking.WellFormedChunks(chunks) ==> Chunking.SplitParagraphs(KnowledgeBlock(chunks)) == chunks
  {
    Chunking.ChunkAtOffset(chunks, k);
    if Chunking.WellFormedChunks(chunks) {
      Chunking.SplitJoin(chunks);
    }
  }

  /** The chunker's own output joins back to the document it came from. */
  lemma KnowledgeBlockOfDocument(document: string)
    ensures KnowledgeBlock(Chunking.SplitParagraphs(document)) == document
  {
    Chunking.JoinSplit(document);
  }

  /** The prompt is fixed text with two slots: the knowledge block right
      after the head, and the question right after the text that follows the block. */
  lemma PromptSlots(chunksText: string, query: string)
    ensures OccursAt(GenerationPrompt(chunksText, query), chunksText, |GenerationPromptHead|)
    ensures OccursAt(GenerationPrompt(chunksText, query), query, |GenerationPromptHead| + |chunksText| + |GenerationPromptMiddle|)
  {
    FivePieces(GenerationPromptHead, chunksText, GenerationPromptMiddle, query, GenerationPromptTail);
  }

  /** The reply is the text model's own outcome for a prompt that carries the
      knowledge block and the question in their slots, unchanged. */
  lemma GenerateIsModelReply(model: string, query: string, chunks: seq<string>, llm: TextModel)
    ensures var prompt := GenerationPrompt(KnowledgeBlock(chunks), query);
            && Generate(model, query, chunks, llm) == llm(ContentRequest(model, prompt))
            && OccursAt(prompt, KnowledgeBlock(chunks), |GenerationPromptHead|)
            && OccursAt(prompt, query, |GenerationPromptHead| + |KnowledgeBlock(chunks)| + |GenerationPromptMiddle|)
  {
    PromptSlots(KnowledgeBlock(chunks), query);
  }

  // ---------------------------------------------------------------------------
  // Passing a single passage
  // ---------------------------------------------------------------------------

  /** What `join` sees when it is handed one string instead of a list:
      iterating a Python string yields its characters. */
  function CharsAsPassages(s: string): (passages: seq<string>)
    ensures |passages| == |s|
    ensures forall i :: 0 <= i < |s| ==> passages[i] == [s[i]]
  {
    if |s| == 0 then [] else [[s[0]]] + CharsAsPassages(s[1..])
  }

  /** The knowledge block the callers build from the top reranked chunk, as
      written: the chunk string itself is passed, so its characters are joined. */
  function TopChunkKnowledgeAsWritten(top: string): string
  {
    KnowledgeBlock(CharsAsPassages(top))
  }

  /** The knowledge block the callers evidently intend: the top chunk as the one passage. */
  function TopChunkKnowledge(top: string): (block: string)
    ensures block == top
  {
    KnowledgeBlock([top])
  }

  /** As written, every character of the chunk is followed by a blank line: the
      block is `3 * |top| - 2` long and differs from the chunk whenever the
      chunk has two or more characters. */
  lemma {:induction false} TopChunkKnowledgeAsWrittenLength(top: string)
    requires |top| >= 1
    ensures |TopChunkKnowledgeAsWritten(top)| == 3 * |top| - 2
    ensures |top| >= 2 ==> TopChunkKnowledgeAsWritten(top) != TopChunkKnowledge(top)
  {
    var ps := CharsAsPassages(top);
    JoinLength(ps, Chunking.ParagraphSep);
    CharsSumLengths(top);
  }

  /** A chunk of at most one character reaches the prompt unchanged even as written. */
  lemma TopChunkKnowledgeAsWrittenShort(top: string)
    requires |top| <= 1
    ensures TopChunkKnowledgeAsWritten(top) == TopChunkKnowledge(top)
  {
    if |top| == 1 {
      assert top[1..] == [] && [top[0]] == top;
      assert CharsAsPassages(top) == [top];
    }
  }

  lemma {:induction false} CharsSumLengths(s: string)
    ensures SumLengths(CharsAsPassages(s)) == |s|
    decreases |s|
  {
    if |s| > 0 {
      CharsSumLengths(s[1..]);
      assert CharsAsPassages(s)[1..] == CharsAsPassages(s[1..]);
    }
  }

  /** The two-character chunk "ab" reaches the prompt as "a\n\nb". */
  lemma TopChunkKnowledgeAsWrittenExample()
    ensures TopChunkKnowledgeAsWritten("ab") == "a\n\nb"
    ensures TopChunkKnowledge("ab") == "ab"
  {
    var ps := CharsAsPassages("ab");
    assert ps == ["a", "b"];
    assert ps[..1] == ["a"] && ps[1..] == ["b"];
    JoinSplitAt(ps, Chunking.ParagraphSep, 1);
  }
}
