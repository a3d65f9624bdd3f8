/** The browser client's transcript logic (web/script.js): the input box's
    height clamp, the submit guard, appending messages, regenerating a reply,
    marking the latest bot message of a loaded conversation, and the local
    keyword answers used when the server cannot be reached. */
module Client {
  import opened Outcomes
  import opened Text
  import Server

  // ---------------------------------------------------------------------------
  // The input box
  // ---------------------------------------------------------------------------

  const MinHeight: int := 40
  const MaxHeight: int := 200

  /** `Math.max(40, Math.min(scrollHeight, 200))`: the content height,
      clamped into [40, 200]. */
  function ClampHeight(scrollHeight: int): (height: int)
    ensures MinHeight <= height <= MaxHeight
    ensures MinHeight <= scrollHeight <= MaxHeight ==> height == scrollHeight
    ensures scrollHeight < MinHeight ==> height == MinHeight
    ensures scrollHeight > MaxHeight ==> height == MaxHeight
  {
    var capped := if scrollHeight < MaxHeight then scrollHeight else MaxHeight;
    if MinHeight < capped then capped else MinHeight
  }

  /** `!question || isLoading` negated: a submission goes ahead only when the
      trimmed input is non-empty and no request is in flight. */
  predicate AcceptsSubmission(input: string, isLoading: bool)
  {
    JsTrim(input) != [] && !isLoading
  }

  /** Whitespace-only input is never submitted, and a busy client submits nothing. */
  lemma SubmissionGuard(input: string, isLoading: bool)
    ensures AcceptsSubmission(input, isLoading) <==>
              !isLoading && exists k :: 0 <= k < |input| && !IsJsSpace(input[k])
  {
    TrimEmptyIff(input, IsJsSpace);
  }

  // ---------------------------------------------------------------------------
  // The transcript
  // ---------------------------------------------------------------------------

  /** One entry of `messageHistory`; `sender` is `"user"` or `"bot"` for
      messages this client adds, but a loaded conversation may hold anything. */
  datatype Message = Message(id: string, sender: string, text: string, timestamp: string)

  const UserSender: string := "user"
  const BotSender: string := "bot"

  /** `messageHistory.findIndex(msg => msg.id === id)`: the first index with
      that id, or -1. */
  function FindMessageIndex(history: seq<Message>, id: string): (index: int)
    ensures -1 <= index < |history|
    ensures index == -1 <==> forall k :: 0 <= k < |history| ==> history[k].id != id
    ensures index >= 0 ==> history[index].id == id && forall k :: 0 <= k < index ==> history[k].id != id
  {
    if |history| == 0 then -1
    else if history[0].id == id then 0
    else
      var rest := FindMessageIndex(history[1..], id);
      if rest == -1 then -1 else rest + 1
  }

  /** `messageHistory.filter(msg => msg.id !== id)`. */
  function WithoutId(history: seq<Message>, id: string): (kept: seq<Message>)
    ensures |kept| <= |history|
    ensures forall m :: m in kept <==> m in history && m.id != id
  {
    if |history| == 0 then []
    else
      var rest := WithoutId(history[..|history| - 1], id);
      var last := history[|history| - 1];
      assert history == history[..|history| - 1] + [last];
      if last.id != id then rest + [last] else rest
  }

  /** The number of messages with a given id. */
  function CountId(history: seq<Message>, id: string): nat
  {
    if |history| == 0 then 0
    else CountId(history[..|history| - 1], id) + (if history[|history| - 1].id == id then 1 else 0)
  }

  /** Filtering works piece by piece and keeps the survivors' order. */
  lemma {:induction false} WithoutIdAppend(a: seq<Message>, b: seq<Message>, id: string)
    ensures WithoutId(a + b, id) == WithoutId(a, id) + WithoutId(b, id)
    decreases |b|
  {
    if |b| == 0 {
      assert a + b == a;
    } else {
      var b' := b[..|b| - 1];
      assert (a + b)[..|a + b| - 1] == a + b';
      WithoutIdAppend(a, b', id);
    }
  }

  /** Exactly the messages with the id are dropped: the length falls by their
      count, and a history without the id is returned unchanged. */
  lemma {:induction false} WithoutIdCount(history: seq<Message>, id: string)
    ensures |WithoutId(history, id)| + CountId(history, id) == |history|
    ensures CountId(history, id) == 0 ==> WithoutId(history, id) == history
    decreases |history|
  {
    if |history| > 0 {
      var init := history[..|history| - 1];
      WithoutIdCount(init, id);
      assert init + [history[|history| - 1]] == history;
    }
  }

  /** Filtering twice is filtering once. */
  lemma {:induction false} WithoutIdIdempotent(history: seq<Message>, id: string)
    ensures WithoutId(WithoutId(history, id), id) == WithoutId(history, id)
  {
    var kept := WithoutId(history, id);
    CountNone(kept, id);
    WithoutIdCount(kept, id);
  }

  lemma {:induction false} CountNone(history: seq<Message>, id: string)
    requires forall m :: m in history ==> m.id != id
    ensures CountId(history, id) == 0
    decreases |history|
  {
    if |history| > 0 {
      CountNone(history[..|history| - 1], id);
    }
  }

  /** The backward scan for the user question a reply answers: the largest
      index below `index` whose sender is `"user"`, or -1 when there is none. */
  method NearestUserBefore(history: seq<Message>, index: int) returns (userIndex: int)
    requires 0 <= index < |history|
    ensures -1 <= userIndex < index
    ensures userIndex >= 0 ==> history[userIndex].sender == UserSender
    ensures forall j :: userIndex < j < index ==> history[j].sender != UserSender
  {
    userIndex := index - 1;
    while userIndex >= 0 && history[userIndex].sender != UserSender
      invariant -1 <= userIndex < index
      invariant forall j :: userIndex < j < index ==> history[j].sender != UserSender
      decreases userIndex
    {
      userIndex := userIndex - 1;
    }
  }

  /** The backward scan for the last bot message: the largest index whose
      sender is `"bot"`, or -1 when there is none. */
  method LastBotIndex(history: seq<Message>) returns (last: int)
    ensures -1 <= last < |history|
    ensures last >= 0 ==> history[last].sender == BotSender
    ensures forall j :: last < j < |history| ==> history[j].sender != BotSender
  {
    last := -1;
    var i := |history| - 1;
    while i >= 0
      invariant -1 <= i < |history|
      invariant forall j :: i < j < |history| ==> history[j].sender != BotSender
      decreases i
    {
      if history[i].sender == BotSender {
        last := i;
        return;
      }
      i := i - 1;
    }
  }

  /** The `isLatestBot` flag each rendered message gets. */
  function LatestBotFlags(history: seq<Message>, last: int): (flags: seq<bool>)
    ensures |flags| == |history|
    ensures forall i :: 0 <= i < |history| ==> flags[i] == (history[i].sender == BotSender && i == last)
  {
    seq(|history|, i requires 0 <= i < |history| => history[i].sender == BotSender && i == last)
  }

  /** With the scan's result, exactly one message is marked when the history
      holds a bot message (the last one), and none otherwise. */
  lemma LatestBotMarksOne(history: seq<Message>, last: int)
    requires -1 <= last < |history|
    requires last >= 0 ==> history[last].sender == BotSender
    requires forall j :: last < j < |history| ==> history[j].sender != BotSender
    ensures var flags := LatestBotFlags(history, last);
            && (forall i, j :: 0 <= i < j < |history| && flags[i] ==> !flags[j])
            && ((exists k :: 0 <= k < |history| && history[k].sender == BotSender) <==> last >= 0)
            && (last >= 0 ==> flags[last] && forall k :: 0 <= k < |history| && history[k].sender == BotSender ==> k <= last)
  {
    if exists k :: 0 <= k < |history| && history[k].sender == BotSender {
      var k :| 0 <= k < |history| && history[k].sender == BotSender;
      assert k <= last;
    }
  }

  // ---------------------------------------------------------------------------
  // The local fallback answers
  // ---------------------------------------------------------------------------

  /** The client's own canned answers, keyed like the server's demo answers
      but longer, in the object literal's order. */
  const LocalResponses: seq<(string, string)> := [
    ("摩擦力",
     "滑动摩擦力是物体相对滑动时产生的阻碍相对运动的力。它的大小与接触面间的正压力成正比，方向与物体相对运动方向相反。\n\n**计算公式：** f = μN\n其中：\n- f 是滑动摩擦力\n- μ 是滑动摩擦系数\n- N 是正压力\n\n**特点：**\n- 方向与相对运动方向相反\n- 大小与相对运动速度无关\n- 与接触面的性质和粗糙程度有关"),
    ("牛顿第一定律",
     "牛顿第一定律，也称为**惯性定律**，表述为：任何物体在没有外力作用或合外力为零的情况下，都会保持静止状态或匀速直线运动状态。\n\n**要点：**\n1. 物体具有保持原有运动状态的性质，这种性质称为惯性\n2. 力不是维持物体运动的原因，而是改变物体运动状态的原因\n3. 该定律描述了物体的惯性，为后续牛顿定律奠定了基础"),
    ("加速度",
     "物体的加速度可以通过以下公式计算：\n\n**基本公式：**\na = (v₂ - v₁) / t\n\n其中：\n- a 是加速度（m/s²）\n- v₁ 是初始速度（m/s）\n- v₂ 是末速度（m/s）\n- t 是时间间隔（s）\n\n**根据牛顿第二定律：**\na = F / m\n\n其中：\n- F 是合外力（N）\n- m 是物体质量（kg）\n\n加速度的方向与合外力的方向相同。"),
    ("动能势能",
     "**动能**和**势能**是机械能的两种基本形式：\n\n**动能（Kinetic Energy）：**\n- 定义：物体由于运动而具有的能量\n- 公式：Ek = ½mv²\n- 单位：焦耳(J)\n- 标量，只有大小没有方向\n\n**势能（Potential Energy）：**\n- 定义：物体由于位置或状态而具有的能量\n- 重力势能：Ep = mgh\n- 弹性势能：Ep = ½kx²\n\n**机械能守恒定律：**\n在只有重力或弹力做功的情况下，物体的动能与势能之和保持不变。")
  ]

  /** The local fallback picks the answer of the first keyword, in table
      order, that the question contains; `None` stands for one of the three
      generic replies chosen at random. */
  method LocalResponse(question: string) returns (answer: Option<string>)
    ensures forall k :: 0 <= k < |LocalResponses| && Contains(question, LocalResponses[k].0)
                        && (forall j :: 0 <= j < k ==> !Contains(question, LocalResponses[j].0))
                        ==> answer == Some(LocalResponses[k].1)
    ensures answer.None? <==> forall k :: 0 <= k < |LocalResponses| ==> !Contains(question, LocalResponses[k].0)
  {
    FirstMatchIsFirst(question, LocalResponses);
    answer := FirstKeywordResponse(question, LocalResponses);
  }

  /** The client's keywords, in the object literal's order. */
  lemma LocalKeywords()
    ensures Keywords(LocalResponses) == ["摩擦力", "牛顿第一定律", "加速度", "动能势能"]
  {
  }

  /** The client and the server's demo answerer use the same keywords in the
      same order, so both fall back on their default for the same questions. */
  lemma SameKeywordsAsDemo(question: string)
    ensures Keywords(LocalResponses) == Keywords(Server.DemoResponses)
    ensures FirstMatch(question, LocalResponses).None? <==> FirstMatch(question, Server.DemoResponses).None?
  {
    LocalKeywords();
    Server.DemoKeywords();
    SameKeywordsSameMiss(question, LocalResponses, Server.DemoResponses);
  }

  // ---------------------------------------------------------------------------
  // The client's state
  // ---------------------------------------------------------------------------

  /** The page's global state. The answer to a question (`simulateAPICall`:
      the server's reply, or the local fallback) and the ids and timestamps
      that come from the clock are parameters. */
  class ChatClient {
    var messageHistory: seq<Message>
    var isLoading: bool
    var hasStartedConversation: bool
    var currentConversationId: Option<string>

    constructor ()
      ensures messageHistory == [] && !isLoading && !hasStartedConversation && currentConversationId == None
    {
      messageHistory := [];
      isLoading := false;
      hasStartedConversation := false;
      currentConversationId := None;
    }

    /** `addMessage`: exactly one message is appended; earlier entries are untouched. */
    method AddMessage(sender: string, text: string, id: string, timestamp: string) returns (messageId: string)
      modifies this
      ensures messageId == id
      ensures messageHistory == old(messageHistory) + [Message(id, sender, text, timestamp)]
      ensures isLoading == old(isLoading) && hasStartedConversation == old(hasStartedConversation)
      ensures currentConversationId == old(currentConversationId)
    {
      messageHistory := messageHistory + [Message(id, sender, text, timestamp)];
      messageId := id;
    }

    /** `handleFormSubmit`: a refused submission changes nothing; otherwise
        the conversation is marked started (taking the server's new id if
        there was none), and the trimmed question and then the answer are
        appended. */
    method HandleFormSubmit(input: string, createdId: Option<string>, answer: string -> string,
                            userId: string, userTime: string, botId: string, botTime: string)
      modifies this
      ensures !AcceptsSubmission(input, old(isLoading)) ==> unchanged(this)
      ensures AcceptsSubmission(input, old(isLoading)) ==>
                messageHistory == old(messageHistory) + [Message(userId, UserSender, JsTrim(input), userTime),
                                                         Message(botId, BotSender, answer(JsTrim(input)), botTime)]
      ensures AcceptsSubmission(input, old(isLoading)) ==>
                && hasStartedConversation
                && isLoading == old(isLoading)
                && currentConversationId == (if !old(hasStartedConversation) && old(currentConversationId).None?
                                             then createdId else old(currentConversationId))
    {
      var question := JsTrim(input);
      if question == [] || isLoading {
        return;
      }
      var reply := answer(question);  // the server's answer, or the local fallback
      if !hasStartedConversation {
        if currentConversationId.None? {
          currentConversationId := createdId;
        }
        hasStartedConversation := true;
      }
      var _ := AddMessage(UserSender, question, userId, userTime);
      var _ := AddMessage(BotSender, reply, botId, botTime);
    }

    /** `regenerateResponse`: when the id is present and a user message
        precedes it, every message with the id is removed and a fresh answer
        to that user question is appended; otherwise nothing changes. */
    method RegenerateResponse(messageId: string, answer: string -> string, botId: string, botTime: string)
      modifies this
      ensures var index := FindMessageIndex(old(messageHistory), messageId);
              index == -1 ==> unchanged(this)
      ensures var index := FindMessageIndex(old(messageHistory), messageId);
              index >= 0 && (forall j :: 0 <= j < index ==> old(messageHistory)[j].sender != UserSender)
              ==> unchanged(this)
      ensures var index := FindMessageIndex(old(messageHistory), messageId);
              forall u :: 0 <= u < index && old(messageHistory)[u].sender == UserSender
                          && (forall j :: u < j < index ==> old(messageHistory)[j].sender != UserSender)
                          ==> messageHistory == WithoutId(old(messageHistory), messageId)
                                                + [Message(botId, BotSender, answer(old(messageHistory)[u].text), botTime)]
      ensures isLoading == old(isLoading) && hasStartedConversation == old(hasStartedConversation)
      ensures currentConversationId == old(currentConversationId)
    {
      var history := messageHistory;
      var index := FindMessageIndex(history, messageId);
      if index == -1 {
        return;
      }
      var userIndex := NearestUserBefore(history, index);
      if userIndex < 0 {
        return;
      }
      forall u | 0 <= u < index && history[u].sender == UserSender
                 && (forall j :: u < j < index ==> history[j].sender != UserSender)
        ensures u == userIndex
      {
      }
      var reply := answer(history[userIndex].text);
      messageHistory := WithoutId(history, messageId);
      var _ := AddMessage(BotSender, reply, botId, botTime);
    }

    /** `loadConversation`: the stored messages (none when the field is
        missing) replace the history, and the rendering flags mark the last
        bot message only. */
    method LoadConversation(conversationId: string, messages: Option<seq<Message>>) returns (latest: seq<bool>)
      modifies this
      ensures currentConversationId == Some(conversationId)
      ensures messageHistory == (if messages.Some? then messages.value else [])
      ensures hasStartedConversation <==> |messageHistory| > 0
      ensures isLoading == old(isLoading)
      ensures |latest| == |messageHistory|
      ensures forall i, j :: 0 <= i < j < |latest| && latest[i] ==> !latest[j]
      ensures forall i :: 0 <= i < |latest| && latest[i] ==>
                messageHistory[i].sender == BotSender
                && forall j :: i < j < |messageHistory| ==> messageHistory[j].sender != BotSender
      ensures (exists k :: 0 <= k < |messageHistory| && messageHistory[k].sender == BotSender)
              <==> (exists i :: 0 <= i < |latest| && latest[i])
    {
      currentConversationId := Some(conversationId);
      messageHistory := if messages.Some? then messages.value else [];
      latest := [];
      if |messageHistory| > 0 {
        var last := LastBotIndex(messageHistory);
        latest := LatestBotFlags(messageHistory, last);
        LatestBotMarksOne(messageHistory, last);
        hasStartedConversation := true;
      } else {
        hasStartedConversation := false;
      }
    }
  }
}
