/** The conversation store of the web server (`ConversationManager` and the
    `update_conversation` handler, web/app.py). Conversations are JSON files
    named after their session id; the listing summarises every session file
    and orders the summaries by `updated_at`, newest first; an update merges
    the request's `messages` and `title` into the stored conversation. The
    directory listing and the file contents are inputs. */
module Conversations {
  import opened Outcomes
  import opened Text
  import opened JsonValues
  import opened StableSort

  // ---------------------------------------------------------------------------
  // Session file names
  // ---------------------------------------------------------------------------

  const SessionPrefix: string := "Session_"
  const SessionSuffix: string := ".json"

  /** `_get_session_filename`: `Session_<id>.json`. */
  function SessionFilename(sessionId: string): (filename: string)
    ensures IsSessionFile(filename)
    ensures OccursAt(filename, sessionId, |SessionPrefix|) && |filename| == |sessionId| + 13
  {
    SessionPrefix + sessionId + SessionSuffix
  }

  /** The listing's file filter: `startswith('Session_') and endswith('.json')`. */
  predicate IsSessionFile(filename: string)
  {
    SessionPrefix <= filename && |SessionSuffix| <= |filename| && filename[|filename| - |SessionSuffix|..] == SessionSuffix
  }

  /** The id the listing falls back on: `filename.replace('Session_', '').replace('.json', '')`. */
  function RecoverSessionId(filename: string): string
  {
    RemoveAll(RemoveAll(filename, SessionPrefix), SessionSuffix)
  }

  /** An occurrence of `p` in `a + b` that starts inside `a` lies inside `a`,
      or covers `b[0]` at a pattern position other than 0. */
  lemma OccurrenceAcrossJoin(a: string, b: string, p: string, i: nat)
    requires OccursAt(a + b, p, i) && i < |a| && |b| > 0
    ensures OccursAt(a, p, i) || (0 < |a| - i < |p| && p[|a| - i] == b[0])
  {
    if i + |p| > |a| {
      assert (a + b)[|a|] == b[0];
      assert p[|a| - i] == (a + b)[i..i + |p|][|a| - i];
    } else {
      assert (a + b)[i..i + |p|] == a[i..i + |p|];
    }
  }

  /** `s.replace(p, "")` of `a + p` gives back `a` when `p` occurs nowhere
      before the appended copy. */
  lemma {:induction false} RemoveAllTrailing(a: string, p: string)
    requires |p| > 0
    requires forall i :: 0 <= i < |a| ==> !OccursAt(a + p, p, i)
    ensures RemoveAll(a + p, p) == a
    decreases |a|
  {
    if |a| == 0 {
      assert p[|p|..] == [];
      assert a + p == p;
    } else {
      assert !OccursAt(a + p, p, 0);
      assert !(p <= a + p);
      assert (a + p)[1..] == a[1..] + p;
      forall i | 0 <= i < |a[1..]| ensures !OccursAt(a[1..] + p, p, i) {
        assert !OccursAt(a + p, p, i + 1);
        assert (a[1..] + p)[i..] == (a + p)[i + 1..];
      }
      RemoveAllTrailing(a[1..], p);
      assert [a[0]] + a[1..] == a;
    }
  }

  /** `Session_` does not occur in `<id>.json` when it does not occur in the id. */
  lemma PrefixAbsentFromRest(sessionId: string)
    requires !Contains(sessionId, SessionPrefix)
    ensures !Contains(sessionId + SessionSuffix, SessionPrefix)
  {
    var rest := sessionId + SessionSuffix;
    ContainsIff(rest, SessionPrefix);
    if Contains(rest, SessionPrefix) {
      var i: nat :| OccursAt(rest, SessionPrefix, i);
      if i < |sessionId| {
        OccurrenceAcrossJoin(sessionId, SessionSuffix, SessionPrefix, i);
        ContainsIff(sessionId, SessionPrefix);
      }
    }
  }

  /** In `<id>.json`, `.json` occurs only at the end when it does not occur in the id. */
  lemma SuffixOnlyAtEnd(sessionId: string)
    requires !Contains(sessionId, SessionSuffix)
    ensures forall i :: 0 <= i < |sessionId| ==> !OccursAt(sessionId + SessionSuffix, SessionSuffix, i)
  {
    ContainsIff(sessionId, SessionSuffix);
    forall i | 0 <= i < |sessionId| ensures !OccursAt(sessionId + SessionSuffix, SessionSuffix, i) {
      if OccursAt(sessionId + SessionSuffix, SessionSuffix, i) {
        OccurrenceAcrossJoin(sessionId, SessionSuffix, SessionSuffix, i);
      }
    }
  }

  /** Recovering the id from its file name gives the id back whenever the id
      itself contains neither `Session_` nor `.json`. */
  lemma RecoverSessionIdRoundTrip(sessionId: string)
    requires !Contains(sessionId, SessionPrefix) && !Contains(sessionId, SessionSuffix)
    ensures RecoverSessionId(SessionFilename(sessionId)) == sessionId
  {
    var rest := sessionId + SessionSuffix;
    assert SessionFilename(sessionId) == SessionPrefix + rest;
    assert (SessionPrefix + rest)[|SessionPrefix|..] == rest;
    PrefixAbsentFromRest(sessionId);
    RemoveAllAbsent(rest, SessionPrefix);
    SuffixOnlyAtEnd(sessionId);
    RemoveAllTrailing(sessionId, SessionSuffix);
  }

  /** Without that condition the recovery loses text: the id "aSession_b" is
      recovered as "ab". */
  lemma RecoverSessionIdLossyExample()
    ensures RecoverSessionId(SessionFilename("aSession_b")) == "ab"
  {
    LossyFirstPass();
    LossySecondPass();
  }

  lemma LossyFirstPass()
    ensures RemoveAll(SessionFilename("aSession_b"), SessionPrefix) == "ab.json"
  {
    var f := SessionFilename("aSession_b");
    assert f == "Session_aSession_b.json";
    assert f[8..] == "aSession_b.json";
    LossyInnerId();
  }

  lemma LossyInnerId()
    ensures RemoveAll("aSession_b.json", SessionPrefix) == "ab.json"
  {
    LossyKeepsLeadingChar();
    LossyDropsPrefix();
    assert ['a'] + "b.json" == "ab.json";
  }

  lemma LossyKeepsLeadingChar()
    ensures RemoveAll("aSession_b.json", SessionPrefix) == ['a'] + RemoveAll("Session_b.json", SessionPrefix)
  {
    var s := "aSession_b.json";
    assert s[0] != SessionPrefix[0];
    assert s[1..] == "Session_b.json";
  }

  lemma LossyDropsPrefix()
    ensures RemoveAll("Session_b.json", SessionPrefix) == "b.json"
  {
    var t := "Session_b.json";
    assert t[..8] == SessionPrefix;
    assert t[8..] == "b.json";
    ShortTailKept();
  }

  lemma ShortTailKept()
    ensures RemoveAll("b.json", SessionPrefix) == "b.json"
  {
    assert |"b.json"| < |SessionPrefix|;
    RemoveAllShort("b.json", SessionPrefix);
  }

  lemma {:induction false} RemoveAllShort(s: string, p: string)
    requires 0 < |p| && |s| < |p|
    ensures RemoveAll(s, p) == s
    decreases |s|
  {
    if |s| > 0 {
      RemoveAllShort(s[1..], p);
      assert [s[0]] + s[1..] == s;
    }
  }

  lemma LossySecondPass()
    ensures RemoveAll("ab.json", SessionSuffix) == "ab"
  {
    assert "ab.json"[1..] == "b.json";
    assert "b.json"[1..] == ".json";
    assert ".json"[5..] == "";
    assert RemoveAll(".json", SessionSuffix) == "";
    assert RemoveAll("b.json", SessionSuffix) == "b";
  }
  // ---------------------------------------------------------------------------
  // Listing
  // ---------------------------------------------------------------------------

  /** Python's `<` on strings: lexicographic by code point, a proper prefix first. */
  function StrLess(a: string, b: string): bool
  {
    if |a| == 0 then |b| > 0
    else if |b| == 0 then false
    else if a[0] == b[0] then StrLess(a[1..], b[1..])
    else a[0] < b[0]
  }

  lemma {:induction false} StrLessIrreflexive(a: string)
    ensures !StrLess(a, a)
  {
    if |a| > 0 {
      StrLessIrreflexive(a[1..]);
    }
  }

  lemma {:induction false} StrLessTransitive(a: string, b: string, c: string)
    requires StrLess(a, b) && StrLess(b, c)
    ensures StrLess(a, c)
  {
    if |a| > 0 && |b| > 0 && |c| > 0 && a[0] == b[0] && b[0] == c[0] {
      StrLessTransitive(a[1..], b[1..], c[1..]);
    }
  }

  lemma {:induction false} StrLessConnected(a: string, b: string)
    requires a != b
    ensures StrLess(a, b) || StrLess(b, a)
  {
    if |a| > 0 && |b| > 0 && a[0] == b[0] {
      assert a == [a[0]] + a[1..] && b == [b[0]] + b[1..];
      StrLessConnected(a[1..], b[1..]);
    }
  }

  /** String comparison is a strict total order, so the sort is well defined on string keys. */
  lemma StrLessIsStrictTotalOrder()
    ensures StrictTotalOrder(StrLess)
  {
    forall a ensures !StrLess(a, a) {
      StrLessIrreflexive(a);
    }
    forall a, b, c | StrLess(a, b) && StrLess(b, c) ensures StrLess(a, c) {
      StrLessTransitive(a, b, c);
    }
    forall a, b | a != b ensures StrLess(a, b) || StrLess(b, a) {
      StrLessConnected(a, b);
    }
  }

  /** One file of the session directory: its name, and its parsed content
      (`None` when the file cannot be read or is not valid JSON). */
  datatype DirEntry = DirEntry(filename: string, content: Option<Json>)

  /** One conversation of the listing. */
  datatype Summary = Summary(id: Json, title: Json, createdAt: Json, updatedAt: Json, messageCount: nat)

  /** The title of a conversation that has none. */
  const UntitledTitle: string := "未命名对话"

  /** The summary dict built from one session file's content, or the
      exception that makes the loop skip the file: content that is not a dict
      has no `get`, and `len` of a `messages` value that is not a string, list
      or dict raises. */
  function Summarize(filename: string, data: Json): (r: Result<Summary, PyError>)
    ensures r.Ok? ==> data.JObj?
  {
    match data
    case JObj(fields) =>
      var count := PyLen(if "messages" in fields then fields["messages"] else JArr([]));
      if count.Err? then Err(count.error)
      else Ok(Summary(
        if "_id" in fields then fields["_id"] else JStr(RecoverSessionId(filename)),
        if "title" in fields then fields["title"] else JStr(UntitledTitle),
        if "created_at" in fields then fields["created_at"] else JNull,
        if "updated_at" in fields then fields["updated_at"] else JNull,
        count.value))
    case _ => Err(AttributeError)
  }

  /** What one directory entry adds to the listing: nothing for a file that is
      not a session file, cannot be loaded or cannot be summarised. */
  function EntrySummary(entry: DirEntry): Option<Summary>
  {
    if !IsSessionFile(entry.filename) || entry.content.None? then None
    else match Summarize(entry.filename, entry.content.value)
      case Ok(summary) => Some(summary)
      case Err(_) => None
  }

  /** The `conversations` list after the loop over `entries`. */
  function Summaries(entries: seq<DirEntry>): seq<Summary>
  {
    if |entries| == 0 then []
    else
      var last := EntrySummary(entries[|entries| - 1]);
      Summaries(entries[..|entries| - 1]) + (if last.Some? then [last.value] else [])
  }

  /** The sort key: the summary's `updated_at` string (`""` for the other values). */
  function UpdatedKey(summary: Summary): string
  {
    if summary.updatedAt.JStr? then summary.updatedAt.s else ""
  }

  /** Python can order the summaries as written: every key `x.get('updated_at', '')`
      is a string. The summary always holds `updated_at`, so a missing value
      reaches the sort as `None`, which raises `TypeError` as soon as two
      summaries are compared; a list of fewer than two is never compared. */
  predicate SortableAsWritten(summaries: seq<Summary>)
  {
    |summaries| < 2 || forall i :: 0 <= i < |summaries| ==> summaries[i].updatedAt.JStr?
  }

  /** The intended sort: a missing `updated_at` sorts as `""`, the default the key names. */
  predicate SortableIntended(summaries: seq<Summary>)
  {
    |summaries| < 2 || forall i :: 0 <= i < |summaries| ==> summaries[i].updatedAt.JStr? || summaries[i].updatedAt.JNull?
  }

  /** `list_conversations` as written: the summaries of the session files in
      directory order, sorted newest first; an exception anywhere in the sort
      turns the whole result into `[]`. `None` stands for a missing directory. */
  function ListingAsWritten(listing: Option<seq<DirEntry>>): seq<Summary>
  {
    var summaries := if listing.None? then [] else Summaries(listing.value);
    if SortableAsWritten(summaries) then SortDesc(summaries, UpdatedKey, StrLess) else []
  }

  /** The listing with the evident intent of the `''` default: a conversation
      without `updated_at` sorts last instead of emptying the listing. */
  function ListingIntended(listing: Option<seq<DirEntry>>): seq<Summary>
  {
    var summaries := if listing.None? then [] else Summaries(listing.value);
    if SortableIntended(summaries) then SortDesc(summaries, UpdatedKey, StrLess) else []
  }

  /** `list_conversations`: reads every session file into a summary, then
      sorts the list in place by `updated_at`, newest first. */
  method ListConversations(listing: Option<seq<DirEntry>>) returns (conversations: seq<Summary>)
    ensures conversations == ListingAsWritten(listing)
  {
    conversations := [];
    if listing.Some? {
      var entries := listing.value;
      for i := 0 to |entries|
        invariant conversations == Summaries(entries[..i])
      {
        assert entries[..i + 1][..i] == entries[..i];
        var summary := EntrySummary(entries[i]);
        if summary.Some? {
          conversations := conversations + [summary.value];
        }
      }
      assert entries[..|entries|] == entries;
    }
    if !SortableAsWritten(conversations) {
      return [];
    }
    var a := new Summary[|conversations|](i requires 0 <= i < |conversations| => conversations[i]);
    assert a[..] == conversations;
    SortInPlace(a, UpdatedKey, StrLess);
    conversations := a[..];
  }

  /** Whenever the listing is not empty it holds every summary exactly once,
      ordered by `updated_at`, newest first, with summaries of equal time in
      directory order. */
  lemma ListingOrdered(listing: Option<seq<DirEntry>>, t: string)
    requires listing.Some? && SortableAsWritten(Summaries(listing.value))
    ensures var r := ListingAsWritten(listing);
            && multiset(r) == multiset(Summaries(listing.value))
            && SortedDesc(r, UpdatedKey, StrLess)
            && WithKey(r, UpdatedKey, t) == WithKey(Summaries(listing.value), UpdatedKey, t)
  {
    var summaries := Summaries(listing.value);
    StrLessIsStrictTotalOrder();
    SortDescPermutation(summaries, UpdatedKey, StrLess);
    SortDescSorted(summaries, UpdatedKey, StrLess);
    SortDescStable(summaries, UpdatedKey, StrLess, t);
  }

  /** The time order means string order of the `updated_at` values: a summary
      listed before another has a time that is not smaller. */
  lemma ListingNewestFirst(listing: Option<seq<DirEntry>>, i: nat, j: nat)
    requires listing.Some? && SortableAsWritten(Summaries(listing.value))
    requires i < j < |ListingAsWritten(listing)|
    ensures ListingAsWritten(listing)[i].updatedAt.JStr? && ListingAsWritten(listing)[j].updatedAt.JStr?
    ensures !StrLess(ListingAsWritten(listing)[i].updatedAt.s, ListingAsWritten(listing)[j].updatedAt.s)
  {
    var summaries := Summaries(listing.value);
    ListingOrdered(listing, "");
    var r := ListingAsWritten(listing);
    assert r[i] in multiset(summaries) && r[j] in multiset(summaries);
    assert r[i] in summaries && r[j] in summaries;
  }

  /** As written, one conversation without `updated_at` next to any other
      empties the whole listing, where the intended listing keeps them all. */
  lemma ListingMissingUpdatedAt(listing: Option<seq<DirEntry>>, k: nat)
    requires listing.Some?
    requires |Summaries(listing.value)| >= 2
    requires k < |Summaries(listing.value)| && Summaries(listing.value)[k].updatedAt == JNull
    requires forall i :: 0 <= i < |Summaries(listing.value)| && i != k ==> Summaries(listing.value)[i].updatedAt.JStr?
    ensures ListingAsWritten(listing) == []
    ensures |ListingIntended(listing)| == |Summaries(listing.value)|
  {
  }

  /** The intended listing is always complete and ordered; it agrees with the
      code as written whenever every conversation has an `updated_at` string. */
  lemma ListingIntendedOrdered(listing: Option<seq<DirEntry>>)
    requires listing.Some? && SortableIntended(Summaries(listing.value))
    ensures multiset(ListingIntended(listing)) == multiset(Summaries(listing.value))
    ensures SortedDesc(ListingIntended(listing), UpdatedKey, StrLess)
    ensures SortableAsWritten(Summaries(listing.value)) ==> ListingIntended(listing) == ListingAsWritten(listing)
  {
    var summaries := Summaries(listing.value);
    StrLessIsStrictTotalOrder();
    SortDescPermutation(summaries, UpdatedKey, StrLess);
    SortDescSorted(summaries, UpdatedKey, StrLess);
  }

  /** A summary reports the length of the conversation's `messages` list (0
      without one), falls back on the id recovered from the file name and on
      the untitled title, and reports a missing `updated_at` as `None`. */
  lemma SummarizeFields(filename: string, fields: map<string, Json>)
    requires "messages" !in fields || fields["messages"].JArr?
    ensures var r := Summarize(filename, JObj(fields));
            && r.Ok?
            && r.value.messageCount == (if "messages" in fields then |fields["messages"].items| else 0)
            && ("_id" !in fields ==> r.value.id == JStr(RecoverSessionId(filename)))
            && ("title" !in fields ==> r.value.title == JStr(UntitledTitle))
            && ("updated_at" !in fields ==> r.value.updatedAt == JNull)
  {
  }

  /** A session file whose content is not a dict, or whose `messages` is a
      number, a boolean or `None`, is left out of the listing. */
  lemma SummarizeSkips(filename: string, data: Json)
    requires !data.JObj? || ("messages" in data.fields && (data.fields["messages"].JNum? || data.fields["messages"].JBool? || data.fields["messages"].JNull?))
    ensures EntrySummary(DirEntry(filename, Some(data))).None?
  {
  }
  // ---------------------------------------------------------------------------
  // Update
  // ---------------------------------------------------------------------------

  /** The outcome of `update_conversation`: 404 when there is no conversation,
      500 for an exception, or success with the conversation as saved. */
  datatype UpdateReply = NotFound | ServerError(error: PyError) | Updated(conversation: map<string, Json>)

  /** The value a request body supplies for `key`: only a dict body with that key supplies one. */
  function Supplied(data: Json, key: string): Option<Json>
  {
    if data.JObj? && key in data.fields then Some(data.fields[key]) else None
  }

  /** The fields the handler writes. */
  predicate IsMergedKey(key: string)
  {
    key == "messages" || key == "title" || key == "updated_at"
  }

  /** `update_conversation`. `body` is `request.json` (`JNull` when absent),
      `stored` what `load_conversation` returned and `now` the current
      timestamp. `request.json or {}` replaces a falsy body by `{}`; a stored
      value that is missing or falsy gives 404; `messages` and then `title`
      are copied when the body has them; `updated_at` is always refreshed. */
  method UpdateConversation(body: Json, stored: Option<Json>, now: string) returns (reply: UpdateReply)
    ensures reply == NotFound <==> stored.None? || Falsy(stored.value)
    ensures stored.Some? && stored.value.JObj? && !Falsy(stored.value) && (Falsy(body) || body.JObj?) ==> reply.Updated?
    ensures reply.ServerError? <==>
              && stored.Some? && !Falsy(stored.value)
              && (|| !stored.value.JObj?
                  || (&& !Falsy(body) && !body.JObj?
                      && (PyIn("messages", body) != Ok(false) || PyIn("title", body) == Ok(true))))
    ensures reply.Updated? ==>
              && stored.Some? && stored.value.JObj?
              && reply.conversation.Keys == stored.value.fields.Keys + {"updated_at"}
                   + (if Supplied(body, "messages").Some? then {"messages"} else {})
                   + (if Supplied(body, "title").Some? then {"title"} else {})
              && reply.conversation["updated_at"] == JStr(now)
              && (Supplied(body, "messages").Some? ==> reply.conversation["messages"] == Supplied(body, "messages").value)
              && (Supplied(body, "title").Some? ==> reply.conversation["title"] == Supplied(body, "title").value)
              && (forall key :: key in stored.value.fields && !IsMergedKey(key) ==> reply.conversation[key] == stored.value.fields[key])
              && (forall key :: key in stored.value.fields && key != "updated_at" && Supplied(body, key).None?
                    ==> reply.conversation[key] == stored.value.fields[key])
  {
    var data := if Falsy(body) then JObj(map[]) else body;
    assert forall key :: Supplied(data, key) == Supplied(body, key);
    if stored.None? || Falsy(stored.value) {
      return NotFound;
    }
    var conversation := stored.value;
    var hasMessages := PyIn("messages", data);
    if hasMessages.Err? {
      return ServerError(hasMessages.error);
    }
    if hasMessages.value {
      var messages := PySubscript(data, "messages");
      if messages.Err? {
        return ServerError(messages.error);
      }
      if !conversation.JObj? {
        return ServerError(TypeError);
      }
      conversation := JObj(conversation.fields["messages" := messages.value]);
    }
    // `data` supports `in` (the test above did not raise), so this test cannot raise.
    assert PyIn("title", data).Ok?;
    var hasTitle := PyIn("title", data);
    if hasTitle.value {
      var title := PySubscript(data, "title");
      if title.Err? {
        return ServerError(title.error);
      }
      if !conversation.JObj? {
        return ServerError(TypeError);
      }
      conversation := JObj(conversation.fields["title" := title.value]);
    }
    if !conversation.JObj? {
      return ServerError(TypeError);
    }
    reply := Updated(conversation.fields["updated_at" := JStr(now)]);
  }
}
