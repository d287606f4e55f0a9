/** Saving the chat state as JSON text, and migrating what is read back. */
module ChatSaving {
  import opened ChatMigration
  import opened ChatRoundTrip
  import opened ChatTypes
  import opened Options
  import opened SourceReferences

  import ChatStore
  import Sorting

  // ------------------------------------------------------------------
  // What text does to a value
  // ------------------------------------------------------------------

  /** `JSON.parse(JSON.stringify(value))`: an infinite number, which only a literal too large to represent
      gives, is written as null. */
  function Stringified(json: Json): Json {
    match json
    case JInfinity => JNull
    case JArray(items) => JArray(seq(|items|, i requires 0 <= i < |items| => Stringified(items[i])))
    case JObject(fields) => JObject(map k | k in fields :: Stringified(fields[k]))
    case _ => json
  }

  predicate Finite(json: Json) {
    match json
    case JInfinity => false
    case JArray(items) => forall i | 0 <= i < |items| :: Finite(items[i])
    case JObject(fields) => forall k | k in fields :: Finite(fields[k])
    case _ => true
  }

  predicate FiniteFields(fields: Fields) {
    forall k | k in fields :: Finite(fields[k])
  }

  lemma {:induction false} StringifiedIsFinite(json: Json)
    ensures Finite(Stringified(json))
    ensures Finite(json) <==> Stringified(json) == json
  {
    match json
    case JArray(items) =>
      forall i | 0 <= i < |items|
        ensures Finite(Stringified(items[i])) && (Finite(items[i]) <==> Stringified(items[i]) == items[i])
      {
        StringifiedIsFinite(items[i]);
      }
    case JObject(fields) =>
      forall k | k in fields
        ensures Finite(Stringified(fields[k])) && (Finite(fields[k]) <==> Stringified(fields[k]) == fields[k])
      {
        StringifiedIsFinite(fields[k]);
      }
    case _ =>
  }

  // ------------------------------------------------------------------
  // Finite states
  // ------------------------------------------------------------------

  // Only the arguments and results of tool calls can hold an infinite number.

  predicate FiniteCall(x: ToolCall) {
    FiniteFields(x.args) && (x.result.Some? ==> Finite(x.result.value))
  }

  predicate FiniteMessage(x: Message) {
    x.toolCalls.Some? ==> forall c <- x.toolCalls.value :: FiniteCall(c)
  }

  predicate FiniteSession(x: Session) {
    forall m <- x.messages :: FiniteMessage(m)
  }

  predicate FiniteStore(s: Store) {
    forall x <- s.sessions :: FiniteSession(x)
  }

  // ------------------------------------------------------------------
  // What finite values give
  // ------------------------------------------------------------------

  lemma FiniteFieldIs(value: Option<Json>, key: Key)
    requires value.Some? ==> Finite(value.value)
    ensures FiniteFields(RecordOrEmpty(value))
    ensures Get(RecordOrEmpty(value), key).Some? ==> Finite(Get(RecordOrEmpty(value), key).value)
  {
  }

  lemma FiniteItem(value: Option<Json>, raw: Json)
    requires value.Some? ==> Finite(value.value)
    requires raw in ArrayOf(value)
    ensures Finite(raw)
  {
  }

  lemma FiniteCallRead(raw: Json)
    requires Finite(raw)
    ensures ReadToolCall(raw).Some? ==> FiniteCall(ReadToolCall(raw).value)
  {
    hide CallStatusNamed;
    var f := RecordOrEmpty(Some(raw));
    FiniteFieldIs(Some(raw), ArgsKey);
    FiniteFieldIs(Some(raw), ResultKey);
    FiniteFieldIs(Get(f, ArgsKey), ArgsKey);
  }

  lemma FiniteMessageRead(host: Host, raw: Json)
    requires Finite(raw)
    ensures ReadMessage(host, raw).Some? ==> FiniteMessage(ReadMessage(host, raw).value)
  {
    var calls := Get(RecordOrEmpty(Some(raw)), ToolCallsKey);
    FiniteFieldIs(Some(raw), ToolCallsKey);
    hide Finite, FiniteCall, RoleNamed, ReadTimestamp, ReadLlm, IsBlank, ReadAll, ReadToolCall;
    forall c <- ReadToolCalls(calls) ensures FiniteCall(c) {
      var item := ReadAllMember(ReadToolCall, ArrayOf(calls), c);
      FiniteItem(calls, item);
      FiniteCallRead(item);
    }
  }

  lemma FiniteSessionRead(host: Host, raw: Json)
    requires Finite(raw)
    ensures ReadSession(host, raw).Some? ==> FiniteSession(ReadSession(host, raw).value)
  {
    var messages := Get(RecordOrEmpty(Some(raw)), MessagesKey);
    FiniteFieldIs(Some(raw), MessagesKey);
    hide Finite, FiniteMessage, ReadTimestamp, ReadAnalyses, ReadMessage, ReadAll;
    forall m <- ReadMessages(host, messages) ensures FiniteMessage(m) {
      var item := ReadAllMember(MessageReader(host), ArrayOf(messages), m);
      FiniteItem(messages, item);
      FiniteMessageRead(host, item);
    }
  }

  /** From a value without infinite numbers comes a state without. */
  lemma FiniteIsMigrated(host: Host, persisted: Json)
    requires Finite(persisted)
    ensures FiniteStore(Migrated(host, persisted))
  {
    var sessions := Get(RecordOrEmpty(Some(persisted)), SessionsKey);
    FiniteFieldIs(Some(persisted), SessionsKey);
    hide Finite, FiniteSession, ReadDocuments, ReadSession, ReadAll, Sorting.SortBy, ChosenSession, ChosenDocument;
    var all := ReadSessions(host, sessions);
    Sorting.SortByKeepsMembers(all, MoreRecent);
    forall x <- Migrated(host, persisted).sessions ensures FiniteSession(x) {
      assert x in all;
      var item := ReadAllMember(SessionReader(host), ArrayOf(sessions), x);
      FiniteItem(sessions, item);
      FiniteSessionRead(host, item);
    }
  }

  // ------------------------------------------------------------------
  // What finite states are written as
  // ------------------------------------------------------------------

  lemma FinitePut(fields: Fields, key: Key, value: Option<Json>)
    requires FiniteFields(fields) && (value.Some? ==> Finite(value.value))
    ensures FiniteFields(Put(fields, key, value))
  {
  }

  lemma FiniteList<T>(items: seq<T>, write: T -> Json)
    requires forall x <- items :: Finite(write(x))
    ensures Finite(List(items, write))
  {
    var written := ChatStore.Map(items, write);
    forall i | 0 <= i < |written| ensures Finite(written[i]) {
      assert items[i] in items;
    }
  }

  lemma FiniteTexts(s: Option<string>, n: Option<nat>)
    ensures Text(s).Some? ==> Finite(Text(s).value)
    ensures Finite(TextOrNull(s))
    ensures OptionalInteger(n).Some? ==> Finite(OptionalInteger(n).value)
  {
  }

  lemma FiniteCallWritten(x: ToolCall)
    requires FiniteCall(x)
    ensures Finite(WriteToolCall(x))
  {
  }

  lemma FiniteLlmWritten(x: LlmConfig)
    ensures Finite(WriteLlm(x))
  {
    FiniteTexts(x.provider, x.maxTokens);
    FiniteTexts(x.llmModel, None);
    FiniteTexts(x.reasoningEffort, None);
    FiniteTexts(x.bigContextModel, None);
    hide Put, Text, OptionalInteger;
    var f0: Fields := map[ConfiguredKey := JBool(true)];
    var f1 := Put(f0, ProviderKey, Text(x.provider));
    var f2 := Put(f1, ModelKey, Text(x.llmModel));
    var f3 := Put(f2, ReasoningEffortKey, Text(x.reasoningEffort));
    var f4 := Put(f3, MaxTokensKey, OptionalInteger(x.maxTokens));
    assert FiniteFields(f0);
    FinitePut(f0, ProviderKey, Text(x.provider));
    FinitePut(f1, ModelKey, Text(x.llmModel));
    FinitePut(f2, ReasoningEffortKey, Text(x.reasoningEffort));
    FinitePut(f3, MaxTokensKey, OptionalInteger(x.maxTokens));
    FinitePut(f4, BigContextModelKey, Text(x.bigContextModel));
  }

  lemma FiniteMessageWritten(x: Message)
    requires FiniteMessage(x)
    ensures Finite(WriteMessage(x))
  {
    if x.llm.Some? { FiniteLlmWritten(x.llm.value); }
    if x.toolCalls.Some? {
      forall c <- x.toolCalls.value ensures Finite(WriteToolCall(c)) { FiniteCallWritten(c); }
      FiniteList(x.toolCalls.value, WriteToolCall);
    }
    hide FiniteCall, WriteToolCall, WriteLlm, List, Put, RoleName;
    var f0: Fields := map[IdKey := JString(x.id), RoleKey := JString(RoleName(x.role)),
                          ContentKey := JString(x.content), CreatedAtKey := JNumber(x.createdAt)];
    var llm := if x.llm.Some? then Some(WriteLlm(x.llm.value)) else None;
    var verified := if x.verified then Some(JBool(true)) else None;
    var f1 := Put(f0, LlmKey, llm);
    var f2 := Put(f1, VerifiedKey, verified);
    assert FiniteFields(f0);
    FinitePut(f0, LlmKey, llm);
    FinitePut(f1, VerifiedKey, verified);
    FinitePut(f2, ToolCallsKey, OptionalList(x.toolCalls, WriteToolCall));
  }

  lemma FiniteReferenceWritten(x: SourceReference)
    ensures Finite(WriteReference(x))
  {
  }

  lemma FiniteAnalysisWritten(x: Analysis)
    ensures Finite(WriteAnalysis(x))
  {
    forall r <- x.sourceReferences ensures Finite(WriteReference(r)) { FiniteReferenceWritten(r); }
    FiniteList(x.sourceReferences, WriteReference);
    FiniteTexts(x.repo, None);
    FiniteTexts(x.repoName, None);
    assert Finite(WriteSummary(x.summary));
    hide WriteReference, List, TextOrNull, WriteSummary;
  }

  lemma FiniteSessionWritten(x: Session)
    requires FiniteSession(x)
    ensures Finite(WriteSession(x))
  {
    forall m <- x.messages ensures Finite(WriteMessage(m)) { FiniteMessageWritten(m); }
    FiniteList(x.messages, WriteMessage);
    if x.analyses.Some? {
      forall a <- x.analyses.value ensures Finite(WriteAnalysis(a)) { FiniteAnalysisWritten(a); }
      FiniteList(x.analyses.value, WriteAnalysis);
    }
    hide FiniteMessage, WriteMessage, WriteAnalysis, List, Put;
    var f0: Fields := map[IdKey := JString(x.id), TitleKey := JString(x.title), CreatedAtKey := JNumber(x.createdAt),
                          UpdatedAtKey := JNumber(x.updatedAt), MessagesKey := List(x.messages, WriteMessage)];
    assert FiniteFields(f0);
    FinitePut(f0, AnalysesKey, OptionalList(x.analyses, WriteAnalysis));
  }

  lemma FiniteQuestionWritten(x: Question)
    ensures Finite(WriteQuestion(x))
  {
    FiniteTexts(x.prompt, None);
    FiniteTexts(x.answer, None);
    FiniteTexts(x.error, None);
    var answeredAt := if x.answeredAt.Some? then Some(JNumber(x.answeredAt.value)) else None;
    var messageIds := if x.messageIds.Some? then Some(WriteMessageIds(x.messageIds.value)) else None;
    assert messageIds.Some? ==> Finite(messageIds.value);
    hide WriteMessageIds, Text, Put, QuestionStatusName;
    var f0: Fields := map[IdKey := JString(x.id), OrderKey := Integer(x.order), LabelKey := JString(x.labelText),
                          TextKey := JString(x.text), ContextKey := JString(x.context),
                          StatusKey := JString(QuestionStatusName(x.status))];
    var f1 := Put(f0, PromptKey, Text(x.prompt));
    var f2 := Put(f1, AnswerKey, Text(x.answer));
    var f3 := Put(f2, ErrorKey, Text(x.error));
    var f4 := Put(f3, AnsweredAtKey, answeredAt);
    assert FiniteFields(f0);
    FinitePut(f0, PromptKey, Text(x.prompt));
    FinitePut(f1, AnswerKey, Text(x.answer));
    FinitePut(f2, ErrorKey, Text(x.error));
    FinitePut(f3, AnsweredAtKey, answeredAt);
    FinitePut(f4, MessageIdsKey, messageIds);
  }

  lemma FiniteDocumentWritten(x: WorkDocument)
    ensures Finite(WriteDocument(x))
  {
    forall q <- x.questions ensures Finite(WriteQuestion(q)) { FiniteQuestionWritten(q); }
    FiniteList(x.questions, WriteQuestion);
    FiniteTexts(x.repo, None);
    FiniteTexts(x.repoName, None);
    FiniteTexts(x.sessionId, None);
    hide WriteQuestion, List, TextOrNull, Text, Put;
    var f0: Fields := map[IdKey := JString(x.id), FilenameKey := JString(x.filename),
                          ImportedAtKey := JNumber(x.importedAt), RepoKey := TextOrNull(x.repo),
                          RepoNameKey := TextOrNull(x.repoName), SourceBytesKey := Integer(x.sourceBytes),
                          MarkdownCharsKey := Integer(x.markdownChars), QuestionsKey := List(x.questions, WriteQuestion)];
    assert FiniteFields(f0);
    FinitePut(f0, SessionIdKey, Text(x.sessionId));
  }

  lemma FiniteIsWritten(s: Store)
    requires FiniteStore(s)
    ensures Finite(Written(s))
  {
    forall x <- s.sessions ensures Finite(WriteSession(x)) { FiniteSessionWritten(x); }
    FiniteList(s.sessions, WriteSession);
    forall x <- s.workDocuments ensures Finite(WriteDocument(x)) { FiniteDocumentWritten(x); }
    FiniteList(s.workDocuments, WriteDocument);
    FiniteTexts(s.currentSessionId, None);
    FiniteTexts(s.selectedRepo, None);
    FiniteTexts(s.selectedRepoName, None);
    FiniteTexts(s.currentWorkDocumentId, None);
    hide FiniteSession, WriteSession, WriteDocument, List, TextOrNull;
  }

  // ------------------------------------------------------------------
  // Saving and migrating
  // ------------------------------------------------------------------

  /** What is read back of a saved state. */
  function Saved(s: Store): Json {
    Stringified(Written(s))
  }

  /** A state is read back as it was saved exactly when it is clean and holds no infinite number. */
  lemma ReadBackIffClean(host: Host, s: Store)
    requires Sane(host)
    ensures Migrated(host, Saved(s)) == s <==> CleanStore(host, s) && FiniteStore(s)
  {
    hide Migrated, Written, Stringified, CleanStore, FiniteStore, Finite, Sane;
    StringifiedIsFinite(Written(s));
    if CleanStore(host, s) && FiniteStore(s) {
      FiniteIsWritten(s);
      CleanIsReadBack(host, s);
    } else {
      MigratedIsClean(host, Saved(s));
      FiniteIsMigrated(host, Saved(s));
    }
  }

  /** Migrating what was migrated changes nothing. With a save in between it changes nothing exactly when
      no number is infinite, which is so if the first value held none; and after one save it always is. */
  lemma MigrationIsIdempotent(host: Host, persisted: Json)
    requires Sane(host)
    ensures
      var state := Migrated(host, persisted);
      var again := Migrated(host, Saved(state));
      && ChatStore.Inv(state)
      && Migrated(host, Written(state)) == state
      && (again == state <==> FiniteStore(state))
      && (Finite(persisted) ==> FiniteStore(state))
      && Migrated(host, Saved(again)) == again
  {
    hide Migrated, Written, Stringified, CleanStore, FiniteStore, Finite, ChatStore.Inv, Sane;
    var state := Migrated(host, persisted);
    MigratedIsClean(host, persisted);
    CleanKeepsInv(host, state);
    CleanIsReadBack(host, state);
    ReadBackIffClean(host, state);
    if Finite(persisted) { FiniteIsMigrated(host, persisted); }
    StringifiedIsFinite(Written(state));
    MigratedIsClean(host, Saved(state));
    FiniteIsMigrated(host, Saved(state));
    ReadBackIffClean(host, Migrated(host, Saved(state)));
  }

  /** A tool call whose result is an infinite number is clean, but saved and read back its result is null. */
  lemma InfiniteResultIsLost(call: ToolCall)
    requires CleanToolCall(call) && call.result == Some(JInfinity) && call.args == map[]
    ensures ReadToolCall(Stringified(WriteToolCall(call))) == Some(call.(result := Some(JNull)))
  {
  }
}
