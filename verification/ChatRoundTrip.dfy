/** The chat state as a JSON value, and migrating it back.

    Migration makes a clean state of any JSON value; a clean state, taken as a JSON value and
    migrated again, comes back the same. A clean state satisfies the invariant of the chat
    store. */
module ChatRoundTrip {
  import opened ChatMigration
  import opened ChatTypes
  import opened Options
  import opened SourceReferences

  import ChatStore
  import Sorting

  // ------------------------------------------------------------------
  // Clean states
  // ------------------------------------------------------------------

  predicate CleanString(s: Option<string>) {
    s.Some? ==> s.value != ""
  }

  predicate CleanToolCall(x: ToolCall) {
    x.id != "" && x.name != ""
  }

  predicate CleanLlm(x: LlmConfig) {
    CleanString(x.provider) && CleanString(x.llmModel) && CleanString(x.reasoningEffort)
    && CleanString(x.bigContextModel)
  }

  predicate CleanMessage(host: Host, x: Message) {
    && x.id != ""
    && (x.role == Assistant ==> !IsBlank(host, x.content))
    && (x.llm.Some? ==> CleanLlm(x.llm.value))
    && (x.toolCalls.Some? ==> x.toolCalls.value != [] && forall c <- x.toolCalls.value :: CleanToolCall(c))
  }

  predicate CleanReference(x: SourceReference) {
    && x.path != "" && Normalize(x.path) == x.path
    && (x.startLine.Some? ==> x.startLine.value > 0) && (x.endLine.Some? ==> x.endLine.value > 0)
  }

  ghost predicate CleanAnalysis(x: Analysis) {
    && x.id != "" && x.title != ""
    && Sorting.NoDuplicates(x.sourceReferences)
    && forall r <- x.sourceReferences :: CleanReference(r)
  }

  ghost predicate CleanAnalyses(xs: seq<Analysis>) {
    && |xs| <= MAX_ANALYSES && Sorting.SortedBy(xs, MoreRecentAnalysis)
    && forall x <- xs :: CleanAnalysis(x)
  }

  ghost predicate CleanSession(host: Host, x: Session) {
    && x.id != ""
    && (forall m <- x.messages :: CleanMessage(host, m))
    && (x.analyses.Some? ==> x.analyses.value != [] && CleanAnalyses(x.analyses.value))
  }

  predicate CleanMessageIds(x: MessageIds) {
    CleanString(x.user) && CleanString(x.assistant) && (x.user.Some? || x.assistant.Some?)
  }

  predicate CleanQuestion(x: Question) {
    && x.id != "" && x.text != "" && x.order > 0
    && CleanString(x.prompt) && CleanString(x.answer) && CleanString(x.error)
    && (x.messageIds.Some? ==> CleanMessageIds(x.messageIds.value))
  }

  ghost predicate CleanQuestions(xs: seq<Question>) {
    && |xs| <= MAX_QUESTIONS && Sorting.SortedBy(xs, EarlierQuestion)
    && forall x <- xs :: CleanQuestion(x)
  }

  ghost predicate CleanDocument(x: WorkDocument) {
    && x.id != "" && x.filename != "" && CleanString(x.sessionId) && x.sourceMarkdown.None?
    && CleanQuestions(x.questions)
  }

  ghost predicate CleanDocuments(xs: seq<WorkDocument>) {
    && |xs| <= MAX_WORK_DOCUMENTS && Sorting.SortedBy(xs, MoreRecentDocument)
    && forall x <- xs :: CleanDocument(x)
  }

  ghost predicate CleanSessions(host: Host, xs: seq<Session>) {
    && Sorting.SortedBy(xs, MoreRecent)
    && forall x <- xs :: CleanSession(host, x)
  }

  /** The current id is one of the ids, or there are none. */
  predicate CleanChoice(choice: Option<Id>, ids: set<Id>) {
    if choice.Some? then choice.value in ids else ids == {}
  }

  ghost predicate CleanStore(host: Host, s: Store) {
    && CleanSessions(host, s.sessions) && CleanDocuments(s.workDocuments)
    && CleanChoice(s.currentSessionId, SessionIds(s.sessions))
    && CleanChoice(s.currentWorkDocumentId, DocumentIds(s.workDocuments))
    && (s.selectedRepoName.Some? <==> ChatStore.Truthy(s.selectedRepo))
  }

  // ------------------------------------------------------------------
  // Reading makes clean
  // ------------------------------------------------------------------

  /** The message put in place of a blank answer is not blank itself. */
  predicate Sane(host: Host) {
    !host.isSpace('_')
  }

  lemma ReadToolCallsClean(value: Option<Json>)
    ensures forall c <- ReadToolCalls(value) :: CleanToolCall(c)
  {
    forall c <- ReadToolCalls(value) ensures CleanToolCall(c) {
      var raw := ReadAllMember(ReadToolCall, ArrayOf(value), c);
    }
  }

  lemma ReadMessageClean(host: Host, raw: Json)
    requires Sane(host)
    ensures ReadMessage(host, raw).Some? ==> CleanMessage(host, ReadMessage(host, raw).value)
  {
    hide ReadToolCalls, RoleNamed, ReadTimestamp, ReadNonNegativeInteger;
    var f := RecordOrEmpty(Some(raw));
    ReadToolCallsClean(Get(f, ToolCallsKey));
    assert EMPTY_ASSISTANT_RESPONSE[0] == '_' && !host.isSpace(EMPTY_ASSISTANT_RESPONSE[0]);
    assert !IsBlank(host, EMPTY_ASSISTANT_RESPONSE);
  }

  lemma NormalizeTwice(path: string)
    ensures Normalize(Normalize(path)) == Normalize(path) && |Normalize(path)| == |path|
  {
  }

  lemma {:induction false} ReadReferencesClean(host: Host, items: seq<Json>)
    ensures Sorting.NoDuplicates(ReadReferences(host, items))
    ensures forall r <- ReadReferences(host, items) :: CleanReference(r)
  {
    hide Normalize, ReadNonNegativeInteger;
    if items != [] {
      ReadReferencesClean(host, items[..|items| - 1]);
      var f := RecordOrEmpty(Some(items[|items| - 1]));
      NormalizeTwice(OrElse(ReadNonEmpty(Get(f, PathKey)), ""));
    }
  }

  lemma ReadAnalysesClean(host: Host, value: Option<Json>)
    ensures CleanAnalyses(ReadAnalyses(host, value))
  {
    hide Sorting.SortBy, ReadReferences, ReadTimestamp, ReadSummary, CleanReference;
    var all := ReadAll(AnalysisReader(host), ArrayOf(value));
    var sorted := Sorting.SortBy(all, MoreRecentAnalysis);
    ChatStore.RecencyOrders();
    Sorting.SortBySorts(all, MoreRecentAnalysis);
    Sorting.SortByKeepsMembers(all, MoreRecentAnalysis);
    forall x <- ReadAnalyses(host, value) ensures CleanAnalysis(x) {
      assert x in sorted;
      var raw := ReadAllMember(AnalysisReader(host), ArrayOf(value), x);
      ReadReferencesClean(host, ArrayOf(Get(RecordOrEmpty(Some(raw)), SourceReferencesKey)));
    }
  }

  lemma ReadSessionClean(host: Host, raw: Json)
    requires Sane(host)
    ensures ReadSession(host, raw).Some? ==> CleanSession(host, ReadSession(host, raw).value)
  {
    hide ReadMessage, ReadTimestamp, ReadAnalyses, CleanMessage, CleanAnalyses;
    var f := RecordOrEmpty(Some(raw));
    ReadAnalysesClean(host, Get(f, AnalysesKey));
    forall m <- ReadMessages(host, Get(f, MessagesKey)) ensures CleanMessage(host, m) {
      var r := ReadAllMember(MessageReader(host), ArrayOf(Get(f, MessagesKey)), m);
      ReadMessageClean(host, r);
    }
  }

  lemma ReadSessionsClean(host: Host, value: Option<Json>)
    requires Sane(host)
    ensures CleanSessions(host, ChatStore.ByRecentActivity(ReadSessions(host, value)))
  {
    hide Sorting.SortBy, ReadSession, CleanSession;
    var all := ReadSessions(host, value);
    ChatStore.RecencyOrders();
    Sorting.SortBySorts(all, MoreRecent);
    Sorting.SortByKeepsMembers(all, MoreRecent);
    forall x <- ChatStore.ByRecentActivity(all) ensures CleanSession(host, x) {
      assert x in all;
      var raw := ReadAllMember(SessionReader(host), ArrayOf(value), x);
      ReadSessionClean(host, raw);
    }
  }

  lemma ReadQuestionClean(host: Host, raw: Json, n: nat)
    ensures ReadQuestion(host, raw, n).Some? ==> CleanQuestion(ReadQuestion(host, raw, n).value)
  {
    hide ReadNonNegativeInteger, ReadTimestamp, QuestionStatusNamed;
  }

  lemma {:induction false} ReadQuestionListClean(host: Host, items: seq<Json>)
    ensures |ReadQuestionList(host, items)| <= |items|
    ensures forall q <- ReadQuestionList(host, items) :: CleanQuestion(q)
  {
    hide ReadQuestion, CleanQuestion;
    if items != [] {
      ReadQuestionListClean(host, items[..|items| - 1]);
      ReadQuestionClean(host, items[|items| - 1], |ReadQuestionList(host, items[..|items| - 1])|);
    }
  }

  lemma ReadQuestionsClean(host: Host, value: Option<Json>)
    ensures CleanQuestions(ReadQuestions(host, value))
  {
    hide Sorting.SortBy, ReadQuestionList, CleanQuestion;
    var all := ReadQuestionList(host, ChatStore.Take(ArrayOf(value), MAX_QUESTIONS));
    ReadQuestionListClean(host, ChatStore.Take(ArrayOf(value), MAX_QUESTIONS));
    Sorting.SortBySorts(all, EarlierQuestion);
    Sorting.SortByKeepsMembers(all, EarlierQuestion);
  }

  lemma ReadDocumentsClean(host: Host, value: Option<Json>)
    ensures CleanDocuments(ReadDocuments(host, value))
  {
    hide Sorting.SortBy, ReadQuestions, ReadTimestamp, ReadNonNegativeInteger, CleanQuestions;
    var all := ReadAll(DocumentReader(host), ArrayOf(value));
    var sorted := Sorting.SortBy(all, MoreRecentDocument);
    Sorting.SortBySorts(all, MoreRecentDocument);
    Sorting.SortByKeepsMembers(all, MoreRecentDocument);
    forall x <- ReadDocuments(host, value) ensures CleanDocument(x) {
      assert x in sorted;
      var raw := ReadAllMember(DocumentReader(host), ArrayOf(value), x);
      ReadQuestionsClean(host, Get(RecordOrEmpty(Some(raw)), QuestionsKey));
    }
  }

  /** Whatever was saved, the state read is clean. */
  lemma MigratedIsClean(host: Host, persisted: Json)
    requires Sane(host)
    ensures CleanStore(host, Migrated(host, persisted))
  {
    hide ReadSessions, ReadDocuments, CleanSessions, CleanDocuments, ChatStore.ByRecentActivity;
    var f := RecordOrEmpty(Some(persisted));
    ReadSessionsClean(host, Get(f, SessionsKey));
    ReadDocumentsClean(host, Get(f, WorkDocumentsKey));
  }

  /** A clean state satisfies the invariant of the store. */
  lemma CleanKeepsInv(host: Host, s: Store)
    requires CleanStore(host, s)
    ensures ChatStore.Inv(s)
  {
    hide CleanMessage, CleanAnalysis, CleanDocument;
    forall k | 0 <= k < |s.sessions| ensures ChatStore.AnalysesFit(s.sessions[k]) {
      assert CleanSession(host, s.sessions[k]);
    }
  }

  // ------------------------------------------------------------------
  // Writing
  // ------------------------------------------------------------------

  /** An optional property is left out when absent. */
  function Put(fields: Fields, key: Key, value: Option<Json>): Fields {
    if value.Some? then fields[key := value.value] else fields
  }

  function Text(s: Option<string>): Option<Json> {
    if s.Some? then Some(JString(s.value)) else None
  }

  function TextOrNull(s: Option<string>): Json {
    if s.Some? then JString(s.value) else JNull
  }

  function Integer(n: nat): Json {
    JNumber(n as real)
  }

  function OptionalInteger(n: Option<nat>): Option<Json> {
    if n.Some? then Some(Integer(n.value)) else None
  }

  function List<T>(items: seq<T>, write: T -> Json): Json {
    JArray(ChatStore.Map(items, write))
  }

  function OptionalList<T>(items: Option<seq<T>>, write: T -> Json): Option<Json> {
    if items.Some? then Some(List(items.value, write)) else None
  }

  function RoleName(role: Role): string {
    match role case User => "user" case Assistant => "assistant" case System => "system"
  }

  function CallStatusName(status: ToolCallStatus): string {
    match status
    case CallPending => "pending" case CallRunning => "running" case CallDone => "done" case CallError => "error"
  }

  function QuestionStatusName(status: QuestionStatus): string {
    match status
    case Pending => "pending" case Answering => "answering" case Answered => "answered" case Failed => "error"
  }

  function WriteToolCall(x: ToolCall): Json {
    JObject(Put(map[IdKey := JString(x.id), NameKey := JString(x.name),
                    StatusKey := JString(CallStatusName(x.status)), ArgsKey := JObject(x.args)],
                ResultKey, x.result))
  }

  function WriteLlm(x: LlmConfig): Json {
    JObject(Put(Put(Put(Put(Put(map[ConfiguredKey := JBool(true)],
      ProviderKey, Text(x.provider)), ModelKey, Text(x.llmModel)), ReasoningEffortKey, Text(x.reasoningEffort)),
      MaxTokensKey, OptionalInteger(x.maxTokens)), BigContextModelKey, Text(x.bigContextModel)))
  }

  function WriteMessage(x: Message): Json {
    JObject(Put(Put(Put(map[IdKey := JString(x.id), RoleKey := JString(RoleName(x.role)),
                            ContentKey := JString(x.content), CreatedAtKey := JNumber(x.createdAt)],
      LlmKey, if x.llm.Some? then Some(WriteLlm(x.llm.value)) else None),
      VerifiedKey, if x.verified then Some(JBool(true)) else None),
      ToolCallsKey, OptionalList(x.toolCalls, WriteToolCall)))
  }

  function WriteReference(x: SourceReference): Json {
    JObject(Put(Put(map[PathKey := JString(x.path)],
      StartLineKey, OptionalInteger(x.startLine)), EndLineKey, OptionalInteger(x.endLine)))
  }

  function WriteSummary(x: Summary): Json {
    JObject(map[FileCountKey := Integer(x.fileCount), DiagramCountKey := Integer(x.diagramCount),
                ToolCallCountKey := Integer(x.toolCallCount), DecisionCountKey := Integer(x.decisionCount)])
  }

  function WriteAnalysis(x: Analysis): Json {
    JObject(map[IdKey := JString(x.id), TitleKey := JString(x.title), RepoKey := TextOrNull(x.repo),
                RepoNameKey := TextOrNull(x.repoName), CreatedAtKey := JNumber(x.createdAt),
                UpdatedAtKey := JNumber(x.updatedAt), SourceReferencesKey := List(x.sourceReferences, WriteReference),
                SummaryKey := WriteSummary(x.summary)])
  }

  function WriteSession(x: Session): Json {
    JObject(Put(map[IdKey := JString(x.id), TitleKey := JString(x.title), CreatedAtKey := JNumber(x.createdAt),
                    UpdatedAtKey := JNumber(x.updatedAt), MessagesKey := List(x.messages, WriteMessage)],
                AnalysesKey, OptionalList(x.analyses, WriteAnalysis)))
  }

  function WriteMessageIds(x: MessageIds): Json {
    JObject(Put(Put(map[], UserKey, Text(x.user)), AssistantKey, Text(x.assistant)))
  }

  function WriteQuestion(x: Question): Json {
    JObject(Put(Put(Put(Put(Put(
      map[IdKey := JString(x.id), OrderKey := Integer(x.order), LabelKey := JString(x.labelText),
          TextKey := JString(x.text), ContextKey := JString(x.context),
          StatusKey := JString(QuestionStatusName(x.status))],
      PromptKey, Text(x.prompt)), AnswerKey, Text(x.answer)), ErrorKey, Text(x.error)),
      AnsweredAtKey, if x.answeredAt.Some? then Some(JNumber(x.answeredAt.value)) else None),
      MessageIdsKey, if x.messageIds.Some? then Some(WriteMessageIds(x.messageIds.value)) else None))
  }

  /** Saving leaves the source text of a work document out. */
  function WriteDocument(x: WorkDocument): Json {
    JObject(Put(map[IdKey := JString(x.id), FilenameKey := JString(x.filename), ImportedAtKey := JNumber(x.importedAt),
                    RepoKey := TextOrNull(x.repo), RepoNameKey := TextOrNull(x.repoName),
                    SourceBytesKey := Integer(x.sourceBytes), MarkdownCharsKey := Integer(x.markdownChars),
                    QuestionsKey := List(x.questions, WriteQuestion)],
                SessionIdKey, Text(x.sessionId)))
  }

  /** The part of the state that is saved, as a JSON value. */
  function Written(s: Store): Json {
    JObject(map[SessionsKey := List(s.sessions, WriteSession), CurrentSessionIdKey := TextOrNull(s.currentSessionId),
                SelectedRepoKey := TextOrNull(s.selectedRepo), SelectedRepoNameKey := TextOrNull(s.selectedRepoName),
                InputDraftKey := JString(s.inputDraft), IsWorkspaceOpenKey := JBool(s.isWorkspaceOpen),
                WorkspaceTabKey := JString(if s.workspaceTab == GraphTab then "graph" else "sources"),
                VerifiedModeKey := JBool(s.verifiedMode), WorkDocumentsKey := List(s.workDocuments, WriteDocument),
                CurrentWorkDocumentIdKey := TextOrNull(s.currentWorkDocumentId)])
  }

  // ------------------------------------------------------------------
  // Reading back what was written
  // ------------------------------------------------------------------

  lemma {:induction false} ReadAllWritten<T>(read: Json -> Option<T>, write: T -> Json, xs: seq<T>)
    requires forall x <- xs :: read(write(x)) == Some(x)
    ensures ReadAll(read, ChatStore.Map(xs, write)) == xs
  {
    if xs != [] {
      var n := |xs| - 1;
      ReadAllWritten(read, write, xs[..n]);
      assert ChatStore.Map(xs, write)[..n] == ChatStore.Map(xs[..n], write);
      assert xs[n] in xs;
    }
  }

  lemma IntegerRead(host: Host, n: nat)
    ensures ReadNonNegativeInteger(host, Some(Integer(n))) == Some(n)
    ensures n > 0 ==> ReadPositiveInteger(host, Some(Integer(n))) == Some(n)
  {
    assert (n as real).Floor == n;
  }

  lemma AbsentIsUnread(host: Host)
    ensures ReadNonNegativeInteger(host, None) == None && ReadPositiveInteger(host, None) == None
    ensures ReadLlm(host, None) == None && ReadMessageIds(None) == None
    ensures ReadToolCalls(None) == [] && ReadAnalyses(host, None) == []
  {
  }

  lemma ToolCallRead(x: ToolCall)
    requires CleanToolCall(x)
    ensures ReadToolCall(WriteToolCall(x)) == Some(x)
  {
  }

  lemma LlmRead(host: Host, x: LlmConfig)
    requires CleanLlm(x)
    ensures ReadLlm(host, Some(WriteLlm(x))) == Some(x)
  {
    hide ReadNonNegativeInteger, Integer;
    AbsentIsUnread(host);
    if x.maxTokens.Some? { IntegerRead(host, x.maxTokens.value); }
  }

  lemma MessageRead(host: Host, x: Message)
    requires CleanMessage(host, x)
    ensures ReadMessage(host, WriteMessage(x)) == Some(x)
  {
    hide ReadLlm, WriteLlm, IsBlank, WriteToolCall, ReadToolCall, ReadAll, CleanLlm;
    if x.llm.Some? {
      LlmRead(host, x.llm.value);
    } else {
      AbsentIsUnread(host);
    }
    if x.toolCalls.Some? {
      forall c <- x.toolCalls.value ensures ReadToolCall(WriteToolCall(c)) == Some(c) {
        ToolCallRead(c);
      }
      ReadAllWritten(ReadToolCall, WriteToolCall, x.toolCalls.value);
    } else {
      AbsentIsUnread(host);
    }
  }

  lemma ReferenceRead(host: Host, x: SourceReference)
    requires CleanReference(x)
    ensures ReadReference(host, WriteReference(x)) == Some(x)
  {
    hide Normalize, ReadNonNegativeInteger, ReadPositiveInteger, Integer;
    AbsentIsUnread(host);
    if x.startLine.Some? { IntegerRead(host, x.startLine.value); }
    if x.endLine.Some? { IntegerRead(host, x.endLine.value); }
  }

  lemma {:induction false} ReferencesRead(host: Host, xs: seq<SourceReference>)
    requires Sorting.NoDuplicates(xs) && forall x <- xs :: CleanReference(x)
    ensures ReadReferences(host, ChatStore.Map(xs, WriteReference)) == xs
  {
    hide CleanReference, ReadReference, WriteReference;
    if xs != [] {
      var n := |xs| - 1;
      ReferencesRead(host, xs[..n]);
      assert ChatStore.Map(xs, WriteReference)[..n] == ChatStore.Map(xs[..n], WriteReference);
      assert xs[n] in xs;
      ReferenceRead(host, xs[n]);
    }
  }

  lemma SummaryRead(host: Host, x: Summary)
    ensures ReadSummary(host, Some(WriteSummary(x))) == x
  {
    hide ReadNonNegativeInteger, Integer;
    IntegerRead(host, x.fileCount);
    IntegerRead(host, x.diagramCount);
    IntegerRead(host, x.toolCallCount);
    IntegerRead(host, x.decisionCount);
  }

  lemma AnalysisRead(host: Host, x: Analysis)
    requires CleanAnalysis(x)
    ensures ReadAnalysis(host, WriteAnalysis(x)) == Some(x)
  {
    hide ReadReferences, ReadSummary, WriteSummary, WriteReference, CleanReference;
    ReferencesRead(host, x.sourceReferences);
    SummaryRead(host, x.summary);
  }

  lemma AnalysesRead(host: Host, xs: seq<Analysis>)
    requires CleanAnalyses(xs)
    ensures ReadAnalyses(host, Some(List(xs, WriteAnalysis))) == xs
  {
    hide CleanAnalysis, ReadAnalysis, WriteAnalysis, ReadAll, Sorting.SortBy;
    forall x <- xs ensures AnalysisReader(host)(WriteAnalysis(x)) == Some(x) {
      AnalysisRead(host, x);
    }
    ReadAllWritten(AnalysisReader(host), WriteAnalysis, xs);
    Sorting.SortByKeepsSorted(xs, MoreRecentAnalysis);
  }

  lemma SessionRead(host: Host, x: Session)
    requires CleanSession(host, x)
    ensures ReadSession(host, WriteSession(x)) == Some(x)
  {
    hide CleanMessage, CleanAnalyses, ReadMessage, WriteMessage, ReadAll, ReadAnalyses, WriteAnalysis;
    forall m <- x.messages ensures MessageReader(host)(WriteMessage(m)) == Some(m) {
      MessageRead(host, m);
    }
    ReadAllWritten(MessageReader(host), WriteMessage, x.messages);
    if x.analyses.Some? {
      AnalysesRead(host, x.analyses.value);
    } else {
      AbsentIsUnread(host);
    }
  }

  lemma SessionsRead(host: Host, xs: seq<Session>)
    requires CleanSessions(host, xs)
    ensures ChatStore.ByRecentActivity(ReadSessions(host, Some(List(xs, WriteSession)))) == xs
  {
    hide CleanSession, ReadSession, WriteSession, ReadAll, Sorting.SortBy;
    forall x <- xs ensures SessionReader(host)(WriteSession(x)) == Some(x) {
      SessionRead(host, x);
    }
    ReadAllWritten(SessionReader(host), WriteSession, xs);
    Sorting.SortByKeepsSorted(xs, MoreRecent);
  }

  lemma MessageIdsRead(x: MessageIds)
    requires CleanMessageIds(x)
    ensures ReadMessageIds(Some(WriteMessageIds(x))) == Some(x)
  {
  }

  lemma QuestionFields(x: Question)
    ensures
      var f := RecordOrEmpty(Some(WriteQuestion(x)));
      && Get(f, IdKey) == Some(JString(x.id)) && Get(f, OrderKey) == Some(Integer(x.order))
      && Get(f, LabelKey) == Some(JString(x.labelText)) && Get(f, TextKey) == Some(JString(x.text))
      && Get(f, ContextKey) == Some(JString(x.context))
      && Get(f, StatusKey) == Some(JString(QuestionStatusName(x.status)))
      && Get(f, PromptKey) == Text(x.prompt) && Get(f, AnswerKey) == Text(x.answer)
      && Get(f, ErrorKey) == Text(x.error)
      && Get(f, AnsweredAtKey) == (if x.answeredAt.Some? then Some(JNumber(x.answeredAt.value)) else None)
      && Get(f, MessageIdsKey) == (if x.messageIds.Some? then Some(WriteMessageIds(x.messageIds.value)) else None)
  {
    hide Text, WriteMessageIds, Integer, QuestionStatusName;
  }

  lemma TextRead(s: Option<string>)
    requires CleanString(s)
    ensures ReadNonEmpty(Text(s)) == s
  {
  }

  lemma QuestionStatusRead(status: QuestionStatus)
    ensures ReadQuestionStatus(Some(JString(QuestionStatusName(status)))) == Some(status)
  {
  }

  lemma QuestionRead(host: Host, x: Question, n: nat)
    requires CleanQuestion(x)
    ensures ReadQuestion(host, WriteQuestion(x), n) == Some(x)
  {
    hide Get, WriteQuestion, RecordOrEmpty, ReadNonNegativeInteger, ReadPositiveInteger, Integer, ReadMessageIds,
      WriteMessageIds, CleanMessageIds, Text, ReadQuestionStatus, QuestionStatusName;
    QuestionFields(x);
    IntegerRead(host, x.order);
    TextRead(x.prompt);
    TextRead(x.answer);
    TextRead(x.error);
    QuestionStatusRead(x.status);
    if x.messageIds.Some? {
      MessageIdsRead(x.messageIds.value);
    } else {
      AbsentIsUnread(host);
    }
  }

  lemma {:induction false} QuestionListRead(host: Host, xs: seq<Question>)
    requires forall x <- xs :: CleanQuestion(x)
    ensures ReadQuestionList(host, ChatStore.Map(xs, WriteQuestion)) == xs
  {
    hide CleanQuestion, ReadQuestion, WriteQuestion;
    if xs != [] {
      var n := |xs| - 1;
      QuestionListRead(host, xs[..n]);
      assert ChatStore.Map(xs, WriteQuestion)[..n] == ChatStore.Map(xs[..n], WriteQuestion);
      assert xs[n] in xs;
      QuestionRead(host, xs[n], n);
    }
  }

  lemma QuestionsRead(host: Host, xs: seq<Question>)
    requires CleanQuestions(xs)
    ensures ReadQuestions(host, Some(List(xs, WriteQuestion))) == xs
  {
    hide CleanQuestion, ReadQuestionList, WriteQuestion, Sorting.SortBy;
    QuestionListRead(host, xs);
    Sorting.SortByKeepsSorted(xs, EarlierQuestion);
  }

  lemma DocumentRead(host: Host, x: WorkDocument)
    requires CleanDocument(x)
    ensures ReadDocument(host, WriteDocument(x)) == Some(x)
  {
    hide CleanQuestions, ReadQuestions, ReadNonNegativeInteger, Integer, WriteQuestion;
    QuestionsRead(host, x.questions);
    IntegerRead(host, x.sourceBytes);
    IntegerRead(host, x.markdownChars);
  }

  lemma DocumentsRead(host: Host, xs: seq<WorkDocument>)
    requires CleanDocuments(xs)
    ensures ReadDocuments(host, Some(List(xs, WriteDocument))) == xs
  {
    hide CleanDocument, ReadDocument, WriteDocument, ReadAll, Sorting.SortBy;
    forall x <- xs ensures DocumentReader(host)(WriteDocument(x)) == Some(x) {
      DocumentRead(host, x);
    }
    ReadAllWritten(DocumentReader(host), WriteDocument, xs);
    Sorting.SortByKeepsSorted(xs, MoreRecentDocument);
  }

  lemma WrittenFields(s: Store)
    ensures
      var f := RecordOrEmpty(Some(Written(s)));
      && Get(f, SessionsKey) == Some(List(s.sessions, WriteSession))
      && Get(f, CurrentSessionIdKey) == Some(TextOrNull(s.currentSessionId))
      && Get(f, SelectedRepoKey) == Some(TextOrNull(s.selectedRepo))
      && Get(f, SelectedRepoNameKey) == Some(TextOrNull(s.selectedRepoName))
      && Get(f, InputDraftKey) == Some(JString(s.inputDraft))
      && Get(f, IsWorkspaceOpenKey) == Some(JBool(s.isWorkspaceOpen))
      && Get(f, WorkspaceTabKey) == Some(JString(if s.workspaceTab == GraphTab then "graph" else "sources"))
      && Get(f, VerifiedModeKey) == Some(JBool(s.verifiedMode))
      && Get(f, WorkDocumentsKey) == Some(List(s.workDocuments, WriteDocument))
      && Get(f, CurrentWorkDocumentIdKey) == Some(TextOrNull(s.currentWorkDocumentId))
  {
    hide List, TextOrNull, WriteSession, WriteDocument;
  }

  /** The current id survives: ids of clean sessions and documents are not empty. */
  lemma ChoicesRead(host: Host, s: Store)
    requires CleanStore(host, s)
    ensures ChosenSession(Some(TextOrNull(s.currentSessionId)), s.sessions) == s.currentSessionId
    ensures ChosenDocument(Some(TextOrNull(s.currentWorkDocumentId)), s.workDocuments) == s.currentWorkDocumentId
  {
    hide CleanMessage, CleanAnalyses, CleanQuestions;
    assert forall k | 0 <= k < |s.sessions| :: CleanSession(host, s.sessions[k]);
    assert forall k | 0 <= k < |s.workDocuments| :: CleanDocument(s.workDocuments[k]);
    assert s.sessions != [] ==> s.sessions[0].id in SessionIds(s.sessions);
    assert s.workDocuments != [] ==> s.workDocuments[0].id in DocumentIds(s.workDocuments);
  }

  lemma CleanIsReadBack(host: Host, s: Store)
    requires CleanStore(host, s)
    ensures Migrated(host, Written(s)) == s
  {
    hide Get, RecordOrEmpty, Written, ReadSessions, ReadDocuments, CleanSessions, CleanDocuments, ChosenSession,
      ChosenDocument, ChatStore.ByRecentActivity, List, WriteSession, WriteDocument;
    WrittenFields(s);
    SessionsRead(host, s.sessions);
    DocumentsRead(host, s.workDocuments);
    ChoicesRead(host, s);
  }
}
