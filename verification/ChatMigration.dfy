/** Reading a saved chat state of any shape, and writing it back. */
module ChatMigration {
  import opened ChatTypes
  import opened Options
  import opened SourceReferences

  import ChatStore
  import Sorting

  type Fields = map<Key, Json>

  /** What `trim` removes, `Number(text)` where that is finite, and the digits of a number. */
  datatype Host = Host(isSpace: char -> bool, numberOf: string -> Option<real>, show: nat -> string)

  // ------------------------------------------------------------------
  // Reading values
  // ------------------------------------------------------------------

  function Get(fields: Fields, key: Key): Option<Json> {
    if key in fields then Some(fields[key]) else None
  }

  function AsRecord(value: Option<Json>): Option<Fields> {
    if value.Some? && value.value.JObject? then Some(value.value.fields) else None
  }

  function RecordOrEmpty(value: Option<Json>): Fields {
    OrElse(AsRecord(value), map[])
  }

  function ArrayOf(value: Option<Json>): seq<Json> {
    if value.Some? && value.value.JArray? then value.value.items else []
  }

  function OrElse<T>(o: Option<T>, otherwise: T): T {
    if o.Some? then o.value else otherwise
  }

  function ReadString(value: Option<Json>): Option<string> {
    if value.Some? && value.value.JString? then Some(value.value.text) else None
  }

  function ReadBoolean(value: Option<Json>): Option<bool> {
    if value.Some? && value.value.JBool? then Some(value.value.flag) else None
  }

  predicate IsBlank(host: Host, text: string) {
    forall k | 0 <= k < |text| :: host.isSpace(text[k])
  }

  function ReadTimestamp(host: Host, value: Option<Json>): Option<Time> {
    if value.None? then None
    else
      match value.value
      case JNumber(n) => Some(n)
      case JString(text) => if IsBlank(host, text) then None else host.numberOf(text)
      case _ => None
  }

  function ReadNonNegativeInteger(host: Host, value: Option<Json>): Option<nat> {
    var number :=
      if value.None? then None
      else
        match value.value
        case JNumber(n) => Some(n)
        case JString(text) => host.numberOf(text)
        case _ => None;
    if number.Some? && number.value == number.value.Floor as real && number.value >= 0.0
    then Some(number.value.Floor) else None
  }

  function ReadPositiveInteger(host: Host, value: Option<Json>): Option<nat> {
    var number := ReadNonNegativeInteger(host, value);
    if number.Some? && number.value > 0 then number else None
  }

  /** The empty string is dropped by `readString(x) ? { … } : {}`. */
  function NonEmpty(s: Option<string>): Option<string> {
    if ChatStore.Truthy(s) then s else None
  }

  function ReadNonEmpty(value: Option<Json>): Option<string> {
    NonEmpty(ReadString(value))
  }

  function RoleNamed(text: string): Option<Role> {
    if text == "user" then Some(User)
    else if text == "assistant" then Some(Assistant)
    else if text == "system" then Some(System)
    else None
  }

  function CallStatusNamed(text: string): Option<ToolCallStatus> {
    if text == "pending" then Some(CallPending)
    else if text == "running" then Some(CallRunning)
    else if text == "done" then Some(CallDone)
    else if text == "error" then Some(CallError)
    else None
  }

  function QuestionStatusNamed(text: string): Option<QuestionStatus> {
    if text == "pending" then Some(Pending)
    else if text == "answering" then Some(Answering)
    else if text == "answered" then Some(Answered)
    else if text == "error" then Some(Failed)
    else None
  }

  function ReadRole(value: Option<Json>): Option<Role> {
    match ReadString(value) case None => None case Some(text) => RoleNamed(text)
  }

  function ReadCallStatus(value: Option<Json>): Option<ToolCallStatus> {
    match ReadString(value) case None => None case Some(text) => CallStatusNamed(text)
  }

  function ReadQuestionStatus(value: Option<Json>): Option<QuestionStatus> {
    match ReadString(value) case None => None case Some(text) => QuestionStatusNamed(text)
  }

  // ------------------------------------------------------------------
  // Reading entities
  // ------------------------------------------------------------------

  const RECOVERED_TITLE := "Conversation r\U{E9}cup\U{E9}r\U{E9}e"

  const EMPTY_ASSISTANT_RESPONSE :=
    "_" + "R\U{E9}ponse vide ou interrompue._ Le message assistant a \U{E9}t\U{E9} cr\U{E9}\U{E9}, "
    + "mais aucun texte final n\U{2019}a \U{E9}t\U{E9} re\U{E7}u. "
    + "Utilise **R\U{E9}g\U{E9}n\U{E9}rer** pour relancer la question."

  /** What a loop over `items` collects, skipping items that cannot be read. */
  function ReadAll<T>(read: Json -> Option<T>, items: seq<Json>): seq<T> {
    if items == [] then []
    else
      var last := read(items[|items| - 1]);
      ReadAll(read, items[..|items| - 1]) + if last.Some? then [last.value] else []
  }

  function ReadToolCall(raw: Json): Option<ToolCall> {
    var f := RecordOrEmpty(Some(raw));
    var id, name, status := ReadNonEmpty(Get(f, IdKey)), ReadNonEmpty(Get(f, NameKey)), ReadCallStatus(Get(f, StatusKey));
    if id.None? || name.None? || status.None? then None
    else Some(ToolCall(id.value, name.value, status.value, RecordOrEmpty(Get(f, ArgsKey)), Get(f, ResultKey)))
  }

  function ReadLlm(host: Host, value: Option<Json>): Option<LlmConfig> {
    var f := RecordOrEmpty(value);
    if ReadBoolean(Get(f, ConfiguredKey)) != Some(true) then None
    else
      Some(LlmConfig(ReadNonEmpty(Get(f, ProviderKey)), ReadNonEmpty(Get(f, ModelKey)),
        ReadNonEmpty(Get(f, ReasoningEffortKey)), ReadNonNegativeInteger(host, Get(f, MaxTokensKey)),
        ReadNonEmpty(Get(f, BigContextModelKey))))
  }

  /** An empty list is left out. */
  function Listed<T>(items: seq<T>): Option<seq<T>> {
    if items == [] then None else Some(items)
  }

  function ReadMessage(host: Host, raw: Json): Option<Message> {
    var f := RecordOrEmpty(Some(raw));
    var id, role, content := ReadNonEmpty(Get(f, IdKey)), ReadRole(Get(f, RoleKey)), ReadString(Get(f, ContentKey));
    if id.None? || role.None? || content.None? then None
    else
      Some(Message(id.value, role.value,
        if role.value == Assistant && IsBlank(host, content.value) then EMPTY_ASSISTANT_RESPONSE else content.value,
        OrElse(ReadTimestamp(host, Get(f, CreatedAtKey)), 0.0),
        ReadLlm(host, Get(f, LlmKey)),
        ReadBoolean(Get(f, VerifiedKey)) == Some(true),
        Listed(ReadToolCalls(Get(f, ToolCallsKey)))))
  }

  function ReadReference(host: Host, raw: Json): Option<SourceReference> {
    var f := RecordOrEmpty(Some(raw));
    var path := ReadNonEmpty(Get(f, PathKey));
    if path.None? then None
    else
      Some(SourceReference(Normalize(path.value), ReadPositiveInteger(host, Get(f, StartLineKey)),
        ReadPositiveInteger(host, Get(f, EndLineKey))))
  }

  function ReadSummary(host: Host, value: Option<Json>): Summary {
    var f := RecordOrEmpty(value);
    Summary(OrElse(ReadNonNegativeInteger(host, Get(f, FileCountKey)), 0),
      OrElse(ReadNonNegativeInteger(host, Get(f, DiagramCountKey)), 0),
      OrElse(ReadNonNegativeInteger(host, Get(f, ToolCallCountKey)), 0),
      OrElse(ReadNonNegativeInteger(host, Get(f, DecisionCountKey)), 0))
  }

  function ReadAnalysis(host: Host, raw: Json): Option<Analysis> {
    var f := RecordOrEmpty(Some(raw));
    var id, title := ReadNonEmpty(Get(f, IdKey)), ReadNonEmpty(Get(f, TitleKey));
    if id.None? || title.None? then None
    else
      var createdAt := OrElse(ReadTimestamp(host, Get(f, CreatedAtKey)), 0.0);
      Some(Analysis(id.value, title.value, ReadString(Get(f, RepoKey)), ReadString(Get(f, RepoNameKey)),
        createdAt, OrElse(ReadTimestamp(host, Get(f, UpdatedAtKey)), createdAt),
        ReadReferences(host, ArrayOf(Get(f, SourceReferencesKey))), ReadSummary(host, Get(f, SummaryKey))))
  }

  function ReadSession(host: Host, raw: Json): Option<Session> {
    var f := RecordOrEmpty(Some(raw));
    var id := ReadNonEmpty(Get(f, IdKey));
    if id.None? then None
    else
      var createdAt := OrElse(ReadTimestamp(host, Get(f, CreatedAtKey)), 0.0);
      Some(Session(id.value, OrElse(ReadString(Get(f, TitleKey)), RECOVERED_TITLE), createdAt,
        OrElse(ReadTimestamp(host, Get(f, UpdatedAtKey)), createdAt),
        ReadMessages(host, Get(f, MessagesKey)), Listed(ReadAnalyses(host, Get(f, AnalysesKey)))))
  }

  function ReadMessageIds(value: Option<Json>): Option<MessageIds> {
    var f := RecordOrEmpty(value);
    var ids := MessageIds(ReadNonEmpty(Get(f, UserKey)), ReadNonEmpty(Get(f, AssistantKey)));
    if ids.user.None? && ids.assistant.None? then None else Some(ids)
  }

  /** `n` questions were read before this one; they give it its default number. */
  function ReadQuestion(host: Host, raw: Json, n: nat): Option<Question> {
    var f := RecordOrEmpty(Some(raw));
    var id, text := ReadNonEmpty(Get(f, IdKey)), ReadNonEmpty(Get(f, TextKey));
    if id.None? || text.None? then None
    else
      Some(Question(id.value, OrElse(ReadPositiveInteger(host, Get(f, OrderKey)), n + 1),
        OrElse(ReadString(Get(f, LabelKey)), "Q" + host.show(n + 1)), text.value,
        OrElse(ReadString(Get(f, ContextKey)), ""), OrElse(ReadQuestionStatus(Get(f, StatusKey)), Pending),
        ReadNonEmpty(Get(f, PromptKey)), ReadNonEmpty(Get(f, AnswerKey)), ReadNonEmpty(Get(f, ErrorKey)),
        ReadTimestamp(host, Get(f, AnsweredAtKey)), ReadMessageIds(Get(f, MessageIdsKey))))
  }

  // ------------------------------------------------------------------
  // Reading lists
  // ------------------------------------------------------------------

  function ReadToolCalls(value: Option<Json>): seq<ToolCall> {
    ReadAll(ReadToolCall, ArrayOf(value))
  }

  function MessageReader(host: Host): Json -> Option<Message> {
    raw => ReadMessage(host, raw)
  }

  function ReadMessages(host: Host, value: Option<Json>): seq<Message> {
    ReadAll(MessageReader(host), ArrayOf(value))
  }

  /** References read so far are not read again. */
  function ReadReferences(host: Host, items: seq<Json>): seq<SourceReference> {
    if items == [] then []
    else
      var before := ReadReferences(host, items[..|items| - 1]);
      var last := ReadReference(host, items[|items| - 1]);
      if last.None? || last.value in before then before else before + [last.value]
  }

  function AnalysisReader(host: Host): Json -> Option<Analysis> {
    raw => ReadAnalysis(host, raw)
  }

  function ReadAnalyses(host: Host, value: Option<Json>): seq<Analysis> {
    ChatStore.Take(Sorting.SortBy(ReadAll(AnalysisReader(host), ArrayOf(value)), MoreRecentAnalysis), MAX_ANALYSES)
  }

  function ReadQuestionList(host: Host, items: seq<Json>): seq<Question> {
    if items == [] then []
    else
      var before := ReadQuestionList(host, items[..|items| - 1]);
      var last := ReadQuestion(host, items[|items| - 1], |before|);
      if last.None? then before else before + [last.value]
  }

  function ReadQuestions(host: Host, value: Option<Json>): seq<Question> {
    Sorting.SortBy(ReadQuestionList(host, ChatStore.Take(ArrayOf(value), MAX_QUESTIONS)), EarlierQuestion)
  }

  function ReadDocument(host: Host, raw: Json): Option<WorkDocument> {
    var f := RecordOrEmpty(Some(raw));
    var id, filename := ReadNonEmpty(Get(f, IdKey)), ReadNonEmpty(Get(f, FilenameKey));
    if id.None? || filename.None? then None
    else
      Some(WorkDocument(id.value, filename.value, OrElse(ReadTimestamp(host, Get(f, ImportedAtKey)), 0.0),
        ReadString(Get(f, RepoKey)), ReadString(Get(f, RepoNameKey)), ReadNonEmpty(Get(f, SessionIdKey)),
        OrElse(ReadNonNegativeInteger(host, Get(f, SourceBytesKey)), 0),
        OrElse(ReadNonNegativeInteger(host, Get(f, MarkdownCharsKey)), 0), None,
        ReadQuestions(host, Get(f, QuestionsKey))))
  }

  function DocumentReader(host: Host): Json -> Option<WorkDocument> {
    raw => ReadDocument(host, raw)
  }

  function ReadDocuments(host: Host, value: Option<Json>): seq<WorkDocument> {
    ChatStore.Take(Sorting.SortBy(ReadAll(DocumentReader(host), ArrayOf(value)), MoreRecentDocument), MAX_WORK_DOCUMENTS)
  }

  function SessionReader(host: Host): Json -> Option<Session> {
    raw => ReadSession(host, raw)
  }

  function ReadSessions(host: Host, value: Option<Json>): seq<Session> {
    ReadAll(SessionReader(host), ArrayOf(value))
  }

  // ------------------------------------------------------------------
  // The whole state
  // ------------------------------------------------------------------

  function ChosenSession(value: Option<Json>, sessions: seq<Session>): Option<Id> {
    var id := ReadNonEmpty(value);
    if id.Some? && id.value in SessionIds(sessions) then id else ChatStore.FirstSessionId(sessions)
  }

  function ChosenDocument(value: Option<Json>, documents: seq<WorkDocument>): Option<Id> {
    var id := ReadNonEmpty(value);
    if id.Some? && id.value in DocumentIds(documents) then id else ChatStore.FirstDocumentId(documents)
  }

  function Migrated(host: Host, persisted: Json): Store {
    var f := RecordOrEmpty(Some(persisted));
    var sessions := ChatStore.ByRecentActivity(ReadSessions(host, Get(f, SessionsKey)));
    var documents := ReadDocuments(host, Get(f, WorkDocumentsKey));
    var repo := ReadString(Get(f, SelectedRepoKey));
    var repoName := ReadString(Get(f, SelectedRepoNameKey));
    Store(sessions, ChosenSession(Get(f, CurrentSessionIdKey), sessions), repo,
      if ChatStore.Truthy(repo) then (if repoName.Some? then repoName else repo) else None,
      OrElse(ReadString(Get(f, InputDraftKey)), ""), OrElse(ReadBoolean(Get(f, IsWorkspaceOpenKey)), false),
      if Get(f, WorkspaceTabKey) == Some(JString("graph")) then GraphTab else SourcesTab,
      OrElse(ReadBoolean(Get(f, VerifiedModeKey)), false), documents,
      ChosenDocument(Get(f, CurrentWorkDocumentIdKey), documents))
  }

  lemma {:induction false} ReadAllMember<T>(read: Json -> Option<T>, items: seq<Json>, x: T) returns (raw: Json)
    requires x in ReadAll(read, items)
    ensures raw in items && read(raw) == Some(x)
  {
    var n := |items| - 1;
    if x in ReadAll(read, items[..n]) {
      raw := ReadAllMember(read, items[..n], x);
    } else {
      raw := items[n];
    }
  }

  lemma ReadSessionFits(host: Host, raw: Json)
    ensures ReadSession(host, raw).Some? ==> ChatStore.AnalysesFit(ReadSession(host, raw).value)
  {
    hide ReadTimestamp, ReadMessages, ReadAll, Sorting.SortBy;
    var all := ReadAll(AnalysisReader(host), ArrayOf(Get(RecordOrEmpty(Some(raw)), AnalysesKey)));
    ChatStore.RecencyOrders();
    Sorting.SortBySorts(all, MoreRecentAnalysis);
  }

  /** Any value at all is read as a state that keeps the store's invariant. */
  lemma MigratedKeepsInv(host: Host, persisted: Json)
    ensures ChatStore.Inv(Migrated(host, persisted))
  {
    hide ReadSession, ReadDocument, ReadAll, ChatStore.AnalysesFit, Sorting.SortBy;
    var state := Migrated(host, persisted);
    var items := ArrayOf(Get(RecordOrEmpty(Some(persisted)), SessionsKey));
    var read := ReadAll(SessionReader(host), items);
    ChatStore.RecencyOrders();
    Sorting.SortBySorts(read, MoreRecent);
    Sorting.SortByKeepsMembers(read, MoreRecent);
    forall k | 0 <= k < |state.sessions| ensures ChatStore.AnalysesFit(state.sessions[k]) {
      assert state.sessions[k] in read;
      var raw := ReadAllMember(SessionReader(host), items, state.sessions[k]);
      ReadSessionFits(host, raw);
    }
  }

  // ------------------------------------------------------------------
  // The sanitizers
  // ------------------------------------------------------------------

  lemma ReadAllNext<T>(read: Json -> Option<T>, items: seq<Json>, i: nat)
    requires i < |items|
    ensures ReadAll(read, items[..i + 1]) ==
            ReadAll(read, items[..i]) + if read(items[i]).Some? then [read(items[i]).value] else []
  {
    assert items[..i + 1][..i] == items[..i];
  }

  method SanitizeToolCalls(value: Option<Json>) returns (toolCalls: seq<ToolCall>)
    ensures toolCalls == ReadToolCalls(value)
  {
    hide CallStatusNamed;
    toolCalls := [];
    var items := ArrayOf(value);
    for i := 0 to |items|
      invariant toolCalls == ReadAll(ReadToolCall, items[..i])
    {
      ReadAllNext(ReadToolCall, items, i);
      var f := RecordOrEmpty(Some(items[i]));
      var id, name := ReadNonEmpty(Get(f, IdKey)), ReadNonEmpty(Get(f, NameKey));
      var status := ReadCallStatus(Get(f, StatusKey));
      if id.Some? && name.Some? && status.Some? {
        toolCalls := toolCalls
          + [ToolCall(id.value, name.value, status.value, RecordOrEmpty(Get(f, ArgsKey)), Get(f, ResultKey))];
      }
    }
    assert items[..|items|] == items;
  }

  method SanitizeMessages(host: Host, value: Option<Json>) returns (messages: seq<Message>)
    ensures messages == ReadMessages(host, value)
  {
    hide RoleNamed, ReadToolCalls, IsBlank, ReadLlm, ReadTimestamp;
    messages := [];
    var items := ArrayOf(value);
    for i := 0 to |items|
      invariant messages == ReadAll(MessageReader(host), items[..i])
    {
      ReadAllNext(MessageReader(host), items, i);
      var f := RecordOrEmpty(Some(items[i]));
      var id, role := ReadNonEmpty(Get(f, IdKey)), ReadRole(Get(f, RoleKey));
      var content := ReadString(Get(f, ContentKey));
      if id.Some? && role.Some? && content.Some? {
        if role.value == Assistant && IsBlank(host, content.value) {
          content := Some(EMPTY_ASSISTANT_RESPONSE);
        }
        var toolCalls := SanitizeToolCalls(Get(f, ToolCallsKey));
        var llm := ReadLlm(host, Get(f, LlmKey));
        messages := messages
          + [Message(id.value, role.value, content.value, OrElse(ReadTimestamp(host, Get(f, CreatedAtKey)), 0.0), llm,
              ReadBoolean(Get(f, VerifiedKey)) == Some(true), if |toolCalls| > 0 then Some(toolCalls) else None)];
      }
    }
    assert items[..|items|] == items;
  }

  method SanitizeReferences(host: Host, value: Option<Json>) returns (references: seq<SourceReference>)
    ensures references == ReadReferences(host, ArrayOf(value))
  {
    hide ReadPositiveInteger, Normalize;
    references := [];
    var seen: set<SourceReference> := {};
    var items := ArrayOf(value);
    for i := 0 to |items|
      invariant references == ReadReferences(host, items[..i])
      invariant forall r :: r in seen <==> r in references
    {
      assert items[..i + 1][..i] == items[..i];
      var f := RecordOrEmpty(Some(items[i]));
      var path := ReadNonEmpty(Get(f, PathKey));
      if path.Some? {
        var item := SourceReference(Normalize(path.value), ReadPositiveInteger(host, Get(f, StartLineKey)),
          ReadPositiveInteger(host, Get(f, EndLineKey)));
        if item !in seen {
          seen := seen + {item};
          references := references + [item];
        }
      }
    }
    assert items[..|items|] == items;
  }

  method SanitizeAnalyses(host: Host, value: Option<Json>) returns (analyses: seq<Analysis>)
    ensures analyses == ReadAnalyses(host, value)
  {
    hide ReadTimestamp, ReadReferences, ReadSummary, Sorting.SortBy;
    var snapshots: seq<Analysis> := [];
    var items := ArrayOf(value);
    for i := 0 to |items|
      invariant snapshots == ReadAll(AnalysisReader(host), items[..i])
    {
      ReadAllNext(AnalysisReader(host), items, i);
      var f := RecordOrEmpty(Some(items[i]));
      var id, title := ReadNonEmpty(Get(f, IdKey)), ReadNonEmpty(Get(f, TitleKey));
      if id.Some? && title.Some? {
        var references := SanitizeReferences(host, Get(f, SourceReferencesKey));
        var createdAt := OrElse(ReadTimestamp(host, Get(f, CreatedAtKey)), 0.0);
        snapshots := snapshots
          + [Analysis(id.value, title.value, ReadString(Get(f, RepoKey)), ReadString(Get(f, RepoNameKey)), createdAt,
              OrElse(ReadTimestamp(host, Get(f, UpdatedAtKey)), createdAt), references,
              ReadSummary(host, Get(f, SummaryKey)))];
      }
    }
    assert items[..|items|] == items;
    analyses := ChatStore.Take(Sorting.SortBy(snapshots, MoreRecentAnalysis), MAX_ANALYSES);
  }

  method SanitizeQuestions(host: Host, value: Option<Json>) returns (sorted: seq<Question>)
    ensures sorted == ReadQuestions(host, value)
  {
    hide ReadQuestion, Sorting.SortBy;
    var questions: seq<Question> := [];
    var items := ChatStore.Take(ArrayOf(value), MAX_QUESTIONS);
    for i := 0 to |items|
      invariant questions == ReadQuestionList(host, items[..i])
    {
      assert items[..i + 1][..i] == items[..i];
      var question := ReadQuestion(host, items[i], |questions|);
      if question.Some? {
        questions := questions + [question.value];
      }
    }
    assert items[..|items|] == items;
    sorted := Sorting.SortBy(questions, EarlierQuestion);
  }

  method SanitizeDocuments(host: Host, value: Option<Json>) returns (documents: seq<WorkDocument>)
    ensures documents == ReadDocuments(host, value)
  {
    hide ReadTimestamp, ReadQuestions, ReadNonNegativeInteger, Sorting.SortBy;
    var all: seq<WorkDocument> := [];
    var items := ArrayOf(value);
    for i := 0 to |items|
      invariant all == ReadAll(DocumentReader(host), items[..i])
    {
      ReadAllNext(DocumentReader(host), items, i);
      var f := RecordOrEmpty(Some(items[i]));
      var id, filename := ReadNonEmpty(Get(f, IdKey)), ReadNonEmpty(Get(f, FilenameKey));
      if id.Some? && filename.Some? {
        var questions := SanitizeQuestions(host, Get(f, QuestionsKey));
        all := all
          + [WorkDocument(id.value, filename.value, OrElse(ReadTimestamp(host, Get(f, ImportedAtKey)), 0.0),
              ReadString(Get(f, RepoKey)), ReadString(Get(f, RepoNameKey)), ReadNonEmpty(Get(f, SessionIdKey)),
              OrElse(ReadNonNegativeInteger(host, Get(f, SourceBytesKey)), 0),
              OrElse(ReadNonNegativeInteger(host, Get(f, MarkdownCharsKey)), 0), None, questions)];
      }
    }
    assert items[..|items|] == items;
    documents := ChatStore.Take(Sorting.SortBy(all, MoreRecentDocument), MAX_WORK_DOCUMENTS);
  }

  method SanitizeSessions(host: Host, value: Option<Json>) returns (sessions: seq<Session>)
    ensures sessions == ReadSessions(host, value)
  {
    hide ReadTimestamp, ReadMessages, ReadAnalyses;
    sessions := [];
    var items := ArrayOf(value);
    for i := 0 to |items|
      invariant sessions == ReadAll(SessionReader(host), items[..i])
    {
      ReadAllNext(SessionReader(host), items, i);
      var f := RecordOrEmpty(Some(items[i]));
      var id := ReadNonEmpty(Get(f, IdKey));
      if id.Some? {
        var title := OrElse(ReadString(Get(f, TitleKey)), RECOVERED_TITLE);
        var createdAt := OrElse(ReadTimestamp(host, Get(f, CreatedAtKey)), 0.0);
        var updatedAt := OrElse(ReadTimestamp(host, Get(f, UpdatedAtKey)), createdAt);
        var analyses := SanitizeAnalyses(host, Get(f, AnalysesKey));
        var messages := SanitizeMessages(host, Get(f, MessagesKey));
        sessions := sessions
          + [Session(id.value, title, createdAt, updatedAt, messages, if |analyses| > 0 then Some(analyses) else None)];
      }
    }
    assert items[..|items|] == items;
  }

  method MigratePersistedChatState(host: Host, persisted: Json) returns (state: Store)
    ensures state == Migrated(host, persisted)
    ensures ChatStore.Inv(state)
  {
    hide ReadSessions, ReadDocuments, ChatStore.ByRecentActivity, ChosenSession, ChosenDocument, ChatStore.Inv;
    MigratedKeepsInv(host, persisted);
    var f := RecordOrEmpty(Some(persisted));
    var unsorted := SanitizeSessions(host, Get(f, SessionsKey));
    var sessions := ChatStore.ByRecentActivity(unsorted);
    var selectedRepo := ReadString(Get(f, SelectedRepoKey));
    var workDocuments := SanitizeDocuments(host, Get(f, WorkDocumentsKey));
    var selectedRepoName: Option<string> := None;
    if ChatStore.Truthy(selectedRepo) {
      selectedRepoName := ReadString(Get(f, SelectedRepoNameKey));
      if selectedRepoName.None? {
        selectedRepoName := selectedRepo;
      }
    }
    state := Store(sessions, ChosenSession(Get(f, CurrentSessionIdKey), sessions), selectedRepo, selectedRepoName,
      OrElse(ReadString(Get(f, InputDraftKey)), ""), OrElse(ReadBoolean(Get(f, IsWorkspaceOpenKey)), false),
      if Get(f, WorkspaceTabKey) == Some(JString("graph")) then GraphTab else SourcesTab,
      OrElse(ReadBoolean(Get(f, VerifiedModeKey)), false), workDocuments,
      ChosenDocument(Get(f, CurrentWorkDocumentIdKey), workDocuments));
  }
}
