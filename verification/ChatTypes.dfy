/** What the chat application stores: sessions, messages, analyses and work documents. */
module ChatTypes {
  import opened Options
  import opened SourceReferences

  type Time = real  // milliseconds, any finite number

  type Id = string

  /** The property names the store reads; every other name is an OtherKey. */
  datatype Key =
    | SessionsKey | CurrentSessionIdKey | SelectedRepoKey | SelectedRepoNameKey | InputDraftKey
    | IsWorkspaceOpenKey | WorkspaceTabKey | VerifiedModeKey | WorkDocumentsKey | CurrentWorkDocumentIdKey
    | IdKey | TitleKey | CreatedAtKey | UpdatedAtKey | MessagesKey | AnalysesKey
    | RepoKey | RepoNameKey | SourceReferencesKey | SummaryKey | PathKey | StartLineKey | EndLineKey
    | FileCountKey | DiagramCountKey | ToolCallCountKey | DecisionCountKey
    | FilenameKey | ImportedAtKey | SessionIdKey | SourceBytesKey | MarkdownCharsKey | QuestionsKey
    | OrderKey | LabelKey | TextKey | ContextKey | StatusKey | PromptKey | AnswerKey | ErrorKey
    | AnsweredAtKey | MessageIdsKey | UserKey | AssistantKey
    | RoleKey | ContentKey | LlmKey | VerifiedKey | ToolCallsKey
    | ConfiguredKey | ProviderKey | ModelKey | ReasoningEffortKey | MaxTokensKey | BigContextModelKey
    | NameKey | ArgsKey | ResultKey
    | OtherKey(name: string)

  /** JSON values as JavaScript reads them: a literal too large to represent becomes infinite. */
  datatype Json =
    | JNull
    | JBool(flag: bool)
    | JNumber(number: real)
    | JInfinity
    | JString(text: string)
    | JArray(items: seq<Json>)
    | JObject(fields: map<Key, Json>)

  datatype Role = User | Assistant | System

  datatype ToolCallStatus = CallPending | CallRunning | CallDone | CallError

  datatype QuestionStatus = Pending | Answering | Answered | Failed

  datatype WorkspaceTab = SourcesTab | GraphTab

  datatype ToolCall =
    ToolCall(id: Id, name: string, status: ToolCallStatus, args: map<Key, Json>, result: Option<Json>)

  /** The model that answered; present only when one was configured. */
  datatype LlmConfig = LlmConfig(
    provider: Option<string>, llmModel: Option<string>, reasoningEffort: Option<string>,
    maxTokens: Option<nat>, bigContextModel: Option<string>)

  datatype Message = Message(
    id: Id, role: Role, content: string, createdAt: Time,
    llm: Option<LlmConfig>, verified: bool, toolCalls: Option<seq<ToolCall>>)

  datatype Summary = Summary(fileCount: nat, diagramCount: nat, toolCallCount: nat, decisionCount: nat)

  datatype Analysis = Analysis(
    id: Id, title: string, repo: Option<string>, repoName: Option<string>,
    createdAt: Time, updatedAt: Time, sourceReferences: seq<SourceReference>, summary: Summary)

  datatype Session = Session(
    id: Id, title: string, createdAt: Time, updatedAt: Time,
    messages: seq<Message>, analyses: Option<seq<Analysis>>)

  datatype MessageIds = MessageIds(user: Option<Id>, assistant: Option<Id>)

  datatype Question = Question(
    id: Id, order: nat, labelText: string, text: string, context: string, status: QuestionStatus,
    prompt: Option<string>, answer: Option<string>, error: Option<string>, answeredAt: Option<Time>,
    messageIds: Option<MessageIds>)

  datatype WorkDocument = WorkDocument(
    id: Id, filename: string, importedAt: Time, repo: Option<string>, repoName: Option<string>,
    sessionId: Option<Id>, sourceBytes: nat, markdownChars: nat,
    sourceMarkdown: Option<string>, questions: seq<Question>)

  /** The part of the store that is saved. */
  datatype Store = Store(
    sessions: seq<Session>,
    currentSessionId: Option<Id>,
    selectedRepo: Option<string>,
    selectedRepoName: Option<string>,
    inputDraft: string,
    isWorkspaceOpen: bool,
    workspaceTab: WorkspaceTab,
    verifiedMode: bool,
    workDocuments: seq<WorkDocument>,
    currentWorkDocumentId: Option<Id>)

  // `b.updatedAt - a.updatedAt` and the like, as orders

  predicate MoreRecent(a: Session, b: Session) {
    a.updatedAt >= b.updatedAt
  }

  predicate MoreRecentAnalysis(a: Analysis, b: Analysis) {
    a.updatedAt >= b.updatedAt
  }

  predicate MoreRecentDocument(a: WorkDocument, b: WorkDocument) {
    a.importedAt >= b.importedAt
  }

  predicate EarlierQuestion(a: Question, b: Question) {
    a.order <= b.order
  }

  const MAX_ANALYSES := 12
  const MAX_WORK_DOCUMENTS := 8
  const MAX_QUESTIONS := 120

  function SessionIds(sessions: seq<Session>): (ids: set<Id>)
    ensures forall k | 0 <= k < |sessions| :: sessions[k].id in ids
    ensures forall id <- ids :: exists k :: 0 <= k < |sessions| && sessions[k].id == id
  {
    set k | 0 <= k < |sessions| :: sessions[k].id
  }

  function DocumentIds(documents: seq<WorkDocument>): (ids: set<Id>)
    ensures forall k | 0 <= k < |documents| :: documents[k].id in ids
    ensures forall id <- ids :: exists k :: 0 <= k < |documents| && documents[k].id == id
  {
    set k | 0 <= k < |documents| :: documents[k].id
  }
}
