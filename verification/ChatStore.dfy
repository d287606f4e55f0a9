/** The actions of the chat store and what every run of them keeps. */
module ChatStore {
  import opened ChatTypes
  import opened Options
  import opened Sorting

  /** `array.map(f)` */
  function Map<T, U>(s: seq<T>, f: T -> U): (r: seq<U>)
    ensures |r| == |s| && forall k | 0 <= k < |s| :: r[k] == f(s[k])
  {
    seq(|s|, k requires 0 <= k < |s| => f(s[k]))
  }

  function Take<T>(s: seq<T>, n: nat): (r: seq<T>)
    ensures |r| <= n && r <= s && (|s| <= n ==> r == s)
  {
    if |s| <= n then s else s[..n]
  }

  /** `findIndex(…)`, with the length for "not found" */
  function IndexOf<T>(s: seq<T>, p: T -> bool): (i: nat)
    ensures i <= |s| && (i < |s| ==> p(s[i]))
    ensures forall k | 0 <= k < i :: !p(s[k])
  {
    if s == [] || p(s[0]) then 0 else 1 + IndexOf(s[1..], p)
  }

  // ------------------------------------------------------------------
  // The actions
  // ------------------------------------------------------------------

  function ByRecentActivity(sessions: seq<Session>): seq<Session> {
    SortBy(sessions, MoreRecent)
  }

  function UpdateById(sessionId: Id, update: Session -> Session): Session -> Session {
    (session: Session) => if session.id == sessionId then update(session) else session
  }

  function UpdateSession(sessions: seq<Session>, sessionId: Id, update: Session -> Session): seq<Session> {
    ByRecentActivity(Map(sessions, UpdateById(sessionId, update)))
  }

  function FirstSessionId(sessions: seq<Session>): Option<Id> {
    if sessions == [] then None else Some(sessions[0].id)
  }

  function FirstDocumentId(documents: seq<WorkDocument>): Option<Id> {
    if documents == [] then None else Some(documents[0].id)
  }

  function AnalysesOf(session: Session): seq<Analysis> {
    if session.analyses.Some? then session.analyses.value else []
  }

  function SavedAnalyses(existing: seq<Analysis>, snapshot: Analysis, now: Time): seq<Analysis> {
    var next := [snapshot.(updatedAt := now)] + Filter(existing, (item: Analysis) => item.id != snapshot.id);
    Take(SortBy(next, MoreRecentAnalysis), MAX_ANALYSES)
  }

  /** `{ ...old, ...new }`: a call without a result keeps the old result. */
  function MergeToolCall(existing: ToolCall, toolCall: ToolCall): ToolCall {
    if toolCall.result.Some? then toolCall else toolCall.(result := existing.result)
  }

  function IndexOfCall(calls: seq<ToolCall>, id: Id): (i: nat)
    ensures i <= |calls| && (i < |calls| ==> calls[i].id == id)
    ensures forall k | 0 <= k < i :: calls[k].id != id
  {
    IndexOf(calls, (call: ToolCall) => call.id == id)
  }

  function Upsert(existing: seq<ToolCall>, toolCall: ToolCall): seq<ToolCall> {
    var i := IndexOfCall(existing, toolCall.id);
    if i == |existing| then existing + [toolCall] else existing[i := MergeToolCall(existing[i], toolCall)]
  }

  function UpsertInMessage(message: Message, messageId: Id, toolCall: ToolCall): Message {
    if message.id != messageId then message
    else message.(toolCalls := Some(Upsert(if message.toolCalls.Some? then message.toolCalls.value else [], toolCall)))
  }

  function MessagesBefore(session: Session, messageId: Id, now: Time): Session {
    var i := IndexOf(session.messages, (m: Message) => m.id == messageId);
    if i == |session.messages| then session
    else session.(messages := session.messages[..i], updatedAt := now)
  }

  /** A partial work document: the id it sets, if any, and what it does to the other fields. */
  datatype DocumentPatch = DocumentPatch(id: Option<Id>, others: WorkDocument -> WorkDocument)

  function PatchDocument(document: WorkDocument, patch: DocumentPatch): WorkDocument {
    patch.others(document).(id := if patch.id.Some? then patch.id.value else document.id)
  }

  function PatchById(id: Id, patch: DocumentPatch): WorkDocument -> WorkDocument {
    (d: WorkDocument) => if d.id == id then PatchDocument(d, patch) else d
  }

  function PatchQuestion(document: WorkDocument, questionId: Id, patch: Question -> Question): WorkDocument {
    document.(questions := Map(document.questions, (q: Question) => if q.id == questionId then patch(q) else q))
  }

  datatype Action =
    | CreateSession(newId: Id, title: string)
    | SelectSession(sessionId: Id)
    | DeleteSession(sessionId: Id)
    | RenameSession(sessionId: Id, title: string)
    | SaveAnalysisSnapshot(sessionId: Id, snapshot: Analysis)
    | DeleteAnalysisSnapshot(sessionId: Id, snapshotId: Id)
    | AddWorkDocument(document: WorkDocument)
    | UpdateWorkDocument(documentId: Id, patch: DocumentPatch)
    | DeleteWorkDocument(documentId: Id)
    | SelectWorkDocument(choice: Option<Id>)
    | UpdateWorkDocumentQuestion(documentId: Id, questionId: Id, change: Question -> Question)
    | AppendMessage(sessionId: Id, message: Message)
    | UpdateMessage(sessionId: Id, messageId: Id, content: string)
    | RemoveMessagesFrom(sessionId: Id, messageId: Id)
    | UpsertToolCall(sessionId: Id, messageId: Id, toolCall: ToolCall)
    | SetSelectedRepo(repo: Option<string>, displayName: Option<string>)
    | SetInputDraft(draft: string)
    | SetWorkspaceOpen(open: bool)
    | SetWorkspaceTab(tab: WorkspaceTab)
    | SetVerifiedMode(enabled: bool)

  /** What an action on messages or analyses makes of the session it names. */
  function Touch(a: Action, session: Session, now: Time): Session {
    match a
    case RenameSession(_, title) => session.(title := title, updatedAt := now)
    case SaveAnalysisSnapshot(_, snapshot) =>
      session.(analyses := Some(SavedAnalyses(AnalysesOf(session), snapshot, now)), updatedAt := now)
    case DeleteAnalysisSnapshot(_, snapshotId) =>
      session.(analyses := Some(Filter(AnalysesOf(session), (item: Analysis) => item.id != snapshotId)),
               updatedAt := now)
    case AppendMessage(_, message) =>
      session.(messages := session.messages + [message], updatedAt := now)
    case UpdateMessage(_, messageId, content) =>
      session.(messages := Map(session.messages, (m: Message) => if m.id == messageId then m.(content := content) else m),
               updatedAt := now)
    case RemoveMessagesFrom(_, messageId) => MessagesBefore(session, messageId, now)
    case UpsertToolCall(_, messageId, toolCall) =>
      session.(messages := Map(session.messages, (m: Message) => UpsertInMessage(m, messageId, toolCall)),
               updatedAt := now)
    case _ => session
  }

  predicate Touches(a: Action) {
    a.RenameSession? || a.SaveAnalysisSnapshot? || a.DeleteAnalysisSnapshot? || a.AppendMessage?
    || a.UpdateMessage? || a.RemoveMessagesFrom? || a.UpsertToolCall?
  }

  /** A repository name of the empty string counts as none. */
  predicate Truthy(s: Option<string>) {
    s.Some? && s.value != ""
  }

  function Apply(s: Store, a: Action, now: Time): Store {
    match a
    case CreateSession(id, title) =>
      s.(sessions := [Session(id, title, now, now, [], None)] + s.sessions, currentSessionId := Some(id))
    case SelectSession(id) => s.(currentSessionId := Some(id))
    case DeleteSession(id) =>
      var sessions := Filter(s.sessions, (session: Session) => session.id != id);
      s.(sessions := sessions,
         currentSessionId := if s.currentSessionId == Some(id) then FirstSessionId(sessions) else s.currentSessionId)
    case AddWorkDocument(document) =>
      var others := Filter(s.workDocuments, (existing: WorkDocument) => existing.id != document.id);
      s.(workDocuments := Take([document] + others, MAX_WORK_DOCUMENTS), currentWorkDocumentId := Some(document.id))
    case UpdateWorkDocument(id, patch) =>
      s.(workDocuments := Map(s.workDocuments, PatchById(id, patch)))
    case DeleteWorkDocument(id) =>
      var documents := Filter(s.workDocuments, (d: WorkDocument) => d.id != id);
      s.(workDocuments := documents,
         currentWorkDocumentId :=
           if s.currentWorkDocumentId == Some(id) then FirstDocumentId(documents) else s.currentWorkDocumentId)
    case SelectWorkDocument(choice) =>
      s.(currentWorkDocumentId :=
           if Truthy(choice) && choice.value in DocumentIds(s.workDocuments) then choice else None)
    case UpdateWorkDocumentQuestion(id, questionId, change) =>
      s.(workDocuments :=
           Map(s.workDocuments, (d: WorkDocument) => if d.id == id then PatchQuestion(d, questionId, change) else d))
    case SetSelectedRepo(repo, displayName) =>
      s.(selectedRepo := repo,
         selectedRepoName := if Truthy(repo) then (if displayName.Some? then displayName else repo) else None)
    case SetInputDraft(draft) => s.(inputDraft := draft)
    case SetWorkspaceOpen(open) => s.(isWorkspaceOpen := open)
    case SetWorkspaceTab(tab) => s.(workspaceTab := tab)
    case SetVerifiedMode(enabled) => s.(verifiedMode := enabled)
    case _ => s.(sessions := UpdateSession(s.sessions, a.sessionId, (session: Session) => Touch(a, session, now)))
  }

  const EmptyStore := Store([], None, None, None, "", false, SourcesTab, false, [], None)

  // ------------------------------------------------------------------
  // The invariant
  // ------------------------------------------------------------------

  ghost predicate AnalysesFit(session: Session) {
    session.analyses.Some? ==>
      |session.analyses.value| <= MAX_ANALYSES && SortedBy(session.analyses.value, MoreRecentAnalysis)
  }

  ghost predicate SessionsOk(s: Store) {
    && SortedBy(s.sessions, MoreRecent)
    && (forall k | 0 <= k < |s.sessions| :: AnalysesFit(s.sessions[k]))
    && (s.currentSessionId.Some? ==> s.currentSessionId.value in SessionIds(s.sessions))
  }

  predicate DocumentsOk(s: Store) {
    && |s.workDocuments| <= MAX_WORK_DOCUMENTS
    && (s.currentWorkDocumentId.Some? ==> s.currentWorkDocumentId.value in DocumentIds(s.workDocuments))
  }

  ghost predicate Inv(s: Store) {
    SessionsOk(s) && DocumentsOk(s)
  }

  /** What an action must respect: a clock that is not behind, an existing selection, ids that stay. */
  predicate Allowed(s: Store, a: Action, now: Time) {
    match a
    case CreateSession(_, _) => s.sessions != [] ==> s.sessions[0].updatedAt <= now
    case SelectSession(id) => id in SessionIds(s.sessions)
    case UpdateWorkDocument(id, patch) =>
      s.currentWorkDocumentId == Some(id) && patch.id.Some? ==> patch.id.value == id
    case _ => true
  }

  lemma RecencyOrders()
    ensures TotalPreorder(MoreRecent) && TotalPreorder(MoreRecentAnalysis)
  {
  }

  lemma SavedAnalysesFit(existing: seq<Analysis>, snapshot: Analysis, now: Time)
    ensures |SavedAnalyses(existing, snapshot, now)| <= MAX_ANALYSES
    ensures SortedBy(SavedAnalyses(existing, snapshot, now), MoreRecentAnalysis)
  {
    RecencyOrders();
    var next := [snapshot.(updatedAt := now)] + Filter(existing, (item: Analysis) => item.id != snapshot.id);
    SortBySorts(next, MoreRecentAnalysis);
  }

  lemma TouchFits(a: Action, session: Session, now: Time)
    requires AnalysesFit(session)
    ensures AnalysesFit(Touch(a, session, now)) && Touch(a, session, now).id == session.id
  {
    match a
    case SaveAnalysisSnapshot(_, snapshot) =>
      SavedAnalysesFit(AnalysesOf(session), snapshot, now);
    case DeleteAnalysisSnapshot(_, snapshotId) =>
      var p := (item: Analysis) => item.id != snapshotId;
      FilterMembers(AnalysesOf(session), p);
      FilterKeepsSorted(AnalysesOf(session), p, MoreRecentAnalysis);
    case _ =>
  }

  /** Updating a session keeps the ids, and leaves the sessions sorted whatever the clock says. */
  lemma UpdateSessionOk(sessions: seq<Session>, sessionId: Id, update: Session -> Session)
    requires forall x: Session :: AnalysesFit(x) ==> AnalysesFit(update(x)) && update(x).id == x.id
    requires forall k | 0 <= k < |sessions| :: AnalysesFit(sessions[k])
    ensures
      var after := UpdateSession(sessions, sessionId, update);
      && SortedBy(after, MoreRecent)
      && (forall k | 0 <= k < |after| :: AnalysesFit(after[k]))
      && SessionIds(after) == SessionIds(sessions)
  {
    hide AnalysesFit, SortBy;
    var mapped := Map(sessions, UpdateById(sessionId, update));
    var after := UpdateSession(sessions, sessionId, update);
    RecencyOrders();
    SortBySorts(mapped, MoreRecent);
    SortByKeepsMembers(mapped, MoreRecent);
    forall k | 0 <= k < |after| ensures AnalysesFit(after[k]) && after[k].id in SessionIds(sessions) {
      assert after[k] in mapped;
    }
    forall k | 0 <= k < |sessions| ensures sessions[k].id in SessionIds(after) {
      assert mapped[k] in after;
    }
  }

  lemma SessionsWithout(sessions: seq<Session>, id: Id)
    requires SortedBy(sessions, MoreRecent) && forall k | 0 <= k < |sessions| :: AnalysesFit(sessions[k])
    ensures
      var after := Filter(sessions, (session: Session) => session.id != id);
      && SortedBy(after, MoreRecent)
      && (forall k | 0 <= k < |after| :: AnalysesFit(after[k]))
      && (forall other <- SessionIds(sessions) :: other != id ==> other in SessionIds(after))
  {
    hide AnalysesFit;
    var p := (session: Session) => session.id != id;
    var after := Filter(sessions, p);
    FilterKeepsSorted(sessions, p, MoreRecent);
    forall k | 0 <= k < |after| ensures AnalysesFit(after[k]) {
      FilterMember(sessions, p, after[k]);
    }
    forall other <- SessionIds(sessions) | other != id ensures other in SessionIds(after) {
      var k :| 0 <= k < |sessions| && sessions[k].id == other;
      FilterMembers(sessions, p);
      assert sessions[k] in after;
    }
  }

  lemma DeleteSessionOk(s: Store, id: Id, now: Time)
    requires Inv(s)
    ensures Inv(Apply(s, DeleteSession(id), now))
  {
    hide AnalysesFit, DocumentsOk, Filter;
    SessionsWithout(s.sessions, id);
    SameDocuments(s, Apply(s, DeleteSession(id), now));
  }

  lemma DeleteWorkDocumentOk(s: Store, id: Id, now: Time)
    requires Inv(s)
    ensures Inv(Apply(s, DeleteWorkDocument(id), now))
  {
    hide SessionsOk;
    var p := (d: WorkDocument) => d.id != id;
    var documents := Filter(s.workDocuments, p);
    FilterMembers(s.workDocuments, p);
    if s.currentWorkDocumentId.Some? && s.currentWorkDocumentId != Some(id) {
      var k :| 0 <= k < |s.workDocuments| && s.workDocuments[k].id == s.currentWorkDocumentId.value;
      assert s.workDocuments[k] in documents;
    }
    assert SessionsOk(Apply(s, DeleteWorkDocument(id), now)) by {
      SameSessions(s, Apply(s, DeleteWorkDocument(id), now));
    }
  }

  lemma SameSessions(s: Store, n: Store)
    requires SessionsOk(s) && n.sessions == s.sessions && n.currentSessionId == s.currentSessionId
    ensures SessionsOk(n)
  {
  }

  lemma SameDocuments(s: Store, n: Store)
    requires DocumentsOk(s) && n.workDocuments == s.workDocuments && n.currentWorkDocumentId == s.currentWorkDocumentId
    ensures DocumentsOk(n)
  {
  }

  lemma TouchSessionsOk(sessions: seq<Session>, a: Action, sessionId: Id, now: Time)
    requires forall k | 0 <= k < |sessions| :: AnalysesFit(sessions[k])
    ensures
      var after := UpdateSession(sessions, sessionId, (session: Session) => Touch(a, session, now));
      && SortedBy(after, MoreRecent)
      && (forall k | 0 <= k < |after| :: AnalysesFit(after[k]))
      && SessionIds(after) == SessionIds(sessions)
  {
    hide AnalysesFit, Touch, UpdateSession;
    var update := (session: Session) => Touch(a, session, now);
    forall x: Session | AnalysesFit(x) ensures AnalysesFit(update(x)) && update(x).id == x.id {
      TouchFits(a, x, now);
    }
    UpdateSessionOk(sessions, sessionId, update);
  }

  lemma TouchOk(s: Store, a: Action, now: Time)
    requires Inv(s) && Touches(a)
    ensures Inv(Apply(s, a, now))
  {
    hide Apply, Touch, UpdateSession, AnalysesFit, DocumentsOk;
    TouchedSessions(s, a, now);
    TouchSessionsOk(s.sessions, a, a.sessionId, now);
    SameDocuments(s, Apply(s, a, now));
  }

  lemma CreateSessionOk(s: Store, id: Id, title: string, now: Time)
    requires Inv(s)
    ensures Inv(Apply(s, CreateSession(id, title), now)) <==> Allowed(s, CreateSession(id, title), now)
  {
    var session := Session(id, title, now, now, [], None);
    var n := Apply(s, CreateSession(id, title), now);
    SameDocuments(s, n);
    assert n.sessions[0] == session && n.sessions[1..] == s.sessions;
    assert forall k | 0 <= k < |s.sessions| :: n.sessions[k + 1] == s.sessions[k];
    if s.sessions != [] {
      if now < s.sessions[0].updatedAt {
        assert !MoreRecent(n.sessions[0], n.sessions[1]);
      } else {
        forall i, j | 0 <= i < j < |n.sessions| ensures MoreRecent(n.sessions[i], n.sessions[j]) {
          assert j > 1 ==> MoreRecent(s.sessions[0], s.sessions[j - 1]);
          assert i > 0 ==> MoreRecent(s.sessions[i - 1], s.sessions[j - 1]);
        }
      }
    }
  }

  lemma AddWorkDocumentOk(s: Store, document: WorkDocument, now: Time)
    requires Inv(s)
    ensures Inv(Apply(s, AddWorkDocument(document), now))
  {
    var n := Apply(s, AddWorkDocument(document), now);
    SameSessions(s, n);
    assert n.workDocuments[0] == document;
  }

  lemma UpdateWorkDocumentOk(s: Store, id: Id, patch: DocumentPatch, now: Time)
    requires Inv(s)
    ensures Inv(Apply(s, UpdateWorkDocument(id, patch), now)) <==> Allowed(s, UpdateWorkDocument(id, patch), now)
  {
    hide SessionsOk;
    var n := Apply(s, UpdateWorkDocument(id, patch), now);
    SameSessions(s, n);
    hide PatchDocument, Map, DocumentIds;
  }

  lemma UpdateQuestionOk(s: Store, id: Id, questionId: Id, change: Question -> Question, now: Time)
    requires Inv(s)
    ensures Inv(Apply(s, UpdateWorkDocumentQuestion(id, questionId, change), now))
  {
    hide SessionsOk;
    var n := Apply(s, UpdateWorkDocumentQuestion(id, questionId, change), now);
    SameSessions(s, n);
    assert forall k | 0 <= k < |s.workDocuments| :: n.workDocuments[k].id == s.workDocuments[k].id;
  }

  /** An action keeps the invariant exactly when it is allowed. */
  lemma ApplyKeepsInv(s: Store, a: Action, now: Time)
    requires Inv(s)
    ensures Inv(Apply(s, a, now)) <==> Allowed(s, a, now)
  {
    hide Inv, SessionsOk, DocumentsOk, Touch;
    match a
    case CreateSession(id, title) => CreateSessionOk(s, id, title, now);
    case SelectSession(id) => SelectSessionOk(s, id, now);
    case DeleteSession(id) => DeleteSessionOk(s, id, now);
    case AddWorkDocument(document) => AddWorkDocumentOk(s, document, now);
    case UpdateWorkDocument(id, patch) => UpdateWorkDocumentOk(s, id, patch, now);
    case DeleteWorkDocument(id) => DeleteWorkDocumentOk(s, id, now);
    case SelectWorkDocument(choice) => SelectWorkDocumentOk(s, choice, now);
    case UpdateWorkDocumentQuestion(id, questionId, change) => UpdateQuestionOk(s, id, questionId, change, now);
    case SetSelectedRepo(_, _) => SettingOk(s, a, now);
    case SetInputDraft(_) => SettingOk(s, a, now);
    case SetWorkspaceOpen(_) => SettingOk(s, a, now);
    case SetWorkspaceTab(_) => SettingOk(s, a, now);
    case SetVerifiedMode(_) => SettingOk(s, a, now);
    case _ => TouchOk(s, a, now);
  }

  lemma TouchedSessions(s: Store, a: Action, now: Time)
    requires Touches(a)
    ensures Apply(s, a, now)
         == s.(sessions := UpdateSession(s.sessions, a.sessionId, (session: Session) => Touch(a, session, now)))
  {
  }

  lemma SelectSessionOk(s: Store, id: Id, now: Time)
    requires Inv(s)
    ensures Inv(Apply(s, SelectSession(id), now)) <==> Allowed(s, SelectSession(id), now)
  {
  }

  lemma SelectWorkDocumentOk(s: Store, choice: Option<Id>, now: Time)
    requires Inv(s)
    ensures Inv(Apply(s, SelectWorkDocument(choice), now))
  {
  }

  lemma SettingOk(s: Store, a: Action, now: Time)
    requires Inv(s)
    requires a.SetSelectedRepo? || a.SetInputDraft? || a.SetWorkspaceOpen? || a.SetWorkspaceTab? || a.SetVerifiedMode?
    ensures Inv(Apply(s, a, now))
  {
    hide SessionsOk, DocumentsOk;
    SameSessions(s, Apply(s, a, now));
    SameDocuments(s, Apply(s, a, now));
  }

  // ------------------------------------------------------------------
  // Whole runs
  // ------------------------------------------------------------------

  datatype Moment = Moment(action: Action, now: Time)

  ghost predicate IsRun(states: seq<Store>, moments: seq<Moment>) {
    && |states| == |moments| + 1
    && forall i | 0 <= i < |moments| :: states[i + 1] == Apply(states[i], moments[i].action, moments[i].now)
  }

  predicate UpToDate(s: Store, t: Time) {
    forall k | 0 <= k < |s.sessions| :: s.sessions[k].updatedAt <= t
  }

  /** What callers see to, whatever the clock: sessions they select exist and patches keep ids. */
  predicate WellFormed(s: Store, a: Action) {
    && (a.SelectSession? ==> a.sessionId in SessionIds(s.sessions))
    && (a.UpdateWorkDocument? && a.patch.id.Some? ==> a.patch.id.value == a.documentId)
  }

  lemma TouchUpToDate(a: Action, session: Session, t: Time, now: Time)
    requires session.updatedAt <= t <= now
    ensures Touch(a, session, now).updatedAt <= now
  {
  }

  lemma SessionsUpToDate(sessions: seq<Session>, a: Action, sessionId: Id, t: Time, now: Time)
    requires t <= now && forall k | 0 <= k < |sessions| :: sessions[k].updatedAt <= t
    ensures
      var after := UpdateSession(sessions, sessionId, (session: Session) => Touch(a, session, now));
      forall k | 0 <= k < |after| :: after[k].updatedAt <= now
  {
    hide Touch, SortBy;
    var update := (session: Session) => Touch(a, session, now);
    var mapped := Map(sessions, UpdateById(sessionId, update));
    var after := UpdateSession(sessions, sessionId, update);
    SortByKeepsMembers(mapped, MoreRecent);
    forall k | 0 <= k < |after| ensures after[k].updatedAt <= now {
      assert after[k] in mapped;
      var j :| 0 <= j < |mapped| && mapped[j] == after[k];
      TouchUpToDate(a, sessions[j], t, now);
    }
  }

  lemma StaysUpToDate(s: Store, a: Action, t: Time, now: Time)
    requires UpToDate(s, t) && t <= now
    ensures UpToDate(Apply(s, a, now), now)
  {
    hide Touch, UpdateSession;
    match a
    case DeleteSession(id) =>
      var sessions := Apply(s, a, now).sessions;
      forall k | 0 <= k < |sessions| ensures sessions[k].updatedAt <= now {
        FilterMember(s.sessions, (session: Session) => session.id != id, sessions[k]);
      }
    case CreateSession(_, _) =>
    case SelectSession(_) =>
    case AddWorkDocument(_) =>
    case UpdateWorkDocument(_, _) =>
    case DeleteWorkDocument(_) =>
    case SelectWorkDocument(_) =>
    case UpdateWorkDocumentQuestion(_, _, _) =>
    case SetSelectedRepo(_, _) =>
    case SetInputDraft(_) =>
    case SetWorkspaceOpen(_) =>
    case SetWorkspaceTab(_) =>
    case SetVerifiedMode(_) =>
    case _ =>
      SessionsUpToDate(s.sessions, a, a.sessionId, t, now);
      TouchedSessions(s, a, now);
  }

  /** With a clock that never falls behind, every run of well-formed actions keeps the invariant. */
  lemma {:induction false} RunKeepsInv(states: seq<Store>, moments: seq<Moment>, t: Time, i: nat)
    requires IsRun(states, moments) && i < |states|
    requires Inv(states[0]) && UpToDate(states[0], t)
    requires forall j | 0 <= j < |moments| :: WellFormed(states[j], moments[j].action)
    requires |moments| > 0 ==> t <= moments[0].now
    requires forall j, k | 0 <= j < k < |moments| :: moments[j].now <= moments[k].now
    ensures Inv(states[i]) && UpToDate(states[i], if i == 0 then t else moments[i - 1].now)
  {
    hide Inv, UpToDate, Apply;
    if i > 0 {
      RunKeepsInv(states, moments, t, i - 1);
      var before := if i == 1 then t else moments[i - 2].now;
      StaysUpToDate(states[i - 1], moments[i - 1].action, before, moments[i - 1].now);
      WellFormedIsAllowed(states[i - 1], moments[i - 1].action, before, moments[i - 1].now);
      ApplyKeepsInv(states[i - 1], moments[i - 1].action, moments[i - 1].now);
    }
  }

  lemma WellFormedIsAllowed(s: Store, a: Action, t: Time, now: Time)
    requires UpToDate(s, t) && t <= now && WellFormed(s, a)
    ensures Allowed(s, a, now)
  {
  }

  // ------------------------------------------------------------------
  // What single actions do
  // ------------------------------------------------------------------

  /** A session touched now comes first; all others keep their order. */
  lemma TouchedComesFirst(sessions: seq<Session>, k: nat, update: Session -> Session)
    requires SortedBy(sessions, MoreRecent) && k < |sessions|
    requires forall j | 0 <= j < |sessions| && j != k ::
               sessions[j].id != sessions[k].id && sessions[j].updatedAt < update(sessions[k]).updatedAt
    ensures UpdateSession(sessions, sessions[k].id, update)
         == [update(sessions[k])] + sessions[..k] + sessions[k + 1..]
  {
    hide SortBy;
    var mapped := Map(sessions, UpdateById(sessions[k].id, update));
    assert mapped[..k] == sessions[..k] && mapped[k + 1..] == sessions[k + 1..];
    var others := sessions[..k] + sessions[k + 1..];
    forall i, j | 0 <= i < j < |others| ensures MoreRecent(others[i], others[j]) {
      assert others[i] == sessions[if i < k then i else i + 1] && others[j] == sessions[if j < k then j else j + 1];
    }
    forall y <- others ensures MoreRecent(mapped[k], y) && !MoreRecent(y, mapped[k]) {
      assert y in sessions[..k] || y in sessions[k + 1..];
    }
    assert mapped == sessions[..k] + [mapped[k]] + sessions[k + 1..];
    SortMovesToFront(sessions[..k], mapped[k], sessions[k + 1..], MoreRecent);
  }

  /** Updating a session that is not there changes nothing. */
  lemma TouchingNoneChangesNothing(sessions: seq<Session>, sessionId: Id, update: Session -> Session)
    requires SortedBy(sessions, MoreRecent) && sessionId !in SessionIds(sessions)
    ensures UpdateSession(sessions, sessionId, update) == sessions
  {
    assert Map(sessions, UpdateById(sessionId, update)) == sessions;
    SortByKeepsSorted(sessions, MoreRecent);
  }

  /** The current session is found whenever one is set. */
  function CurrentSession(s: Store): Option<Session> {
    var i := IndexOf(s.sessions, (session: Session) => Some(session.id) == s.currentSessionId);
    if i == |s.sessions| then None else Some(s.sessions[i])
  }

  lemma CurrentSessionFound(s: Store)
    requires Inv(s)
    ensures CurrentSession(s).Some? <==> s.currentSessionId.Some?
    ensures CurrentSession(s).Some? ==> s.currentSessionId == Some(CurrentSession(s).value.id)
  {
    if s.currentSessionId.Some? {
      var k :| 0 <= k < |s.sessions| && s.sessions[k].id == s.currentSessionId.value;
      var p := (session: Session) => Some(session.id) == s.currentSessionId;
      assert p(s.sessions[k]);
    }
  }

  predicate DistinctCalls(calls: seq<ToolCall>) {
    forall j, k | 0 <= j < k < |calls| :: calls[j].id != calls[k].id
  }

  /** A tool call is there once after it is upserted, the others as before; upserting again changes nothing. */
  lemma UpsertIsStable(calls: seq<ToolCall>, toolCall: ToolCall)
    requires DistinctCalls(calls)
    ensures
      var after := Upsert(calls, toolCall);
      && DistinctCalls(after)
      && |calls| <= |after| <= |calls| + 1
      && (exists k :: 0 <= k < |after| && after[k].id == toolCall.id && after[k].status == toolCall.status)
      && (forall k | 0 <= k < |calls| && calls[k].id != toolCall.id :: after[k] == calls[k])
      && Upsert(after, toolCall) == after
  {
    hide IndexOfCall;
    var i := IndexOfCall(calls, toolCall.id);
    var after := Upsert(calls, toolCall);
    assert after[i].id == toolCall.id;
    assert forall k | 0 <= k < i :: after[k] == calls[k];
    assert IndexOfCall(after, toolCall.id) == i;
    assert MergeToolCall(after[i], toolCall) == after[i];
  }
}
