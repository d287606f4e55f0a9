/** Putting generated answers back into the source text of a work document. */
module WorkDocAnswers {
  import opened GraphTypes
  import opened Options

  datatype Question = Question(id: string, labelText: string, text: string, answer: Option<string>)

  /** Trimming, the text normalization used for matching, and the formatting of an answer. */
  datatype Host = Host(
    trim: string -> string,
    trimEnd: string -> string,
    normalizeText: string -> string,
    formatAnswer: string -> string)

  /** The question has an answer that is not blank. */
  predicate IsAnswered(host: Host, question: Question) {
    question.answer.Some? && host.trim(question.answer.value) != ""
  }

  function AnswerText(host: Host, question: Question): string
    requires IsAnswered(host, question)
  {
    host.formatAnswer(host.trim(question.answer.value))
  }

  predicate LineMatches(host: Host, line: string, question: Question) {
    var normalizedLine := host.normalizeText(line);
    var labelText := host.normalizeText(question.labelText);
    var text := host.normalizeText(question.text);
    && normalizedLine != ""
    && ((labelText != "" && ContainsText(normalizedLine, labelText)) || (text != "" && ContainsText(normalizedLine, text)))
  }

  /** The question may be placed after `line`, the questions in `placed` being placed already. */
  predicate Fits(host: Host, line: string, question: Question, placed: set<string>) {
    IsAnswered(host, question) && question.id !in placed && LineMatches(host, line, question)
  }

  /** `questions.find(…)` */
  function FirstFit(host: Host, line: string, questions: seq<Question>, placed: set<string>): (r: Option<Question>)
    ensures r.Some? ==> r.value in questions && IsAnswered(host, r.value) && Fits(host, line, r.value, placed)
    ensures r.None? ==> forall q <- questions :: !Fits(host, line, q, placed)
  {
    if questions == [] then None
    else if Fits(host, line, questions[0], placed) then Some(questions[0])
    else FirstFit(host, line, questions[1..], placed)
  }

  // ------------------------------------------------------------------
  // The layout of the document
  // ------------------------------------------------------------------

  datatype Piece = Source(line: string) | Placed(question: Question)

  /** The source lines, each followed by the answer placed there, if any. */
  function Body(host: Host, lines: seq<string>, questions: seq<Question>, placed: set<string>): (pieces: seq<Piece>)
    ensures AllAnswered(host, pieces)
  {
    if lines == [] then []
    else
      match FirstFit(host, lines[0], questions, placed)
      case None => [Source(lines[0])] + Body(host, lines[1..], questions, placed)
      case Some(q) => [Source(lines[0]), Placed(q)] + Body(host, lines[1..], questions, placed + {q.id})
  }

  function PlacedIds(pieces: seq<Piece>): seq<string> {
    if pieces == [] then []
    else (if pieces[0].Placed? then [pieces[0].question.id] else []) + PlacedIds(pieces[1..])
  }

  function SourceLines(pieces: seq<Piece>): seq<string> {
    if pieces == [] then []
    else (if pieces[0].Source? then [pieces[0].line] else []) + SourceLines(pieces[1..])
  }

  /** The answered questions that were not placed, in order. */
  function Missed(host: Host, questions: seq<Question>, placed: set<string>): (missed: seq<Question>)
    ensures forall q <- missed :: q in questions && IsAnswered(host, q) && q.id !in placed
  {
    if questions == [] then []
    else
      (if IsAnswered(host, questions[0]) && questions[0].id !in placed then [questions[0]] else [])
      + Missed(host, questions[1..], placed)
  }

  // ------------------------------------------------------------------
  // Its text
  // ------------------------------------------------------------------

  function PlacedText(host: Host, question: Question): seq<string>
    requires IsAnswered(host, question)
  {
    ["", "> R\U{E9}ponse Code Explorer g\U{E9}n\U{E9}r\U{E9}e pour " + question.labelText, ""]
    + [AnswerText(host, question), ""]
  }

  function MissedText(host: Host, question: Question): seq<string>
    requires IsAnswered(host, question)
  {
    ["#### " + question.labelText + " - " + question.text, "", AnswerText(host, question), ""]
  }

  const MISSED_HEADING := ["", "### R\U{E9}ponses g\U{E9}n\U{E9}r\U{E9}es non repositionn\U{E9}es automatiquement", ""]

  function TextOf(host: Host, piece: Piece): seq<string>
    requires piece.Placed? ==> IsAnswered(host, piece.question)
  {
    match piece
    case Source(line) => [line]
    case Placed(question) => PlacedText(host, question)
  }

  predicate AllAnswered(host: Host, pieces: seq<Piece>) {
    forall p <- pieces :: p.Placed? ==> IsAnswered(host, p.question)
  }

  function TextOfAll(host: Host, pieces: seq<Piece>): seq<string>
    requires AllAnswered(host, pieces)
  {
    if pieces == [] then [] else TextOf(host, pieces[0]) + TextOfAll(host, pieces[1..])
  }

  function TextOfMissed(host: Host, missed: seq<Question>): seq<string>
    requires forall q <- missed :: IsAnswered(host, q)
  {
    if missed == [] then [] else MissedText(host, missed[0]) + TextOfMissed(host, missed[1..])
  }

  function JoinLf(lines: seq<string>): string {
    if lines == [] then "" else if |lines| == 1 then lines[0] else lines[0] + "\n" + JoinLf(lines[1..])
  }

  function IdSet(ids: seq<string>): set<string> {
    set id | id in ids
  }

  /** The lines the document is made of: the body, then the answers that found no line. */
  function DocumentLines(host: Host, source: seq<string>, questions: seq<Question>): seq<string> {
    var body := Body(host, source, questions, {});
    var missed := Missed(host, questions, IdSet(PlacedIds(body)));
    TextOfAll(host, body) + if missed == [] then [] else MISSED_HEADING + TextOfMissed(host, missed)
  }

  // ------------------------------------------------------------------
  // Building it
  // ------------------------------------------------------------------

  /** What holds after the first `i` source lines. */
  ghost predicate BuiltUpTo(host: Host, source: seq<string>, questions: seq<Question>, i: nat,
                            lines: seq<string>, answered: set<string>) {
    i <= |source| &&
    var rest := Body(host, source[i..], questions, answered);
    var all := Body(host, source, questions, {});
    && lines + TextOfAll(host, rest) == TextOfAll(host, all)
    && answered + IdSet(PlacedIds(rest)) == IdSet(PlacedIds(all))
  }

  lemma BuildStarts(host: Host, source: seq<string>, questions: seq<Question>)
    ensures BuiltUpTo(host, source, questions, 0, [], {})
  {
    assert source[0..] == source;
  }

  /** What one source line adds to the text and to the ids placed. */
  lemma BodyStep(host: Host, lines: seq<string>, questions: seq<Question>, placed: set<string>)
    requires lines != []
    ensures
      var all := Body(host, lines, questions, placed);
      match FirstFit(host, lines[0], questions, placed)
      case None =>
        var rest := Body(host, lines[1..], questions, placed);
        && TextOfAll(host, all) == [lines[0]] + TextOfAll(host, rest)
        && IdSet(PlacedIds(all)) == IdSet(PlacedIds(rest))
      case Some(q) =>
        var rest := Body(host, lines[1..], questions, placed + {q.id});
        && TextOfAll(host, all) == [lines[0]] + (PlacedText(host, q) + TextOfAll(host, rest))
        && IdSet(PlacedIds(all)) == {q.id} + IdSet(PlacedIds(rest))
  {
    hide FirstFit, Fits, IsAnswered, PlacedText;
    var all := Body(host, lines, questions, placed);
    match FirstFit(host, lines[0], questions, placed)
    case None =>
      assert all[1..] == Body(host, lines[1..], questions, placed);
    case Some(q) =>
      var rest := Body(host, lines[1..], questions, placed + {q.id});
      assert all[1..] == [Placed(q)] + rest && all[1..][1..] == rest;
      assert PlacedIds(all) == [q.id] + PlacedIds(rest);
      assert forall id :: id in [q.id] + PlacedIds(rest) <==> id == q.id || id in PlacedIds(rest);
  }

  lemma BuildStep(host: Host, source: seq<string>, questions: seq<Question>, i: nat,
                  lines0: seq<string>, answered0: set<string>, lines: seq<string>, answered: set<string>)
    requires i < |source| && BuiltUpTo(host, source, questions, i, lines0, answered0)
    requires
      match FirstFit(host, source[i], questions, answered0)
      case None => lines == lines0 + [source[i]] && answered == answered0
      case Some(q) =>
        lines == lines0 + [source[i]] + PlacedText(host, q) && answered == answered0 + {q.id}
    ensures BuiltUpTo(host, source, questions, i + 1, lines, answered)
  {
    hide Body, PlacedIds, TextOfAll, FirstFit, Fits, IsAnswered, PlacedText;
    var here := source[i..];
    assert here[1..] == source[i + 1..] && here[0] == source[i];
    BodyStep(host, here, questions, answered0);
    var next := TextOfAll(host, Body(host, here[1..], questions, answered));
    match FirstFit(host, source[i], questions, answered0)
    case None =>
      assert lines + next == lines0 + ([source[i]] + next);
    case Some(q) =>
      assert lines + next == lines0 + ([source[i]] + (PlacedText(host, q) + next));
  }

  lemma BuildEnds(host: Host, source: seq<string>, questions: seq<Question>, lines: seq<string>, answered: set<string>)
    requires BuiltUpTo(host, source, questions, |source|, lines, answered)
    ensures answered == IdSet(PlacedIds(Body(host, source, questions, {})))
    ensures
      var missed := Missed(host, questions, answered);
      DocumentLines(host, source, questions)
      == lines + if missed == [] then [] else MISSED_HEADING + TextOfMissed(host, missed)
  {
    hide Missed, TextOfMissed;
    var none: seq<Piece> := [];
    assert Body(host, source[|source|..], questions, answered) == none;
    assert lines + TextOfAll(host, none) == lines;
    assert answered + IdSet(PlacedIds(none)) == answered;
  }

  lemma MissedStep(host: Host, missed: seq<Question>, i: nat)
    requires i < |missed| && forall q <- missed :: IsAnswered(host, q)
    ensures TextOfMissed(host, missed[i..]) == MissedText(host, missed[i]) + TextOfMissed(host, missed[i + 1..])
  {
    assert missed[i..][1..] == missed[i + 1..];
  }

  lemma NoMoreMissed(host: Host, missed: seq<Question>)
    ensures TextOfMissed(host, missed[|missed|..]) == []
  {
    var none: seq<Question> := [];
    assert missed[|missed|..] == none && TextOfMissed(host, none) == [];
  }

  /** The source text with the answers of `questions` put in it. */
  method BuildSourceMarkdownWithAnswers(host: Host, source: seq<string>, questions: seq<Question>)
    returns (markdown: string)
    ensures markdown == host.trimEnd(JoinLf(DocumentLines(host, source, questions)))
  {
    hide BuiltUpTo, Body, TextOfAll, Missed, TextOfMissed, IsAnswered, DocumentLines;
    var answeredById: set<string> := {};
    var lines: seq<string> := [];
    BuildStarts(host, source, questions);
    var i := 0;
    while i < |source|
      invariant i <= |source|
      invariant BuiltUpTo(host, source, questions, i, lines, answeredById)
    {
      hide Body, TextOfAll, BuiltUpTo, Fits, IsAnswered, FirstFit;
      var question := FirstFit(host, source[i], questions, answeredById);
      ghost var lines0, answered0 := lines, answeredById;
      lines := lines + [source[i]];
      match question {
        case None =>
        case Some(q) =>
          answeredById := answeredById + {q.id};
          lines := lines + ["", "> R\U{E9}ponse Code Explorer g\U{E9}n\U{E9}r\U{E9}e pour " + q.labelText, ""];
          lines := lines + [AnswerText(host, q), ""];
      }
      BuildStep(host, source, questions, i, lines0, answered0, lines, answeredById);
      i := i + 1;
    }
    var missed := Missed(host, questions, answeredById);
    BuildEnds(host, source, questions, lines, answeredById);
    ghost var placedText := lines;
    if |missed| > 0 {
      lines := lines + ["", "### R\U{E9}ponses g\U{E9}n\U{E9}r\U{E9}es non repositionn\U{E9}es automatiquement", ""];
    }
    ghost var head := lines;
    assert missed[0..] == missed;
    i := 0;
    while i < |missed|
      invariant i <= |missed|
      invariant lines + TextOfMissed(host, missed[i..]) == head + TextOfMissed(host, missed)
    {
      var q := missed[i];
      MissedStep(host, missed, i);
      lines := lines + ["#### " + q.labelText + " - " + q.text, "", AnswerText(host, q), ""];
      i := i + 1;
    }
    NoMoreMissed(host, missed);
    assert lines == lines + TextOfMissed(host, missed[i..]);
    assert missed != [] ==> lines == placedText + (MISSED_HEADING + TextOfMissed(host, missed));
    markdown := host.trimEnd(JoinLf(lines));
  }

  // ------------------------------------------------------------------
  // What the layout keeps
  // ------------------------------------------------------------------

  predicate DistinctIds(questions: seq<Question>) {
    forall j, k | 0 <= j < k < |questions| :: questions[j].id != questions[k].id
  }

  lemma {:induction false} SourceKept(host: Host, lines: seq<string>, questions: seq<Question>, placed: set<string>)
    ensures SourceLines(Body(host, lines, questions, placed)) == lines
  {
    hide FirstFit;
    if lines != [] {
      var pieces := Body(host, lines, questions, placed);
      match FirstFit(host, lines[0], questions, placed)
      case None =>
        SourceKept(host, lines[1..], questions, placed);
      case Some(q) =>
        var rest := Body(host, lines[1..], questions, placed + {q.id});
        SourceKept(host, lines[1..], questions, placed + {q.id});
        assert pieces[1..] == [Placed(q)] + rest && pieces[1..][1..] == rest;
    }
  }

  function CountOf(ids: seq<string>, id: string): nat {
    if ids == [] then 0 else (if ids[0] == id then 1 else 0) + CountOf(ids[1..], id)
  }

  function IdsOf(questions: seq<Question>): seq<string> {
    if questions == [] then [] else [questions[0].id] + IdsOf(questions[1..])
  }

  lemma {:induction false} CountIsMembership(ids: seq<string>, id: string)
    ensures CountOf(ids, id) > 0 <==> id in ids
  {
    if ids != [] { CountIsMembership(ids[1..], id); }
  }

  /** What a piece list says after one more source line. */
  lemma PlacedIdsStep(host: Host, lines: seq<string>, questions: seq<Question>, placed: set<string>)
    requires lines != []
    ensures
      PlacedIds(Body(host, lines, questions, placed)) ==
      match FirstFit(host, lines[0], questions, placed)
      case None => PlacedIds(Body(host, lines[1..], questions, placed))
      case Some(q) => [q.id] + PlacedIds(Body(host, lines[1..], questions, placed + {q.id}))
  {
    hide FirstFit;
    var pieces := Body(host, lines, questions, placed);
    match FirstFit(host, lines[0], questions, placed)
    case None =>
      assert pieces[1..] == Body(host, lines[1..], questions, placed);
    case Some(q) =>
      var rest := Body(host, lines[1..], questions, placed + {q.id});
      assert pieces[1..] == [Placed(q)] + rest && pieces[1..][1..] == rest;
  }

  /** No id is placed twice, nor one that was placed before; only answered questions are placed. */
  lemma {:induction false} PlacedAtMostOnce(host: Host, lines: seq<string>, questions: seq<Question>,
                                            placed: set<string>, id: string)
    ensures CountOf(PlacedIds(Body(host, lines, questions, placed)), id) <= if id in placed then 0 else 1
    ensures id in PlacedIds(Body(host, lines, questions, placed)) ==>
              exists q :: q in questions && q.id == id && IsAnswered(host, q)
  {
    hide Body, LineMatches, IsAnswered;
    if lines == [] {
      assert Body(host, lines, questions, placed) == [] by { BodyOfNothing(host, questions, placed); }
    } else {
      PlacedIdsStep(host, lines, questions, placed);
      match FirstFit(host, lines[0], questions, placed)
      case None =>
        PlacedAtMostOnce(host, lines[1..], questions, placed, id);
      case Some(q) =>
        PlacedAtMostOnce(host, lines[1..], questions, placed + {q.id}, id);
    }
  }

  lemma BodyOfNothing(host: Host, questions: seq<Question>, placed: set<string>)
    ensures Body(host, [], questions, placed) == []
  {
  }

  lemma MissedFirst(host: Host, questions: seq<Question>, placed: set<string>, id: string)
    requires questions != []
    ensures CountOf(IdsOf(Missed(host, questions, placed)), id)
         == (if IsAnswered(host, questions[0]) && questions[0].id !in placed && questions[0].id == id then 1 else 0)
            + CountOf(IdsOf(Missed(host, questions[1..], placed)), id)
  {
    hide IsAnswered;
    var missed := Missed(host, questions[1..], placed);
    if IsAnswered(host, questions[0]) && questions[0].id !in placed {
      assert ([questions[0]] + missed)[1..] == missed;
    } else {
      assert [] + missed == missed;
    }
  }

  /** The answered questions with this id. */
  function AnsweredCount(host: Host, questions: seq<Question>, id: string): nat {
    if questions == [] then 0
    else
      (if IsAnswered(host, questions[0]) && questions[0].id == id then 1 else 0)
      + AnsweredCount(host, questions[1..], id)
  }

  lemma {:induction false} MissedCount(host: Host, questions: seq<Question>, placed: set<string>, id: string)
    ensures CountOf(IdsOf(Missed(host, questions, placed)), id)
         == if id in placed then 0 else AnsweredCount(host, questions, id)
  {
    hide IsAnswered;
    if questions != [] {
      MissedFirst(host, questions, placed, id);
      MissedCount(host, questions[1..], placed, id);
    }
  }

  lemma {:induction false} AnsweredCountIsPositive(host: Host, questions: seq<Question>, question: Question)
    requires question in questions && IsAnswered(host, question)
    ensures AnsweredCount(host, questions, question.id) > 0
  {
    hide IsAnswered;
    if question != questions[0] { AnsweredCountIsPositive(host, questions[1..], question); }
  }

  lemma {:induction false} NoneAnswered(host: Host, questions: seq<Question>, id: string)
    requires forall q <- questions :: q.id != id
    ensures AnsweredCount(host, questions, id) == 0
  {
    hide IsAnswered;
    if questions != [] { NoneAnswered(host, questions[1..], id); }
  }

  lemma {:induction false} DistinctAnsweredCount(host: Host, questions: seq<Question>, k: nat)
    requires DistinctIds(questions) && k < |questions|
    ensures AnsweredCount(host, questions, questions[k].id) == if IsAnswered(host, questions[k]) then 1 else 0
  {
    hide IsAnswered;
    if k == 0 {
      NoneAnswered(host, questions[1..], questions[k].id);
    } else {
      DistinctAnsweredCount(host, questions[1..], k - 1);
    }
  }

  function PlacedIn(host: Host, source: seq<string>, questions: seq<Question>): seq<string> {
    PlacedIds(Body(host, source, questions, {}))
  }

  function MissedIn(host: Host, source: seq<string>, questions: seq<Question>): seq<Question> {
    Missed(host, questions, IdSet(PlacedIn(host, source, questions)))
  }

  /** How many times the answers of `id` stand in the document. */
  function Occurrences(host: Host, source: seq<string>, questions: seq<Question>, id: string): nat {
    CountOf(PlacedIn(host, source, questions), id) + CountOf(IdsOf(MissedIn(host, source, questions)), id)
  }

  /** A placed id appears once, any other as often as it has answers. */
  lemma OccurrencesAre(host: Host, source: seq<string>, questions: seq<Question>, id: string)
    ensures Occurrences(host, source, questions, id)
         == if id in PlacedIn(host, source, questions) then 1 else AnsweredCount(host, questions, id)
    ensures id in PlacedIn(host, source, questions) ==> AnsweredCount(host, questions, id) > 0
  {
    hide Body, IsAnswered, Missed;
    var ids := PlacedIn(host, source, questions);
    PlacedAtMostOnce(host, source, questions, {}, id);
    CountIsMembership(ids, id);
    MissedCount(host, questions, IdSet(ids), id);
    if id in ids {
      var q :| q in questions && q.id == id && IsAnswered(host, q);
      AnsweredCountIsPositive(host, questions, q);
    }
  }

  /** In one document every answer is put in exactly once, unless questions share an id that was placed. */
  lemma AllKeptIffNotShared(host: Host, source: seq<string>, questions: seq<Question>, id: string)
    ensures Occurrences(host, source, questions, id) == AnsweredCount(host, questions, id)
       <==> !(id in PlacedIn(host, source, questions) && AnsweredCount(host, questions, id) > 1)
  {
    hide Occurrences, PlacedIn;
    OccurrencesAre(host, source, questions, id);
  }

  /** Some line can name the question: its label or its text is not normalized to nothing. */
  predicate HasName(host: Host, question: Question) {
    host.normalizeText(question.labelText) != "" || host.normalizeText(question.text) != ""
  }

  lemma HasNameIff(host: Host, question: Question)
    ensures HasName(host, question) <==> exists line :: LineMatches(host, line, question)
    ensures HasName(host, question) ==> LineMatches(host, NamingLine(host, question), question)
  {
    var line := NamingLine(host, question);
    var whole := host.normalizeText(line);
    assert whole <= whole[0..];
    assert ContainsText(whole, whole);
    assert HasName(host, question) ==> LineMatches(host, line, question);
    assert forall other :: LineMatches(host, other, question) ==> HasName(host, question);
  }

  /** The question's own label or text, as a line. */
  function NamingLine(host: Host, question: Question): string {
    if host.normalizeText(question.labelText) != "" then question.labelText else question.text
  }

  lemma {:induction false} PlacedHasName(host: Host, lines: seq<string>, questions: seq<Question>,
                                         placed: set<string>, id: string)
    requires id in PlacedIds(Body(host, lines, questions, placed))
    ensures exists q :: q in questions && q.id == id && IsAnswered(host, q) && HasName(host, q)
  {
    hide Body, IsAnswered, LineMatches, HasName;
    if lines == [] {
      BodyOfNothing(host, questions, placed);
    } else {
      PlacedIdsStep(host, lines, questions, placed);
      match FirstFit(host, lines[0], questions, placed)
      case None =>
        PlacedHasName(host, lines[1..], questions, placed, id);
      case Some(q) =>
        HasNameIff(host, q);
        if id != q.id { PlacedHasName(host, lines[1..], questions, placed + {q.id}, id); }
    }
  }

  function Repeated(line: string, n: nat): (lines: seq<string>)
    ensures |lines| == n && forall k | 0 <= k < n :: lines[k] == line
  {
    seq(n, _ => line)
  }

  function IdSetOf(questions: seq<Question>): set<string> {
    set q | q in questions :: q.id
  }

  /** A line repeated often enough places every answered question it names. */
  lemma {:induction false} RepeatedLinePlaces(host: Host, line: string, n: nat, questions: seq<Question>,
                                              placed: set<string>, question: Question)
    requires question in questions && Fits(host, line, question, placed)
    requires n >= |IdSetOf(questions) - placed|
    ensures question.id in PlacedIds(Body(host, Repeated(line, n), questions, placed))
  {
    hide Body, FirstFit, LineMatches, IsAnswered, PlacedIds;
    var lines, left := Repeated(line, n), IdSetOf(questions) - placed;
    assert question.id in left;
    PlacedIdsStep(host, lines, questions, placed);
    var q := FirstFit(host, lines[0], questions, placed).value;
    assert lines[1..] == Repeated(line, n - 1);
    if q.id != question.id {
      assert q.id in left;
      assert IdSetOf(questions) - (placed + {q.id}) == left - {q.id};
      RepeatedLinePlaces(host, line, n - 1, questions, placed + {q.id}, question);
    }
  }

  /** Whatever the source, all answers of an id are kept, exactly if at most one answered question has it, or
      no line can name those that do. */
  lemma AlwaysKeptIff(host: Host, questions: seq<Question>, id: string)
    ensures (forall source :: Occurrences(host, source, questions, id) == AnsweredCount(host, questions, id))
       <==> AnsweredCount(host, questions, id) <= 1
            || forall q | q in questions && q.id == id && IsAnswered(host, q) :: !HasName(host, q)
  {
    hide Occurrences, IsAnswered, HasName, AnsweredCount, Body;
    forall source
      ensures Occurrences(host, source, questions, id) == AnsweredCount(host, questions, id)
           || (AnsweredCount(host, questions, id) > 1
               && exists q :: q in questions && q.id == id && IsAnswered(host, q) && HasName(host, q))
    {
      OccurrencesAre(host, source, questions, id);
      if id in PlacedIn(host, source, questions) { PlacedHasName(host, source, questions, {}, id); }
    }
    if AnsweredCount(host, questions, id) > 1
       && exists q :: q in questions && q.id == id && IsAnswered(host, q) && HasName(host, q) {
      var q :| q in questions && q.id == id && IsAnswered(host, q) && HasName(host, q);
      HasNameIff(host, q);
      var source := Repeated(NamingLine(host, q), |IdSetOf(questions) - {}|);
      RepeatedLinePlaces(host, NamingLine(host, q), |IdSetOf(questions) - {}|, questions, {}, q);
      OccurrencesAre(host, source, questions, id);
    }
  }

  lemma AnsweredOnce(host: Host, source: seq<string>, questions: seq<Question>, k: nat)
    requires DistinctIds(questions) && k < |questions|
    ensures Occurrences(host, source, questions, questions[k].id) == if IsAnswered(host, questions[k]) then 1 else 0
  {
    hide Occurrences, PlacedIn, IsAnswered;
    OccurrencesAre(host, source, questions, questions[k].id);
    DistinctAnsweredCount(host, questions, k);
  }

  /** Answers stand right after a source line that names their question. */
  lemma {:induction false} PlacedAfterMatch(host: Host, lines: seq<string>, questions: seq<Question>,
                                            placed: set<string>, k: nat)
    requires k < |Body(host, lines, questions, placed)|
    requires Body(host, lines, questions, placed)[k].Placed?
    ensures
      var pieces := Body(host, lines, questions, placed);
      k > 0 && pieces[k - 1].Source? && LineMatches(host, pieces[k - 1].line, pieces[k].question)
  {
    hide IsAnswered, LineMatches;
    match FirstFit(host, lines[0], questions, placed)
    case None =>
      PlacedAfterMatch(host, lines[1..], questions, placed, k - 1);
    case Some(q) =>
      if k > 1 { PlacedAfterMatch(host, lines[1..], questions, placed + {q.id}, k - 2); }
  }

  /** A question stays unplaced only if every line that names it took another answer. */
  lemma {:induction false} UnplacedHadNoLine(host: Host, lines: seq<string>, questions: seq<Question>,
                                             placed: set<string>, question: Question, k: nat)
    requires question in questions && IsAnswered(host, question) && question.id !in placed
    requires question.id !in PlacedIds(Body(host, lines, questions, placed))
    requires k < |Body(host, lines, questions, placed)|
    requires
      var piece := Body(host, lines, questions, placed)[k];
      piece.Source? && LineMatches(host, piece.line, question)
    ensures
      var pieces := Body(host, lines, questions, placed);
      k + 1 < |pieces| && pieces[k + 1].Placed?
  {
    hide IsAnswered, LineMatches;
    PlacedIdsStep(host, lines, questions, placed);
    match FirstFit(host, lines[0], questions, placed)
    case None =>
      if k > 0 { UnplacedHadNoLine(host, lines[1..], questions, placed, question, k - 1); }
    case Some(q) =>
      if k > 1 { UnplacedHadNoLine(host, lines[1..], questions, placed + {q.id}, question, k - 2); }
  }

  // ------------------------------------------------------------------
  // The source survives in the text
  // ------------------------------------------------------------------

  predicate Subsequence(part: seq<string>, whole: seq<string>)
    decreases |whole|
  {
    if part == [] then true
    else if whole == [] then false
    else (part[0] == whole[0] && Subsequence(part[1..], whole[1..])) || Subsequence(part, whole[1..])
  }

  lemma {:induction false} SubsequenceSkips(part: seq<string>, skipped: seq<string>, whole: seq<string>)
    requires Subsequence(part, whole)
    ensures Subsequence(part, skipped + whole)
  {
    if skipped == [] {
      assert skipped + whole == whole;
    } else {
      SubsequenceSkips(part, skipped[1..], whole);
      assert (skipped + whole)[1..] == skipped[1..] + whole;
    }
  }

  lemma SubsequenceTakes(first: string, part: seq<string>, whole: seq<string>)
    requires Subsequence(part, whole)
    ensures Subsequence([first] + part, [first] + whole)
  {
    assert ([first] + part)[1..] == part && ([first] + whole)[1..] == whole;
  }

  lemma {:induction false} SourceStays(host: Host, lines: seq<string>, questions: seq<Question>,
                                       placed: set<string>, tail: seq<string>)
    ensures Subsequence(lines, TextOfAll(host, Body(host, lines, questions, placed)) + tail)
  {
    hide Body, TextOfAll, Subsequence, FirstFit, PlacedText, Fits, IsAnswered, LineMatches;
    if lines == [] {
      NothingIsSubsequence(TextOfAll(host, Body(host, lines, questions, placed)) + tail);
    } else {
      BodyStep(host, lines, questions, placed);
      match FirstFit(host, lines[0], questions, placed)
      case None =>
        var text := TextOfAll(host, Body(host, lines[1..], questions, placed));
        SourceStays(host, lines[1..], questions, placed, tail);
        SubsequenceTakes(lines[0], lines[1..], text + tail);
        assert lines == [lines[0]] + lines[1..];
        assert [lines[0]] + (text + tail) == [lines[0]] + text + tail;
      case Some(q) =>
        var text := TextOfAll(host, Body(host, lines[1..], questions, placed + {q.id}));
        SourceStays(host, lines[1..], questions, placed + {q.id}, tail);
        SubsequenceSkips(lines[1..], PlacedText(host, q), text + tail);
        SubsequenceTakes(lines[0], lines[1..], PlacedText(host, q) + (text + tail));
        assert lines == [lines[0]] + lines[1..];
        assert [lines[0]] + (PlacedText(host, q) + (text + tail)) == [lines[0]] + (PlacedText(host, q) + text) + tail;
    }
  }

  lemma NothingIsSubsequence(whole: seq<string>)
    ensures Subsequence([], whole)
  {
  }

  lemma SourceIsSubsequence(host: Host, source: seq<string>, questions: seq<Question>)
    ensures Subsequence(source, DocumentLines(host, source, questions))
  {
    hide Body, TextOfAll, TextOfMissed, Subsequence, Missed;
    var body := Body(host, source, questions, {});
    var missed := Missed(host, questions, IdSet(PlacedIds(body)));
    SourceStays(host, source, questions, {}, if missed == [] then [] else MISSED_HEADING + TextOfMissed(host, missed));
  }

  /** With two answered questions under one id, a line naming the first loses the second. */
  lemma SharedIdLosesAnswer(host: Host, line: string, first: Question, second: Question)
    requires IsAnswered(host, first) && IsAnswered(host, second) && first.id == second.id
    requires LineMatches(host, line, first)
    ensures Body(host, [line], [first, second], {}) == [Source(line), Placed(first)]
    ensures MissedIn(host, [line], [first, second]) == []
  {
    hide LineMatches, IsAnswered;
    var none: seq<Piece> := [];
    BodyOfNothing(host, [first, second], {} + {first.id});
    assert [line][1..] == [] && FirstFit(host, line, [first, second], {}) == Some(first);
    assert Body(host, [line][1..], [first, second], {} + {first.id}) == none;
    var body := Body(host, [line], [first, second], {});
    assert body == [Source(line), Placed(first)];
    assert body[1..] == [Placed(first)] && body[1..][1..] == none;
    PlacedIdsStep(host, [line], [first, second], {});
    assert PlacedIds(body) == [first.id];
    var placed := IdSet(PlacedIds(body));
    assert first.id in placed && [first, second][1..] == [second];
    assert Missed(host, [second], placed) == [];
  }
}
