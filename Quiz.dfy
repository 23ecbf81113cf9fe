/**
 * The quiz part of main.py, with the quiz API call and the base64/UTF-8
 * decoding taken out. `process_quiz` indexes the response's questions and
 * choices by id, walks `quiz.question_ids` in order, looks each question and
 * each of its choices up (skipping ids that have no record), and decodes each
 * choice's `credited` field to decide whether it is a correct answer.
 * `generate_quiz_html` then emits one card per processed question.
 */
module Quiz {
  import opened Wrappers
  import opened Strings
  import opened Collections

  // ---------------------------------------------------------------------------
  // The quiz response, as parsed JSON

  /** One entry of `questions`; every key but `id` may be absent, and may `id` too. */
  datatype RawQuestion = RawQuestion(
    id: Option<int>,
    prompt: Option<string>,
    explanation: Option<string>,
    choiceIds: Option<seq<int>>)

  /** One entry of `choices`. */
  datatype RawChoice = RawChoice(id: Option<int>, text: Option<string>, credited: Option<string>)

  /** The `quiz` object; it may lack `question_ids`. */
  datatype QuizInfo = QuizInfo(questionIds: Option<seq<int>>)

  /**
   * The response object. `otherKeys` records whether it has keys besides
   * the three the downloader reads, which matters only for its truthiness.
   */
  datatype QuizPayload = QuizPayload(
    questions: Option<seq<RawQuestion>>,
    choices: Option<seq<RawChoice>>,
    quiz: Option<QuizInfo>,
    otherKeys: bool)

  /** `not data`: the fetch failed (`None`) or the object is empty. */
  function NoData(data: Option<QuizPayload>): bool {
    data.None? ||
    (data.value.questions.None? && data.value.choices.None? && data.value.quiz.None? && !data.value.otherKeys)
  }

  /** The default of each `.get(key, default)`. */
  const DefaultExplanation := "No explanation provided."

  function QuestionKey(q: RawQuestion): int { q.id.GetOr(0) }
  function ChoiceKey(c: RawChoice): int { c.id.GetOr(0) }

  /** Building the two id maps raises `KeyError` unless every record has an `id`. */
  predicate Keyed(data: QuizPayload) {
    && (forall i :: 0 <= i < |data.questions.GetOr([])| ==> data.questions.GetOr([])[i].id.Some?)
    && (forall i :: 0 <= i < |data.choices.GetOr([])| ==> data.choices.GetOr([])[i].id.Some?)
  }

  function QuestionIds(data: QuizPayload): seq<int> {
    match data.quiz
    case None => []
    case Some(info) => info.questionIds.GetOr([])
  }

  // ---------------------------------------------------------------------------
  // The correctness flag

  /**
   * Lines 176-182: decode `credited` (default `""`) with `decode`, which stands
   * for `base64.b64decode(...).decode('utf-8')` and gives `None` where that
   * raises; the choice is correct when the lower-cased text contains "true".
   */
  function IsCorrect(credited: Option<string>, decode: string -> Option<string>): (r: bool)
    ensures decode(credited.GetOr("")).None? ==> !r
  {
    match decode(credited.GetOr(""))
    case None => false
    case Some(text) => Contains(Lower(text), "true")
  }

  /** `t` occurs in `s` at `i` when letter case is ignored. */
  predicate OccursAtIgnoringCase(s: string, t: string, i: nat) {
    i + |t| <= |s| && forall k :: 0 <= k < |t| ==> ToLower(s[i + k]) == ToLower(t[k])
  }

  /** A choice is correct exactly when its decoded text has "true" in some letter case. */
  lemma IsCorrectIgnoresCase(credited: Option<string>, decode: string -> Option<string>)
    ensures IsCorrect(credited, decode) <==>
      (decode(credited.GetOr("")).Some? &&
       exists i: nat :: OccursAtIgnoringCase(decode(credited.GetOr("")).value, "true", i))
  {
    match decode(credited.GetOr(""))
    case None =>
    case Some(text) =>
      var lower := Lower(text);
      forall i: nat | OccursAt(lower, "true", i)
        ensures OccursAtIgnoringCase(text, "true", i)
      {
        forall k | 0 <= k < 4 ensures ToLower(text[i + k]) == ToLower("true"[k]) {
          assert lower[i..i + 4][k] == lower[i + k];
        }
      }
      forall i: nat | OccursAtIgnoringCase(text, "true", i)
        ensures OccursAt(lower, "true", i)
      {
        assert lower[i..i + 4] == "true";
      }
      if Contains(lower, "true") {
        var i: nat :| i <= |lower| - 4 && OccursAt(lower, "true", i);
        assert OccursAtIgnoringCase(text, "true", i);
      }
      if exists i: nat :: OccursAtIgnoringCase(text, "true", i) {
        var i: nat :| OccursAtIgnoringCase(text, "true", i);
        assert OccursAt(lower, "true", i);
      }
  }

  // ---------------------------------------------------------------------------
  // The processed questions

  datatype Choice = Choice(text: string, isCorrect: bool)
  datatype Question = Question(prompt: string, explanation: string, choices: seq<Choice>)

  function MakeChoice(c: RawChoice, decode: string -> Option<string>): Choice {
    Choice(c.text.GetOr(""), IsCorrect(c.credited, decode))
  }

  /** The choices of one question: the ids of `ids` with a record in `cm`, in order. */
  function ChoicesOf(ids: seq<int>, cm: map<int, RawChoice>, decode: string -> Option<string>): (r: seq<Choice>)
    ensures |r| <= |ids|
    ensures (forall k :: 0 <= k < |ids| ==> ids[k] in cm) ==> |r| == |ids|
  {
    if ids == [] then []
    else
      var init := ChoicesOf(ids[..|ids| - 1], cm, decode);
      var id := ids[|ids| - 1];
      if id in cm then init + [MakeChoice(cm[id], decode)] else init
  }

  function MakeQuestion(q: RawQuestion, cm: map<int, RawChoice>, decode: string -> Option<string>): Question {
    Question(q.prompt.GetOr(""), q.explanation.GetOr(DefaultExplanation),
             ChoicesOf(q.choiceIds.GetOr([]), cm, decode))
  }

  /** The processed questions: the ids of `ids` with a record in `qm`, in order. */
  function QuestionsOf(ids: seq<int>, qm: map<int, RawQuestion>, cm: map<int, RawChoice>,
                       decode: string -> Option<string>): (r: seq<Question>)
    ensures |r| <= |ids|
    ensures (forall k :: 0 <= k < |ids| ==> ids[k] in qm) ==> |r| == |ids|
  {
    if ids == [] then []
    else
      var init := QuestionsOf(ids[..|ids| - 1], qm, cm, decode);
      var id := ids[|ids| - 1];
      if id in qm then init + [MakeQuestion(qm[id], cm, decode)] else init
  }

  /** Choice `k` is the record of the `k`-th id that has one: order kept, missing ids skipped. */
  lemma {:induction false} ChoicesFollowIds(ids: seq<int>, cm: map<int, RawChoice>, decode: string -> Option<string>)
    ensures |ChoicesOf(ids, cm, decode)| == |Present(ids, cm)|
    ensures forall k :: 0 <= k < |Present(ids, cm)| ==>
      ChoicesOf(ids, cm, decode)[k] == MakeChoice(cm[Present(ids, cm)[k]], decode)
  {
    if ids != [] {
      ChoicesFollowIds(ids[..|ids| - 1], cm, decode);
    }
  }

  /** Question `k` is the record of the `k`-th id that has one: order kept, missing ids skipped. */
  lemma {:induction false} QuestionsFollowIds(ids: seq<int>, qm: map<int, RawQuestion>, cm: map<int, RawChoice>,
                                               decode: string -> Option<string>)
    ensures |QuestionsOf(ids, qm, cm, decode)| == |Present(ids, qm)|
    ensures forall k :: 0 <= k < |Present(ids, qm)| ==>
      QuestionsOf(ids, qm, cm, decode)[k] == MakeQuestion(qm[Present(ids, qm)[k]], cm, decode)
  {
    if ids != [] {
      QuestionsFollowIds(ids[..|ids| - 1], qm, cm, decode);
    }
  }

  /** What `process_quiz` ends with: nothing to do, an exception, or the questions to render. */
  datatype QuizResult = NothingFetched | Failed | Assembled(questions: seq<Question>)

  /** The result as a function of the response. */
  function QuizOf(data: Option<QuizPayload>, decode: string -> Option<string>): (r: QuizResult)
    ensures r.NothingFetched? <==> NoData(data)
    ensures r.Failed? <==> !NoData(data) && !Keyed(data.value)
    ensures r.Assembled? ==> |r.questions| <= |QuestionIds(data.value)|
  {
    if NoData(data) then NothingFetched
    else if !Keyed(data.value) then Failed
    else
      var qm := IndexBy(data.value.questions.GetOr([]), QuestionKey);
      var cm := IndexBy(data.value.choices.GetOr([]), ChoiceKey);
      Assembled(QuestionsOf(QuestionIds(data.value), qm, cm, decode))
  }

  /** Lines 168-184: the choices of one question, by the inner loop. */
  method CollectChoices(choiceIds: seq<int>, cm: map<int, RawChoice>, decode: string -> Option<string>)
    returns (choices: seq<Choice>)
    ensures choices == ChoicesOf(choiceIds, cm, decode)
  {
    choices := [];
    for j := 0 to |choiceIds|
      invariant choices == ChoicesOf(choiceIds[..j], cm, decode)
    {
      assert choiceIds[..j + 1][..j] == choiceIds[..j];
      var cId := choiceIds[j];
      if cId !in cm {
        continue;
      }
      var c := cm[cId];
      choices := choices + [Choice(c.text.GetOr(""), IsCorrect(c.credited, decode))];
    }
    assert choiceIds[..|choiceIds|] == choiceIds;
  }

  /** Lines 156-186 without the rendering and the save: `process_quiz`'s loops. */
  method ProcessQuiz(data: Option<QuizPayload>, decode: string -> Option<string>) returns (r: QuizResult)
    ensures r == QuizOf(data, decode)
    ensures r.NothingFetched? <==> NoData(data)
    ensures r.Failed? <==> !NoData(data) && !Keyed(data.value)
  {
    if NoData(data) {
      return NothingFetched;
    }
    var payload := data.value;
    if !Keyed(payload) {
      return Failed;
    }
    var qm := IndexBy(payload.questions.GetOr([]), QuestionKey);
    var cm := IndexBy(payload.choices.GetOr([]), ChoiceKey);
    var questionIds := QuestionIds(payload);
    var processed: seq<Question> := [];
    for i := 0 to |questionIds|
      invariant processed == QuestionsOf(questionIds[..i], qm, cm, decode)
    {
      assert questionIds[..i + 1][..i] == questionIds[..i];
      var qId := questionIds[i];
      if qId !in qm {
        continue;
      }
      var q := qm[qId];
      var choices := CollectChoices(q.choiceIds.GetOr([]), cm, decode);
      processed := processed + [Question(q.prompt.GetOr(""), q.explanation.GetOr(DefaultExplanation), choices)];
    }
    assert questionIds[..|questionIds|] == questionIds;
    return Assembled(processed);
  }

  // ---------------------------------------------------------------------------
  // The rendered page

  /** One `<li class="option">`: the flag passed to `checkAnswer` and the text. */
  datatype AnswerOption = AnswerOption(correctFlag: string, text: string)

  /** One `question-card`: its `id` attribute, its heading `n. prompt`, its options and explanation. */
  datatype Card = Card(anchor: string, heading: string, options: seq<AnswerOption>, explanation: string)

  /** The page: its `<title>`/`<h1>` text and its cards, in order. */
  datatype QuizPage = QuizPage(title: string, cards: seq<Card>)

  function FlagText(b: bool): string { if b then "true" else "false" }

  function OptionFor(c: Choice): AnswerOption { AnswerOption(FlagText(c.isCorrect), c.text) }

  /** The card of question number `n`. */
  function CardFor(n: nat, q: Question): Card {
    Card("q" + NatToDecimal(n), NatToDecimal(n) + ". " + q.prompt,
         seq(|q.choices|, k requires 0 <= k < |q.choices| => OptionFor(q.choices[k])),
         q.explanation)
  }

  /** The page for `questions`, card `k` numbered `k + 1`. */
  function QuizPageOf(lessonName: string, questions: seq<Question>): QuizPage {
    QuizPage(lessonName, seq(|questions|, k requires 0 <= k < |questions| => CardFor(k + 1, questions[k])))
  }

  /** Lines 71-144 without the CSS and script text: one card per question, numbered from 1. */
  method GenerateQuizHtml(lessonName: string, questions: seq<Question>) returns (page: QuizPage)
    ensures page.title == lessonName
    ensures |page.cards| == |questions|
    ensures forall k :: 0 <= k < |questions| ==> page.cards[k] == CardFor(k + 1, questions[k])
    ensures page == QuizPageOf(lessonName, questions)
  {
    var cards: seq<Card> := [];
    for idx := 1 to |questions| + 1
      invariant |cards| == idx - 1
      invariant forall k :: 0 <= k < idx - 1 ==> cards[k] == CardFor(k + 1, questions[k])
    {
      var q := questions[idx - 1];
      var options: seq<AnswerOption> := [];
      for j := 0 to |q.choices|
        invariant |options| == j
        invariant forall k :: 0 <= k < j ==> options[k] == OptionFor(q.choices[k])
      {
        options := options + [AnswerOption(FlagText(q.choices[j].isCorrect), q.choices[j].text)];
      }
      cards := cards + [Card("q" + NatToDecimal(idx), NatToDecimal(idx) + ". " + q.prompt, options, q.explanation)];
    }
    page := QuizPage(lessonName, cards);
  }

  /** `str(n)` is injective, so distinct question numbers give distinct anchors. */
  lemma DistinctAnchors(i: nat, j: nat, p: Question, q: Question)
    requires i != j
    ensures CardFor(i, p).anchor != CardFor(j, q).anchor
  {
    assert CardFor(i, p).anchor[1..] == NatToDecimal(i);
    assert CardFor(j, q).anchor[1..] == NatToDecimal(j);
  }

  /** Each option is marked correct exactly when its choice is. */
  lemma OptionFlags(n: nat, q: Question, k: nat)
    requires k < |q.choices|
    ensures CardFor(n, q).options[k].correctFlag == "true" <==> q.choices[k].isCorrect
    ensures CardFor(n, q).options[k].text == q.choices[k].text
  {
  }
}
