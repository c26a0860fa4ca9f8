/**
 * Quiz generation from a backend reply (LLMService.generate_quiz_questions and
 * LLMService._create_fallback_questions): greedy object extraction, trailing-comma
 * repair, decoding, per-question fix-up, or the deterministic fallback.
 */
module Quiz {
  import opened Wrappers
  import opened Text
  import opened Json
  import opened Repair

  // ---------------------------------------------------------------------
  // Per-question fix-up (the loop over `questions`)
  // ---------------------------------------------------------------------

  /**
   * `[strip_option_prefix(opt) for opt in q["options"]]`. Iterating a JSON string
   * yields its characters; a list must hold only strings (re.sub raises TypeError
   * on anything else); any other value is not iterable. None means the
   * comprehension raises.
   */
  function StrippedOptions(v: Value): (r: Option<seq<string>>)
    ensures r.Some? <==> v.Str? || (v.Array? && forall k :: 0 <= k < |v.items| ==> v.items[k].Str?)
    ensures r.Some? && v.Array? ==>
      (|r.value| == |v.items| && forall k :: 0 <= k < |v.items| ==> r.value[k] == StripOptionPrefix(v.items[k].s))
    ensures r.Some? && v.Str? ==>
      (|r.value| == |v.s| && forall k :: 0 <= k < |v.s| ==> r.value[k] == StripOptionPrefix([v.s[k]]))
  {
    match v
    case Array(items) =>
      if forall k :: 0 <= k < |items| ==> items[k].Str? then
        Some(seq(|items|, k requires 0 <= k < |items| => StripOptionPrefix(items[k].s)))
      else None
    case Str(s) => Some(seq(|s|, k requires 0 <= k < |s| => StripOptionPrefix([s[k]])))
    case _ => None
  }

  /**
   * The position named by `answer.strip().upper()` in ["A", "B", "C", "D"]. Only a
   * single letter a-d or A-D upper-cases to one of those strings.
   */
  function ChoiceIndex(answer: string): (r: Option<nat>)
    ensures r.Some? <==>
      (|Strip(answer)| == 1 && ('A' <= Strip(answer)[0] <= 'D' || 'a' <= Strip(answer)[0] <= 'd'))
    ensures r.Some? ==> r.value < 4
    ensures r.Some? && 'A' <= Strip(answer)[0] <= 'D' ==> "ABCD"[r.value] == Strip(answer)[0]
    ensures r.Some? && 'a' <= Strip(answer)[0] <= 'd' ==> "abcd"[r.value] == Strip(answer)[0]
  {
    var t := Strip(answer);
    if |t| == 1 && 'A' <= t[0] <= 'D' then Some(t[0] as int - 'A' as int)
    else if |t| == 1 && 'a' <= t[0] <= 'd' then Some(t[0] as int - 'a' as int)
    else None
  }

  /**
   * The loop body: every question must be a dict (anything else raises, at the
   * latest in the logging loop that calls `q.get`); its options are stripped; a
   * `correct_answer` needs `options` (KeyError otherwise) and must be a string
   * (`.strip()` raises otherwise); a bare letter that is not itself an option is
   * mapped to the option at that index, which also sets `correct`.
   * None means the question raises an exception that leaves the method.
   */
  function FixQuestion(q: Value): (r: Option<Value>)
    ensures r.Some? <==> (
      && q.Object?
      && ("options" in q.fields ==> StrippedOptions(q.fields["options"]).Some?)
      && ("correct_answer" in q.fields ==> "options" in q.fields && q.fields["correct_answer"].Str?))
    ensures r.Some? ==> (
      && r.value.Object?
      && q.fields.Keys <= r.value.fields.Keys <= q.fields.Keys + {"correct"}
      && forall k :: k in q.fields && k != "options" && k != "correct_answer" && k != "correct" ==>
           r.value.fields[k] == q.fields[k])
    ensures r.Some? && "options" in q.fields ==>
      r.value.fields["options"] == StrArray(StrippedOptions(q.fields["options"]).value)
    ensures r.Some? && "correct_answer" !in q.fields ==>
      r.value.fields.Keys == q.fields.Keys && ("correct" in q.fields ==> r.value.fields["correct"] == q.fields["correct"])
  {
    if !q.Object? then None
    else
      var f := q.fields;
      if "options" in f && StrippedOptions(f["options"]).None? then None
      else
        var g := if "options" in f then f["options" := StrArray(StrippedOptions(f["options"]).value)] else f;
        if "correct_answer" !in f then Some(Object(g))
        else if "options" !in f || !f["correct_answer"].Str? then None
        else
          Some(Object(FixAnswer(g, StrippedOptions(f["options"]).value, f["correct_answer"].s)))
  }

  /**
   * The answer repair on fields `g` whose stripped options are `opts`: an answer that
   * is not an option but a usable letter becomes the option it names.
   */
  function FixAnswer(g: map<string, Value>, opts: seq<string>, answer: string): (r: map<string, Value>)
    ensures g.Keys <= r.Keys <= g.Keys + {"correct_answer", "correct"}
    ensures forall k :: k in g && k != "correct_answer" && k != "correct" ==> r[k] == g[k]
  {
    if answer in opts then g
    else
      match ChoiceIndex(answer)
      case Some(idx) =>
        if idx < |opts| then g["correct_answer" := Str(opts[idx])]["correct" := Number(idx)] else g
      case None => g
  }

  /** `options[correct] == correct_answer`, the consistency a multiple-choice question needs. */
  predicate AnswerConsistent(q: Value) {
    && q.Object?
    && "options" in q.fields && q.fields["options"].Array?
    && "correct" in q.fields && q.fields["correct"].Number?
    && "correct_answer" in q.fields
    && 0 <= q.fields["correct"].n < |q.fields["options"].items|
    && q.fields["correct_answer"] == q.fields["options"].items[q.fields["correct"].n]
  }

  /** Without a `correct_answer` only the options are rewritten: an existing `correct` stays as it was. */
  lemma FixWithoutAnswer(q: Value)
    requires FixQuestion(q).Some? && "correct_answer" !in q.fields
    ensures FixQuestion(q).value.fields ==
      (if "options" in q.fields
       then q.fields["options" := StrArray(StrippedOptions(q.fields["options"]).value)]
       else q.fields)
  {
    var r := FixQuestion(q).value.fields;
    var g := if "options" in q.fields
             then q.fields["options" := StrArray(StrippedOptions(q.fields["options"]).value)]
             else q.fields;
    assert r.Keys == g.Keys;
    forall k | k in r
      ensures r[k] == g[k]
    {
    }
  }

  /** An answer that already names one of the stripped options is left as it is, and so is `correct`. */
  lemma FixKeepsMatchingAnswer(q: Value)
    requires FixQuestion(q).Some? && "correct_answer" in q.fields
    requires q.fields["correct_answer"].s in StrippedOptions(q.fields["options"]).value
    ensures FixQuestion(q).value.fields["correct_answer"] == q.fields["correct_answer"]
    ensures "correct" in FixQuestion(q).value.fields <==> "correct" in q.fields
    ensures "correct" in q.fields ==> FixQuestion(q).value.fields["correct"] == q.fields["correct"]
  {
  }

  /**
   * A bare letter A-D (after trimming, either case) that is not an option and whose
   * index is inside the option list is replaced by that option's text, and
   * `correct` becomes the index: the question is then consistent.
   */
  lemma FixMapsLetter(q: Value, idx: nat)
    requires FixQuestion(q).Some? && "correct_answer" in q.fields
    requires q.fields["correct_answer"].s !in StrippedOptions(q.fields["options"]).value
    requires ChoiceIndex(q.fields["correct_answer"].s) == Some(idx)
    requires idx < |StrippedOptions(q.fields["options"]).value|
    ensures var fixed := FixQuestion(q).value;
      && fixed.fields["correct_answer"] == Str(StrippedOptions(q.fields["options"]).value[idx])
      && fixed.fields["correct"] == Number(idx)
      && AnswerConsistent(fixed)
  {
    var f := q.fields;
    var opts := StrippedOptions(f["options"]).value;
    var g := f["options" := StrArray(opts)];
    var h := g["correct_answer" := Str(opts[idx])]["correct" := Number(idx)];
    assert FixAnswer(g, opts, f["correct_answer"].s) == h;
    assert FixQuestion(q).value == Object(h);
    assert h["options"] == StrArray(opts);
  }

  /** Any other answer (not an option, not a usable letter) is left untouched, and so is `correct`. */
  lemma FixLeavesOtherAnswer(q: Value)
    requires FixQuestion(q).Some? && "correct_answer" in q.fields
    requires q.fields["correct_answer"].s !in StrippedOptions(q.fields["options"]).value
    requires var c := ChoiceIndex(q.fields["correct_answer"].s);
      c.None? || c.value >= |StrippedOptions(q.fields["options"]).value|
    ensures FixQuestion(q).value.fields["correct_answer"] == q.fields["correct_answer"]
    ensures "correct" in FixQuestion(q).value.fields <==> "correct" in q.fields
    ensures "correct" in q.fields ==> FixQuestion(q).value.fields["correct"] == q.fields["correct"]
  {
  }

  /** Options that are already plain answer texts come through the stripping unchanged. */
  lemma StrippedPlainOptions(opts: seq<string>)
    requires forall k :: 0 <= k < |opts| ==> Stripped(opts[k]) && OptionPrefixLength(opts[k]) == 0
    ensures StrippedOptions(StrArray(opts)) == Some(opts)
  {
    forall k | 0 <= k < |opts|
      ensures StripOptionPrefix(opts[k]) == opts[k]
    {
      StripOptionPrefixKeepsPlain(opts[k]);
    }
    var v := StrArray(opts);
    assert forall k :: 0 <= k < |v.items| ==> v.items[k].Str? && v.items[k].s == opts[k];
    var r := StrippedOptions(v).value;
    assert |r| == |opts| && forall k :: 0 <= k < |opts| ==> r[k] == opts[k];
    assert r == opts;
  }

  /** The four capitals of the example are plain answer texts. */
  lemma CapitalsArePlain(opts: seq<string>)
    requires opts == ["Paris", "London", "Berlin", "Madrid"]
    ensures forall k :: 0 <= k < |opts| ==> Stripped(opts[k]) && OptionPrefixLength(opts[k]) == 0
  {
    assert Stripped(opts[0]) && OptionPrefixLength(opts[0]) == 0;
    assert Stripped(opts[1]) && OptionPrefixLength(opts[1]) == 0;
    assert Stripped(opts[2]) && OptionPrefixLength(opts[2]) == 0;
    assert Stripped(opts[3]) && OptionPrefixLength(opts[3]) == 0;
  }

  /** The bare answer "A" names the first option. */
  lemma LetterA(a: string)
    requires a == "A"
    ensures ChoiceIndex(a) == Some(0)
  {
    StripPadded([], a, []);
    assert [] + a + [] == a;
  }

  /** Example: options ["Paris", "London", "Berlin", "Madrid"] with answer "A" give correct 0, "Paris". */
  lemma FixExampleCapital(q: Value, opts: seq<string>, a: string)
    requires opts == ["Paris", "London", "Berlin", "Madrid"] && a == "A"
    requires q == Object(map["options" := StrArray(opts), "correct_answer" := Str(a)])
    ensures FixQuestion(q).Some?
    ensures FixQuestion(q).value.fields["correct_answer"] == Str("Paris")
    ensures FixQuestion(q).value.fields["correct"] == Number(0)
  {
    var f := q.fields;
    assert "options" in f && f["options"] == StrArray(opts);
    assert "correct_answer" in f && f["correct_answer"] == Str(a);
    CapitalsArePlain(opts);
    StrippedPlainOptions(opts);
    LetterA(a);
    assert a !in opts;
    FixMapsLetter(q, 0);
  }

  // ---------------------------------------------------------------------
  // The normalisation loop
  // ---------------------------------------------------------------------

  datatype QuizOutcome =
    | Questions(items: seq<Value>)
    /** An exception escaped: only json.JSONDecodeError is caught. */
    | Raised

  /** `out` is what fixing every question of `qs` in turn produces. */
  ghost predicate NormalizedFrom(out: QuizOutcome, qs: seq<Value>) {
    && (out.Questions? <==> forall i :: 0 <= i < |qs| ==> FixQuestion(qs[i]).Some?)
    && (out.Questions? ==>
          (|out.items| == |qs| && forall i :: 0 <= i < |qs| ==> out.items[i] == FixQuestion(qs[i]).value))
  }

  /** `for q in questions: ...` mutating each question dict in place, left to right. */
  method NormalizeQuestions(qs: seq<Value>) returns (out: QuizOutcome)
    ensures NormalizedFrom(out, qs)
  {
    var fixed := qs;
    var i := 0;
    while i < |fixed|
      invariant i <= |fixed| && FixedUpTo(qs, fixed, i)
    {
      var q := FixQuestion(fixed[i]);
      if q.None? {
        assert FixQuestion(qs[i]).None?;
        return Raised;
      }
      FixedStep(qs, fixed, i);
      fixed := fixed[i := q.value];
      i := i + 1;
    }
    out := Questions(fixed);
  }

  /** The loop state of `NormalizeQuestions`: the first `i` questions are fixed, the rest untouched. */
  ghost predicate FixedUpTo(qs: seq<Value>, fixed: seq<Value>, i: nat) {
    && i <= |fixed| == |qs|
    && (forall k :: 0 <= k < i ==> FixQuestion(qs[k]).Some? && fixed[k] == FixQuestion(qs[k]).value)
    && (forall k :: i <= k < |fixed| ==> fixed[k] == qs[k])
  }

  lemma FixedStep(qs: seq<Value>, fixed: seq<Value>, i: nat)
    requires i < |fixed| && FixedUpTo(qs, fixed, i) && FixQuestion(fixed[i]).Some?
    ensures FixedUpTo(qs, fixed[i := FixQuestion(fixed[i]).value], i + 1)
  {
  }

  /** The number and the order of questions survive normalisation. */
  lemma NormalizationKeepsCount(out: QuizOutcome, qs: seq<Value>, i: nat)
    requires NormalizedFrom(out, qs) && out.Questions? && i < |qs|
    ensures |out.items| == |qs|
    ensures out.items[i].Object? && qs[i].Object?
    ensures forall k :: k in qs[i].fields && k != "options" && k != "correct_answer" && k != "correct" ==>
      out.items[i].fields[k] == qs[i].fields[k]
  {
  }

  // ---------------------------------------------------------------------
  // Fallback questions
  // ---------------------------------------------------------------------

  function MultipleChoice(question: string, options: seq<string>, explanation: string): (q: Value)
    requires |options| == 4
    ensures WellFormedChoice(q) && q.fields["correct"] == Number(0)
    ensures q.fields["correct_answer"] == Str(options[0])
  {
    Object(map[
      "question" := Str(question),
      "type" := Str("multiple_choice"),
      "options" := StrArray(options),
      "correct" := Number(0),
      "correct_answer" := Str(options[0]),
      "explanation" := Str(explanation)])
  }

  /** A multiple-choice question with four string options and a consistent answer. */
  predicate WellFormedChoice(q: Value) {
    && AnswerConsistent(q)
    && "type" in q.fields && q.fields["type"] == Str("multiple_choice")
    && |q.fields["options"].items| == 4
    && (forall k :: 0 <= k < 4 ==> q.fields["options"].items[k].Str?)
  }

  const RecallQuestion: string := "What is the main topic discussed in this text?"
  const RecallExplanation: string := "This tests basic recall of the main topic from the text."
  const UnderstandingQuestion: string := "What is the primary purpose of this text?"
  const UnderstandingExplanation: string := "This tests comprehension of the text's purpose."
  const ApplyQuestion: string :=
    "Which of the following best demonstrates application of the concepts from this text?"
  const ApplyExplanation: string := "This tests application and synthesis of knowledge."
  const RecallOptions: seq<string> := ["The main topic from the text", "A related but different topic",
    "A completely unrelated topic", "None of the above"]
  const UnderstandingOptions: seq<string> := ["To inform about the topic", "To entertain the reader",
    "To persuade the reader", "To confuse the reader"]
  const ApplyOptions: seq<string> := ["A practical example using the concepts", "A summary of the concepts",
    "A criticism of the concepts", "A completely unrelated scenario"]

  /** The level-1 template: recall of the main topic. */
  function RecallTemplate(): (q: Value)
    ensures WellFormedChoice(q) && q.fields["correct"] == Number(0)
    ensures q.fields["correct_answer"] == Str(RecallOptions[0])
  {
    MultipleChoice(RecallQuestion, RecallOptions, RecallExplanation)
  }

  /** The level-2 template: the purpose of the text. */
  function UnderstandingTemplate(): (q: Value)
    ensures WellFormedChoice(q) && q.fields["correct"] == Number(0)
    ensures q.fields["correct_answer"] == Str(UnderstandingOptions[0])
  {
    MultipleChoice(UnderstandingQuestion, UnderstandingOptions, UnderstandingExplanation)
  }

  /** The template for every other level: applying the concepts. */
  function ApplyTemplate(): (q: Value)
    ensures WellFormedChoice(q) && q.fields["correct"] == Number(0)
    ensures q.fields["correct_answer"] == Str(ApplyOptions[0])
  {
    MultipleChoice(ApplyQuestion, ApplyOptions, ApplyExplanation)
  }

  /** The template question for a mastery level: 1 recall, 2 understanding, anything else apply. */
  function FallbackTemplate(masteryLevel: int): (q: Value)
    ensures WellFormedChoice(q) && q.fields["correct"] == Number(0)
  {
    if masteryLevel == 1 then RecallTemplate()
    else if masteryLevel == 2 then UnderstandingTemplate()
    else ApplyTemplate()
  }

  /** Every level other than 1 and 2, including 0 and 3, gets the application template. */
  lemma FallbackTemplateDefault(masteryLevel: int)
    requires masteryLevel != 1 && masteryLevel != 2
    ensures FallbackTemplate(masteryLevel) == FallbackTemplate(3)
  {
  }

  /** The three templates are different questions. */
  lemma FallbackTemplatesDiffer()
    ensures FallbackTemplate(1) != FallbackTemplate(2)
    ensures FallbackTemplate(2) != FallbackTemplate(3)
    ensures FallbackTemplate(1) != FallbackTemplate(3)
  {
    var a, b, c := RecallTemplate(), UnderstandingTemplate(), ApplyTemplate();
    assert FallbackTemplate(1) == a && FallbackTemplate(2) == b && FallbackTemplate(3) == c;
    assert RecallOptions[0][1] != UnderstandingOptions[0][1];
    assert UnderstandingOptions[0][0] != ApplyOptions[0][0];
    assert RecallOptions[0][0] != ApplyOptions[0][0];
  }

  /** `len(range(min(num_questions, len(chunks))))`, which is 0 for a negative count. */
  function FallbackCount(numQuestions: int, chunkCount: nat): (n: nat)
    ensures n <= chunkCount
    ensures numQuestions < 0 ==> n == 0
    ensures 0 <= numQuestions ==> n <= numQuestions && (n == chunkCount || n == numQuestions)
  {
    if numQuestions < 0 then 0 else if numQuestions < chunkCount then numQuestions else chunkCount
  }

  ghost predicate IsFallbackQuiz(qs: seq<Value>, chunkCount: nat, numQuestions: int, masteryLevel: int) {
    && |qs| == FallbackCount(numQuestions, chunkCount)
    && forall i :: 0 <= i < |qs| ==> qs[i] == FallbackTemplate(masteryLevel)
  }

  /** `for i in range(n): questions.append(q)`: `n` copies of `q`, none for a negative `n`. */
  method RepeatQuestion(q: Value, n: int) returns (qs: seq<Value>)
    ensures |qs| == (if n < 0 then 0 else n)
    ensures forall k :: 0 <= k < |qs| ==> qs[k] == q
  {
    qs := [];
    var i := 0;
    while i < n
      invariant 0 <= i && i == |qs|
      invariant n < 0 ==> i == 0
      invariant 0 <= n ==> i <= n
      invariant forall k :: 0 <= k < i ==> qs[k] == q
    {
      qs := qs + [q];
      i := i + 1;
    }
  }

  /**
   * One template question per used chunk. The chunk text itself is never used:
   * the truncated `chunk_text` is computed and discarded.
   */
  method CreateFallbackQuestions(chunks: seq<string>, numQuestions: int, masteryLevel: int)
    returns (qs: seq<Value>)
    ensures IsFallbackQuiz(qs, |chunks|, numQuestions, masteryLevel)
  {
    var n := if numQuestions < |chunks| then numQuestions else |chunks|;
    qs := RepeatQuestion(FallbackTemplate(masteryLevel), n);
  }

  /** A fallback quiz is made only of well-formed questions whose answer is option 0. */
  lemma FallbackQuizWellFormed(qs: seq<Value>, chunkCount: nat, numQuestions: int, masteryLevel: int, i: nat)
    requires IsFallbackQuiz(qs, chunkCount, numQuestions, masteryLevel) && i < |qs|
    ensures WellFormedChoice(qs[i]) && qs[i].fields["correct"] == Number(0)
    ensures qs[i].fields["correct_answer"] == qs[i].fields["options"].items[0]
  {
  }

  // ---------------------------------------------------------------------
  // The pipeline
  // ---------------------------------------------------------------------

  /** Greedy extraction, comma repair, decoding; None when either the match or the decoding fails. */
  function Decoded(response: string, parse: string -> Option<Value>): (r: Option<Value>)
    ensures ExtractObject(response).None? ==> r.None?
  {
    match ExtractObject(response)
    case None => None
    case Some(m) => parse(CleanTrailingCommas(m))
  }

  /**
   * The questions the loop iterates over, taken from `quiz_data.get("questions", [])`.
   * An empty string or an empty dict iterates nothing; a non-empty string or dict
   * yields strings, which raise; other values are not iterable.
   */
  function QuestionItems(v: Value): (r: Option<seq<Value>>)
    ensures v.Array? ==> r == Some(v.items)
    ensures r.Some? && !v.Array? ==> r.value == []
    ensures r.None? <==> !(v.Array? || v == Str([]) || v == Object(map[]))
  {
    match v
    case Array(items) => Some(items)
    case Str(s) => if s == [] then Some([]) else None
    case Object(fields) => if fields == map[] then Some([]) else None
    case _ => None
  }

  method GenerateQuizQuestions(chunks: seq<string>, masteryLevel: int, numQuestions: int,
                               response: string, parse: string -> Option<Value>)
    returns (r: QuizOutcome)
    ensures chunks == [] ==> r == Questions([])
    ensures chunks != [] && Decoded(response, parse).None? ==>
      r.Questions? && IsFallbackQuiz(r.items, |chunks|, numQuestions, masteryLevel)
    ensures chunks != [] && Decoded(response, parse).Some? && !Decoded(response, parse).value.Object? ==>
      r == Raised
    ensures chunks != [] && Decoded(response, parse).Some? && Decoded(response, parse).value.Object? ==>
      var items := QuestionItems(Get(Decoded(response, parse).value.fields, "questions", Array([])));
      (items.None? ==> r == Raised) && (items.Some? ==> NormalizedFrom(r, items.value))
  {
    if chunks == [] {
      return Questions([]);
    }
    var found := ExtractObject(response);
    if found.None? {
      var qs := CreateFallbackQuestions(chunks, numQuestions, masteryLevel);
      return Questions(qs);
    }
    var quizData := parse(CleanTrailingCommas(found.value));
    if quizData.None? {
      var qs := CreateFallbackQuestions(chunks, numQuestions, masteryLevel);
      return Questions(qs);
    }
    if !quizData.value.Object? {
      return Raised;
    }
    var items := QuestionItems(Get(quizData.value.fields, "questions", Array([])));
    if items.None? {
      return Raised;
    }
    r := NormalizeQuestions(items.value);
  }

  /** A decoded object without a "questions" key gives an empty quiz, not the fallback. */
  lemma MissingQuestionsKeyIsEmpty(out: QuizOutcome, fields: map<string, Value>)
    requires "questions" !in fields
    requires NormalizedFrom(out, QuestionItems(Get(fields, "questions", Array([]))).value)
    ensures out == Questions([])
  {
  }
}
