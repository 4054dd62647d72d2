/** The five-question quiz: the AI reply is read line by line into
    questions (a numbered line opens a question, lettered lines add
    options, an answer line picks a letter), malformed questions are
    dropped, the list is padded with a fixed template question, and a
    posted quiz is scored against the submitted choices. */
module Quiz {
  import opened Wrappers
  import opened Text
  import opened Seqs

  datatype Choice = Choice(letter: string, text: string)

  datatype Question = Question(prompt: string, options: seq<Choice>, answer: Option<string>)

  const QuizLength: nat := 5

  const Letters: seq<string> := ["A", "B", "C", "D"]

  const HeaderMarks: seq<string> := ["1.", "2.", "3.", "4.", "5.", "Q1", "Q2", "Q3", "Q4", "Q5"]

  const OptionMarks: seq<string> := ["A:", "B:", "C:", "D:"]

  const AnswerMarks: seq<string> := ["ANSWER:", "CORRECT:", "ANS:"]

  /** `s.startswith(marks)` for a tuple of prefixes. */
  predicate StartsWithAny(s: string, marks: seq<string>) {
    exists k :: 0 <= k < |marks| && StartsWith(s, marks[k])
  }

  // ------------------------------------------------------- line kinds
  // Each test looks at the upper-cased line.

  predicate IsHeader(lnu: string) {
    StartsWithAny(lnu, HeaderMarks)
  }

  predicate IsOption(lnu: string) {
    StartsWithAny(lnu, OptionMarks) || (|lnu| > 2 && lnu[1] == ')' && lnu[0] in "ABCD")
  }

  predicate IsAnswer(lnu: string) {
    StartsWithAny(lnu, AnswerMarks)
  }

  /** The prompt of a numbered line: what follows its first '.', trimmed,
      or the whole line when that is blank. */
  function QuestionText(ln: string): (r: string)
    ensures ln != [] ==> r != []
  {
    var rest := match Find(ln, ".")
      case None => ln
      case Some(i) => ln[i + 1..];
    var t := Strip(rest);
    if t != [] then t else ln
  }

  /** The text of an option line: after the label and its ':' when the
      first three characters hold a ':', otherwise after three
      characters, trimmed. */
  function OptionText(ln: string): string {
    if ':' in Prefix(ln, 3) then Strip(Suffix(ln, 2)) else Strip(Suffix(ln, 3))
  }

  /** The first of A, B, C, D, tried in that order from position `k` of
      `Letters`, that occurs anywhere in the line. */
  function AnswerLetterFrom(lnu: string, k: nat): (r: Option<string>)
    requires k <= |Letters|
    ensures r.Some? ==> r.value in Letters[k..] && r.value[0] in lnu
    ensures r.None? <==> forall j :: k <= j < |Letters| ==> Letters[j][0] !in lnu
    decreases |Letters| - k
  {
    if k == |Letters| then None
    else if Letters[k][0] in lnu then Some(Letters[k])
    else AnswerLetterFrom(lnu, k + 1)
  }

  function AnswerLetter(lnu: string): Option<string> {
    AnswerLetterFrom(lnu, 0)
  }

  // --------------------------------------------------------- parsing

  /** The parser's state: the questions closed so far and the one being
      filled in. */
  datatype Parse = Parse(questions: seq<Question>, current: Question)

  const Blank: Question := Question("", [], None)

  const Start: Parse := Parse([], Blank)

  /** One line of the reply. A numbered line closes the current question
      (when it has a prompt) and opens a new one; an option line adds an
      option to the current question, even one without a prompt; an
      answer line sets its answer; other lines are ignored. */
  function Step(st: Parse, ln: string): Parse {
    var lnu := Upper(ln);
    if IsHeader(lnu) then
      Parse(if st.current.prompt != [] then st.questions + [st.current] else st.questions,
            Question(QuestionText(ln), [], None))
    else if IsOption(lnu) then
      Parse(st.questions, st.current.(options := st.current.options + [Choice([lnu[0]], OptionText(ln))]))
    else if IsAnswer(lnu) then
      match AnswerLetter(lnu)
      case None => st
      case Some(a) => Parse(st.questions, st.current.(answer := Some(a)))
    else st
  }

  /** The loop over the lines, which stops once five questions are closed. */
  function Run(st: Parse, lines: seq<string>): Parse
    decreases |lines|
  {
    if lines == [] || |st.questions| >= QuizLength then st
    else Run(Step(st, lines[0]), lines[1..])
  }

  /** The question still open at the end is kept when it has a prompt and
      there is room for it. */
  function Finish(st: Parse): seq<Question> {
    if st.current.prompt != [] && |st.questions| < QuizLength then st.questions + [st.current] else st.questions
  }

  /** The non-blank lines of the reply, trimmed. */
  function Lines(reply: string): seq<string> {
    StripNonEmpty(SplitLines(reply))
  }

  /** The questions the loop collects: at most five, each with a prompt. */
  function Collected(lines: seq<string>): (qs: seq<Question>)
    ensures |qs| <= QuizLength
    ensures forall k :: 0 <= k < |qs| ==> qs[k].prompt != []
  {
    RunBound(Start, lines);
    RunPrompts(Start, lines);
    Finish(Run(Start, lines))
  }

  predicate Prompted(qs: seq<Question>) {
    forall k :: 0 <= k < |qs| ==> qs[k].prompt != []
  }

  /** A question is only ever closed when it has a prompt. */
  lemma {:induction false} RunPrompts(st: Parse, lines: seq<string>)
    requires Prompted(st.questions)
    ensures Prompted(Run(st, lines).questions)
    decreases |lines|
  {
    if lines != [] && |st.questions| < QuizLength {
      StepPrompts(st, lines[0]);
      RunPrompts(Step(st, lines[0]), lines[1..]);
    }
  }

  lemma StepPrompts(st: Parse, ln: string)
    requires Prompted(st.questions)
    ensures Prompted(Step(st, ln).questions)
  {
    var lnu := Upper(ln);
    if IsHeader(lnu) && st.current.prompt != [] {
      var qs := st.questions + [st.current];
      assert forall k :: 0 <= k < |st.questions| ==> qs[k] == st.questions[k];
    }
  }

  /** A question the quiz keeps: a prompt, exactly four options and an
      answer letter. */
  predicate WellFormed(q: Question) {
    q.prompt != [] && |q.options| == 4 && q.answer.Some? && q.answer.value in Letters
  }

  /** The stand-in question for position `idx` (counted from 1). */
  function Template(idx: nat): (q: Question)
    ensures WellFormed(q) && q.answer == Some("C")
  {
    Question("Which is best for e-waste? (Q" + NatToString(idx) + ")",
             [Choice("A", "Throw in regular trash"), Choice("B", "Burn to reduce volume"),
              Choice("C", "Recycle at certified center"), Choice("D", "Dump in river")],
             Some("C"))
  }

  /** Appends template questions until there are five. */
  function Pad(qs: seq<Question>): seq<Question>
    decreases QuizLength - |qs|
  {
    if |qs| >= QuizLength then qs else Pad(qs + [Template(|qs| + 1)])
  }

  /** The questions generated from an AI reply. */
  function Generated(reply: string): (qs: seq<Question>)
    ensures |qs| == QuizLength
    ensures forall k :: 0 <= k < |qs| ==> qs[k].prompt != [] && |qs[k].options| == 4
  {
    var kept := Filter(WellFormed, Collected(Lines(reply)));
    PadShape(kept);
    assert forall k :: 0 <= k < |kept| ==> Pad(kept)[k] == Pad(kept)[..|kept|][k];
    Pad(kept)
  }

  // ----------------------------------------------------------- proofs

  lemma StepGrowth(st: Parse, ln: string)
    ensures |st.questions| <= |Step(st, ln).questions| <= |st.questions| + 1
  {
  }

  /** At most five questions are collected before filtering. */
  lemma {:induction false} RunBound(st: Parse, lines: seq<string>)
    requires |st.questions| <= QuizLength
    ensures |Run(st, lines).questions| <= QuizLength
    decreases |lines|
  {
    if lines != [] && |st.questions| < QuizLength {
      StepGrowth(st, lines[0]);
      RunBound(Step(st, lines[0]), lines[1..]);
    }
  }

  lemma CollectedBound(lines: seq<string>)
    ensures |Collected(lines)| <= QuizLength
  {
    RunBound(Start, lines);
  }

  /** Padding keeps the given questions in front and fills the positions
      after them with the template numbered by position. */
  lemma {:induction false} PadShape(qs: seq<Question>)
    requires |qs| <= QuizLength
    ensures |Pad(qs)| == QuizLength
    ensures Pad(qs)[..|qs|] == qs
    ensures forall i :: |qs| <= i < QuizLength ==> Pad(qs)[i] == Template(i + 1)
    decreases QuizLength - |qs|
  {
    if |qs| < QuizLength {
      var next := qs + [Template(|qs| + 1)];
      PadShape(next);
      assert Pad(qs) == Pad(next);
      assert Pad(next)[..|qs|] == next[..|next|][..|qs|];
    }
  }

  /** The generated quiz has five well-formed questions: the surviving
      parsed ones first, in the order of the reply, then templates
      labelled with their position and answered C. */
  lemma GeneratedShape(reply: string)
    ensures var kept := Filter(WellFormed, Collected(Lines(reply)));
      && |kept| <= QuizLength
      && |Generated(reply)| == QuizLength
      && Generated(reply)[..|kept|] == kept
      && (forall i :: |kept| <= i < QuizLength ==> Generated(reply)[i] == Template(i + 1))
      && (forall i :: 0 <= i < QuizLength ==> WellFormed(Generated(reply)[i]))
  {
    var kept := Filter(WellFormed, Collected(Lines(reply)));
    CollectedBound(Lines(reply));
    PadShape(kept);
    forall i | 0 <= i < QuizLength
      ensures WellFormed(Generated(reply)[i])
    {
      if i < |kept| {
        assert Generated(reply)[i] == Generated(reply)[..|kept|][i];
      }
    }
  }

  /** A line starting "ANSWER:" or "ANS:" (in any case) always sets the
      answer to A, since the keyword itself holds an A. */
  lemma AnswerKeywordGivesA(st: Parse, ln: string)
    requires StartsWith(Upper(ln), "ANSWER:") || StartsWith(Upper(ln), "ANS:")
    ensures Step(st, ln) == Parse(st.questions, st.current.(answer := Some("A")))
  {
    var lnu := Upper(ln);
    assert lnu[0] == 'A' && lnu[1] == 'N';
    assert !IsHeader(lnu);
    assert !IsOption(lnu);
    if StartsWith(lnu, "ANSWER:") {
      assert StartsWith(lnu, AnswerMarks[0]);
    } else {
      assert StartsWith(lnu, AnswerMarks[2]);
    }
  }

  /** A "CORRECT:" line never gives D: its keyword holds a C. */
  lemma CorrectKeywordNeverD(st: Parse, ln: string)
    requires StartsWith(Upper(ln), "CORRECT:")
    ensures Step(st, ln).current.answer in {Some("A"), Some("B"), Some("C")}
  {
    var lnu := Upper(ln);
    assert lnu[0] == 'C' && lnu[1] == 'O';
    assert !IsHeader(lnu);
    assert !IsOption(lnu);
    assert StartsWith(lnu, AnswerMarks[1]);
    assert lnu[0] in lnu;
  }

  /** A numbered line opens a fresh question with a prompt, so options
      and answers read before it never reach a later question. */
  lemma HeaderOpensFresh(st: Parse, ln: string)
    requires ln != [] && IsHeader(Upper(ln))
    ensures Step(st, ln).current == Question(QuestionText(ln), [], None)
    ensures Step(st, ln).current.prompt != []
  {
  }

  /** Without a numbered line nothing is collected, whatever options and
      answers the reply holds. */
  lemma {:induction false} NoHeaderNoQuestions(st: Parse, lines: seq<string>)
    requires st.questions == [] && st.current.prompt == []
    requires forall k :: 0 <= k < |lines| ==> !IsHeader(Upper(lines[k]))
    ensures Run(st, lines).questions == [] && Run(st, lines).current.prompt == []
    decreases |lines|
  {
    if lines != [] {
      NoHeaderNoQuestions(Step(st, lines[0]), lines[1..]);
    }
  }

  lemma NoHeaderAllTemplates(reply: string)
    requires forall k :: 0 <= k < |Lines(reply)| ==> !IsHeader(Upper(Lines(reply)[k]))
    ensures |Generated(reply)| == QuizLength
    ensures forall i :: 0 <= i < QuizLength ==> Generated(reply)[i] == Template(i + 1)
  {
    NoHeaderNoQuestions(Start, Lines(reply));
    GeneratedShape(reply);
  }

  // ---------------------------------------------------------- methods

  /** The body of the parsing loop for one line. */
  method ReadLine(questions: seq<Question>, current: Question, ln: string)
    returns (questions': seq<Question>, current': Question)
    ensures Parse(questions', current') == Step(Parse(questions, current), ln)
  {
    questions', current' := questions, current;
    var lnu := Upper(ln);
    if IsHeader(lnu) {
      if current.prompt != [] {
        questions' := questions + [current];
      }
      current' := Question(QuestionText(ln), [], None);
    } else if IsOption(lnu) {
      current' := current.(options := current.options + [Choice([lnu[0]], OptionText(ln))]);
    } else if IsAnswer(lnu) {
      var k := 0;
      while k < |Letters|
        invariant 0 <= k <= |Letters|
        invariant AnswerLetterFrom(lnu, k) == AnswerLetter(lnu)
        invariant current' == current
      {
        if Letters[k][0] in lnu {
          current' := current.(answer := Some(Letters[k]));
          break;
        }
        k := k + 1;
      }
    }
  }

  /** The parsing loop: `current` is updated line by line and closed
      questions are appended, stopping at five. */
  method ParseLines(lines: seq<string>) returns (questions: seq<Question>)
    ensures questions == Collected(lines)
  {
    questions := [];
    var current := Blank;
    var i := 0;
    while i < |lines|
      invariant 0 <= i <= |lines|
      invariant Run(Start, lines) == Run(Parse(questions, current), lines[i..])
    {
      if |questions| >= QuizLength {
        break;
      }
      assert lines[i..][1..] == lines[i + 1..];
      questions, current := ReadLine(questions, current, lines[i]);
      i := i + 1;
    }
    if current.prompt != [] && |questions| < QuizLength {
      questions := questions + [current];
    }
  }

  /** The generation path: parse, keep the well-formed questions and pad
      to five. */
  method GenerateQuestions(reply: string) returns (questions: seq<Question>)
    ensures questions == Generated(reply)
    ensures |questions| == QuizLength && forall i :: 0 <= i < |questions| ==> WellFormed(questions[i])
  {
    var parsed := ParseLines(Lines(reply));
    questions := Filter(WellFormed, parsed);
    while |questions| < QuizLength
      invariant Pad(questions) == Generated(reply)
      decreases QuizLength - |questions|
    {
      questions := questions + [Template(|questions| + 1)];
    }
    GeneratedShape(reply);
  }

  // ---------------------------------------------------------- scoring

  /** The submitted choice for each of the five positions: the POST
      field `q<i>`, if present. */
  function UserAnswers(post: map<string, string>): (r: seq<Option<string>>)
    ensures |r| == QuizLength
    ensures forall i :: 0 <= i < QuizLength ==> (r[i].Some? <==> "q" + NatToString(i) in post)
  {
    seq(QuizLength, i requires 0 <= i < QuizLength =>
      var key := "q" + NatToString(i);
      if key in post then Some(post[key]) else None)
  }

  /** The number of positions below `n` whose submitted choice equals the
      question's answer; a missing choice equals a missing answer. */
  function CorrectUpTo(qs: seq<Question>, answers: seq<Option<string>>, n: nat): (c: nat)
    requires n <= |qs| && n <= |answers|
    ensures c <= n
  {
    if n == 0 then 0
    else CorrectUpTo(qs, answers, n - 1) + (if answers[n - 1] == qs[n - 1].answer then 1 else 0)
  }

  /** Every one of the first `n` choices is right exactly when all `n`
      count. */
  lemma {:induction false} AllCorrect(qs: seq<Question>, answers: seq<Option<string>>, n: nat)
    requires n <= |qs| && n <= |answers|
    ensures CorrectUpTo(qs, answers, n) == n <==> forall i :: 0 <= i < n ==> answers[i] == qs[i].answer
  {
    if n > 0 {
      AllCorrect(qs, answers, n - 1);
    }
  }

  /** A posted quiz whose questions carry no answer scores full marks when
      nothing is chosen. */
  lemma BlankScoresFull(qs: seq<Question>, n: nat)
    requires n <= |qs| && n <= QuizLength
    requires forall i :: 0 <= i < n ==> qs[i].answer.None?
    ensures CorrectUpTo(qs, UserAnswers(map[]), n) == n
  {
    AllCorrect(qs, UserAnswers(map[]), n);
  }

  /** The number of posted questions that are shown and scored. */
  function ShownCount(qs: seq<Question>): (n: nat)
    ensures n <= QuizLength && n <= |qs|
  {
    if |qs| < QuizLength then |qs| else QuizLength
  }

  /** The scoring loop over the first five posted questions. */
  method Score(qs: seq<Question>, answers: seq<Option<string>>) returns (correct: nat)
    requires |answers| == QuizLength
    ensures correct == CorrectUpTo(qs, answers, ShownCount(qs))
  {
    correct := 0;
    var n := ShownCount(qs);
    for i := 0 to n
      invariant correct == CorrectUpTo(qs, answers, i)
    {
      if answers[i] == qs[i].answer {
        correct := correct + 1;
      }
    }
  }

  // ------------------------------------------------------------- view

  datatype Verb = Get | Post | OtherVerb

  /** What the page shows: at most five questions, the choice attached to
      each scored question, the five submitted choices, and the score. */
  datatype QuizPage = QuizPage(questions: seq<Question>, userChoices: seq<Option<string>>,
                               userAnswers: seq<Option<string>>, score: Option<nat>)

  /** `quiz`. `reply` is the AI text for the quiz instruction; `posted`
      is the decoded `questions_json` field, `None` when it does not
      decode. A GET, or any request with `regen=1`, generates a quiz; a
      POST replaces it with the posted questions and scores them. */
  method QuizView(verb: Verb, regen: Option<string>, reply: string, posted: Option<seq<Question>>,
                  post: map<string, string>) returns (page: QuizPage)
    ensures verb == Post ==>
      var qs := posted.GetOr([]);
      var n := ShownCount(qs);
      && page.questions == qs[..n]
      && page.userAnswers == UserAnswers(post)
      && page.userChoices == UserAnswers(post)[..n]
      && page.score == Some(CorrectUpTo(qs, UserAnswers(post), n))
    ensures verb != Post && (verb == Get || regen == Some("1")) ==> page == QuizPage(Generated(reply), [], [], None)
    ensures verb != Post && verb != Get && regen != Some("1") ==> page == QuizPage([], [], [], None)
  {
    var questions: seq<Question> := [];
    if verb == Get || regen == Some("1") {
      questions := GenerateQuestions(reply);
    }
    var answers: seq<Option<string>> := [];
    var choices: seq<Option<string>> := [];
    var score: Option<nat> := None;
    if verb == Post {
      questions := posted.GetOr([]);
      answers := UserAnswers(post);
      var correct := Score(questions, answers);
      score := Some(correct);
      choices := answers[..ShownCount(questions)];
    }
    page := QuizPage(Take(questions, QuizLength), choices, answers, score);
  }
}
