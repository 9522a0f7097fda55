/**
  The PDF upload route (app/api/parse-pdf/route.ts): the request guards, the line scanner that
  recognises numbered, labelled and question-mark questions, and the table fallback. The
  regular expressions are written out as prefix tests that keep their alternation order, so
  the route's scan strips the `Q:`/`A:` labels as the source lists them; the same scan over the
  labels with each long label first is kept beside it (`Corrected`) for comparison.
*/
module ParsePdf {
  import opened Common
  import opened JsString
  import ParseExcel

  type Extracted = ParseExcel.Extracted

  // ---- lines ----

  /** `text.split("\n").map(l => l.trim()).filter(l => l)`. */
  function Lines(text: string): (lines: seq<string>)
    ensures forall l :: l in lines ==> l != [] && !IsSpace(l[0]) && !IsSpace(l[|l| - 1])
  {
    Filter(Map(Split(text, c => c == '\n'), Trim), (l: string) => l != [])
  }

  /** A line break separates lines: the lines of two texts joined by one are the lines of each. */
  lemma LinesConcat(a: string, b: string)
    ensures Lines(a + "\n" + b) == Lines(a) + Lines(b)
  {
    SplitConcat(a, '\n', b, c => c == '\n');
    MapAppend(Split(a, c => c == '\n'), Split(b, c => c == '\n'), Trim);
    FilterAppend(Map(Split(a, c => c == '\n'), Trim), Map(Split(b, c => c == '\n'), Trim), (l: string) => l != []);
  }

  /** Text without a line break is one line, trimmed, or no line when it is blank. */
  lemma LinesOfOneLine(s: string)
    requires forall c :: c in s ==> c != '\n'
    ensures Lines(s) == if AllSpace(s) then [] else [Trim(s)]
  {
    SplitNoSep(s, c => c == '\n');
    assert Map([s], Trim) == [Trim(s)];
  }

  // ---- the prefix patterns ----

  /** Length of `/^\d+[.):]/`, of `/^q\d+[.:]/i` or of `/^question\s+\d+:/i`, tried in that order; 0 when none matches. */
  function NumberedPrefix(line: string): (n: nat)
    ensures n <= |line|
  {
    var d := SkipDigits(line, 0, 10);
    if d > 0 && d < |line| && (line[d] == '.' || line[d] == ')' || line[d] == ':') then d + 1
    else
      var e := if |line| >= 1 && Lower(line[0]) == 'q' then SkipDigits(line, 1, 10) else 0;
      if e > 1 && e < |line| && (line[e] == '.' || line[e] == ':') then e + 1
      else if HasAtCI(line, 0, "question") then
        var w := SkipSpaces(line, 8);
        var f := SkipDigits(line, w, 10);
        if w > 8 && f > w && f < |line| && line[f] == ':' then f + 1 else 0
      else 0
  }

  /** `/^(\d+[.):]|Q\d+|Question)/i`, the test that a line after a `?` line starts a new question. */
  predicate LooksNumbered(line: string) {
    var d := SkipDigits(line, 0, 10);
    (d > 0 && d < |line| && (line[d] == '.' || line[d] == ')' || line[d] == ':'))
    || (|line| >= 1 && Lower(line[0]) == 'q' && SkipDigits(line, 1, 10) > 1)
    || HasAtCI(line, 0, "question")
  }

  /** The answer labels of the numbered pattern, in regex order: `Answer|A|الإجابة|ج`. */
  const NumberedAnswerLabels: seq<string> := ["answer", "a", "\U{627}\U{644}\U{625}\U{62C}\U{627}\U{628}\U{629}", "\U{62C}"]
  /** The answer labels of the `Q:`/`A:` pattern as the regex lists them: `A|Answer|ج|الإجابة`. */
  const LabelledAnswerLabelsAsWritten: seq<string> := ["a", "answer", "\U{62C}", "\U{627}\U{644}\U{625}\U{62C}\U{627}\U{628}\U{629}"]
  /** The question labels of the `Q:`/`A:` pattern as the regex lists them: `Q|Question|س|سؤال`. */
  const QuestionLabelsAsWritten: seq<string> := ["q", "question", "\U{633}", "\U{633}\U{624}\U{627}\U{644}"]
  /** The answer labels of the `Q:`/`A:` pattern with each long label before its one-letter prefix. */
  const LabelledAnswerLabels: seq<string> := ["answer", "a", "\U{627}\U{644}\U{625}\U{62C}\U{627}\U{628}\U{629}", "\U{62C}"]
  /** The question labels of the `Q:`/`A:` pattern with each long label before its one-letter prefix. */
  const QuestionLabels: seq<string> := ["question", "q", "\U{633}\U{624}\U{627}\U{644}", "\U{633}"]

  /** The two label lists of the `Q:`/`A:` pattern. */
  datatype LabelSet = LabelSet(question: seq<string>, answer: seq<string>)

  /** The labels in the order the route's regular expressions list them. */
  const AsWritten: LabelSet := LabelSet(QuestionLabelsAsWritten, LabelledAnswerLabelsAsWritten)
  /** The labels with each long label tried before its one-letter prefix. */
  const Corrected: LabelSet := LabelSet(QuestionLabels, LabelledAnswerLabels)

  /** The length of the first label of `labels` (lower case) that starts `line`, ignoring ASCII case. */
  function LabelLength(line: string, labels: seq<string>): (n: Option<nat>)
    ensures n.Some? ==> n.value <= |line|
    ensures n.Some? <==> exists k :: 0 <= k < |labels| && HasAtCI(line, 0, labels[k])
    ensures n.Some? ==> exists k :: 0 <= k < |labels| && HasAtCI(line, 0, labels[k]) && n.value == |labels[k]|
                                    && (forall m :: 0 <= m < k ==> !HasAtCI(line, 0, labels[m]))
  {
    if labels == [] then None
    else if HasAtCI(line, 0, labels[0]) then Some(|labels[0]|)
    else
      var r := LabelLength(line, labels[1..]);
      assert forall k :: 1 <= k < |labels| ==> labels[k] == labels[1..][k - 1];
      r
  }

  /**
    `line.replace(/^(labels)[:).]?\s*\/i, "").trim()`: the first matching label, one optional
    `:`, `)` or `.`, and the white space after it are cut, then the rest is trimmed.
  */
  function StripLabel(line: string, labels: seq<string>): (r: string)
    requires LabelLength(line, labels).Some?
  {
    var k := LabelLength(line, labels).value;
    var p := if k < |line| && (line[k] == ':' || line[k] == ')' || line[k] == '.') then k + 1 else k;
    Trim(line[SkipSpaces(line, p)..])
  }

  /** White space at neither end. */
  predicate Trimmed(x: string) {
    x == [] || (!IsSpace(x[0]) && !IsSpace(x[|x| - 1]))
  }

  /**
    With the labels in the order the regex lists them, the one-letter label wins: a
    `Question:` line keeps all of its label but the `Q`.
  */
  lemma QuestionLabelAsWritten(x: string)
    requires x != [] && Trimmed(x)
    ensures StripLabel("Question: " + x, QuestionLabelsAsWritten) == "uestion: " + x
  {
    var line := "Question: " + x;
    assert HasAtCI(line, 0, QuestionLabelsAsWritten[0]);
    assert line[1] == 'u';
    var rest := "uestion: " + x;
    assert line[1..] == rest;
    TrimNoop(rest);
  }

  /** The same for answers: an `Answer:` line keeps `nswer:`. */
  lemma AnswerLabelAsWritten(x: string)
    requires x != [] && Trimmed(x)
    ensures StripLabel("Answer: " + x, LabelledAnswerLabelsAsWritten) == "nswer: " + x
  {
    var line := "Answer: " + x;
    assert HasAtCI(line, 0, LabelledAnswerLabelsAsWritten[0]);
    assert line[1] == 'n';
    var rest := "nswer: " + x;
    assert line[1..] == rest;
    TrimNoop(rest);
  }

  /** With each long label tried first, `Question: x` gives `x`. */
  lemma QuestionLabelStripped(x: string)
    requires x != [] && Trimmed(x)
    ensures StripLabel("Question: " + x, QuestionLabels) == x
  {
    var line := "Question: " + x;
    assert HasAtCI(line, 0, QuestionLabels[0]) by {
      assert line[..8] == "Question";
    }
    assert line[8] == ':' && line[9] == ' ' && line[10] == x[0];
    assert SkipSpaces(line, 9) == 10;
    assert line[10..] == x;
    TrimNoop(x);
  }

  /** With each long label tried first, `Answer: x` gives `x`. */
  lemma AnswerLabelStripped(x: string)
    requires x != [] && Trimmed(x)
    ensures StripLabel("Answer: " + x, LabelledAnswerLabels) == x
  {
    var line := "Answer: " + x;
    assert HasAtCI(line, 0, LabelledAnswerLabels[0]) by {
      assert line[..6] == "Answer";
    }
    assert line[6] == ':' && line[7] == ' ' && line[8] == x[0];
    assert SkipSpaces(line, 7) == 8;
    assert line[8..] == x;
    TrimNoop(x);
  }

  predicate ArabicChar(c: char) { '\U{600}' <= c <= '\U{6FF}' }

  /** `/[؀-ۿ]/.test(s)`. */
  predicate HasArabic(s: string) {
    exists k :: 0 <= k < |s| && ArabicChar(s[k])
  }

  predicate ContainsChar(s: string, c: char) { c in s }

  /** A question or answer goes to the Arabic field when it has an Arabic letter, else to the English one. */
  function Place(question: string, answer: string): (e: Extracted)
    ensures HasArabic(question) ==> e.questionAr == question && e.questionEn == ""
    ensures !HasArabic(question) ==> e.questionEn == question && e.questionAr == ""
    ensures HasArabic(answer) ==> e.answerAr == answer && e.answerEn == ""
    ensures !HasArabic(answer) ==> e.answerEn == answer && e.answerAr == ""
  {
    ParseExcel.Extracted(
      if HasArabic(question) then "" else question, if HasArabic(question) then question else "",
      if HasArabic(answer) then "" else answer, if HasArabic(answer) then answer else "")
  }

  /** A pair is kept only when both its question and its answer are non-empty. */
  function Emit(question: string, answer: string): (r: Option<Extracted>)
    ensures r.Some? <==> question != "" && answer != ""
    ensures r.Some? ==> Placed(r.value)
  {
    if question != "" && answer != "" then Some(Place(question, answer)) else None
  }

  /** Each text lands in exactly one field of its pair, and in the Arabic one exactly when it has an Arabic letter. */
  predicate Placed(e: Extracted) {
    && (e.questionEn == "" <==> e.questionAr != "")
    && (e.answerEn == "" <==> e.answerAr != "")
    && (e.questionAr != "" ==> HasArabic(e.questionAr))
    && (e.questionEn != "" ==> !HasArabic(e.questionEn))
    && (e.answerAr != "" ==> HasArabic(e.answerAr))
    && (e.answerEn != "" ==> !HasArabic(e.answerEn))
  }

  // ---- the scan, as a specification ----

  /**
    The look-ahead after a numbered question at `i`, from line `j` on, within the next four
    lines: an answer line gives its text and the index to resume from; another numbered line
    gives the line before it as the answer; otherwise no answer.
  */
  function LookNumbered(lines: seq<string>, i: nat, j: nat): (r: (string, nat))
    requires i < j
    ensures i <= r.1 < |lines| || (r.1 == i && r.0 == "")
    ensures r.1 < i + 5
    decreases |lines| - j
  {
    if j >= Min(i + 5, |lines|) then ("", i)
    else if LabelLength(lines[j], NumberedAnswerLabels).Some? then (StripLabel(lines[j], NumberedAnswerLabels), j)
    else if NumberedPrefix(lines[j]) > 0 then (lines[j - 1], j - 1)
    else LookNumbered(lines, i, j + 1)
  }

  /**
    The look-ahead after a `Q:` question at `i`, from line `j` on: the first line within four
    lines that starts with one of the answer labels `answers`, with that label stripped.
  */
  function LookLabelled(lines: seq<string>, i: nat, j: nat, answers: seq<string>): (r: (string, nat))
    requires i < j
    ensures (i < r.1 < |lines| && r.1 < i + 5) || (r.1 == i && r.0 == "")
    ensures i < r.1 ==> (j <= r.1 && LabelLength(lines[r.1], answers).Some? && r.0 == StripLabel(lines[r.1], answers)
                         && forall m :: j <= m < r.1 ==> LabelLength(lines[m], answers).None?)
    ensures r.1 == i ==> forall m :: j <= m < Min(i + 5, |lines|) ==> LabelLength(lines[m], answers).None?
    decreases |lines| - j
  {
    if j >= Min(i + 5, |lines|) then ("", i)
    else if LabelLength(lines[j], answers).Some? then (StripLabel(lines[j], answers), j)
    else LookLabelled(lines, i, j + 1, answers)
  }

  /**
    One iteration of the scan at line `i`, with the `Q:`/`A:` labels of `labels`: the pair it
    finds, if any, and the index the loop's `i++` starts from.
  */
  function Step(lines: seq<string>, i: nat, labels: LabelSet): (r: (Option<Extracted>, nat))
    requires i < |lines|
    ensures i <= r.1 < |lines|
    ensures r.0.Some? ==> Placed(r.0.value)
  {
    var line := lines[i];
    if NumberedPrefix(line) > 0 then
      var look := LookNumbered(lines, i, i + 1);
      (Emit(Trim(line[NumberedPrefix(line)..]), look.0), look.1)
    else if LabelLength(line, labels.question).Some? then
      var look := LookLabelled(lines, i, i + 1, labels.answer);
      (Emit(StripLabel(line, labels.question), look.0), look.1)
    else if ContainsChar(line, '?') || ContainsChar(line, '\U{61F}') then
      if i + 1 < |lines| && !ContainsChar(lines[i + 1], '?') && !ContainsChar(lines[i + 1], '\U{61F}')
         && !LooksNumbered(lines[i + 1])
      then (Emit(line, lines[i + 1]), i + 1)
      else (None, i)
    else (None, i)
  }

  /** Each step moves forward and stays within the lines. */
  predicate Forward(steps: seq<(Option<Extracted>, nat)>) {
    forall i :: 0 <= i < |steps| ==> i <= steps[i].1 < |steps|
  }

  /** The step taken at every line, as the scan would take it if it reached that line. */
  function Steps(lines: seq<string>, labels: LabelSet): (steps: seq<(Option<Extracted>, nat)>)
    ensures |steps| == |lines| && Forward(steps)
    ensures forall k :: 0 <= k < |lines| ==> steps[k] == Step(lines, k, labels)
  {
    seq(|lines|, k requires 0 <= k < |lines| => Step(lines, k, labels))
  }

  predicate StepIs(lines: seq<string>, k: nat, step: (Option<Extracted>, nat), labels: LabelSet) {
    k < |lines| && step == Step(lines, k, labels)
  }

  /** `steps` are the steps of `lines`, stated so that a step is only looked into where it is asked for. */
  predicate StepsOf(lines: seq<string>, steps: seq<(Option<Extracted>, nat)>, labels: LabelSet) {
    |steps| == |lines| && Forward(steps)
    && forall k {:trigger StepIs(lines, k, steps[k], labels)} :: 0 <= k < |lines| ==> StepIs(lines, k, steps[k], labels)
  }

  lemma StepsOfLines(lines: seq<string>, labels: LabelSet)
    ensures StepsOf(lines, Steps(lines, labels), labels)
  {
    var steps := Steps(lines, labels);
    forall k | 0 <= k < |lines|
      ensures StepIs(lines, k, steps[k], labels)
    {
    }
  }

  /** The pairs the scan collects from line `i` on, resuming one past where each step ends. */
  function ScanSteps(steps: seq<(Option<Extracted>, nat)>, i: nat): seq<Extracted>
    requires Forward(steps)
    decreases |steps| - i
  {
    if i >= |steps| then []
    else (if steps[i].0.Some? then [steps[i].0.value] else []) + ScanSteps(steps, steps[i].1 + 1)
  }

  /** The pairs the pattern scan finds in `lines`, stripping the `Q:`/`A:` labels of `labels`. */
  function Scanned(lines: seq<string>, labels: LabelSet): seq<Extracted> {
    ScanSteps(Steps(lines, labels), 0)
  }

  /** One step of the scan: the pair of step `i`, then the scan from one past where it ends. */
  lemma ScanStepsUnfold(steps: seq<(Option<Extracted>, nat)>, i: nat, found: Option<Extracted>, next: nat)
    requires Forward(steps) && i < |steps| && (found, next) == steps[i]
    ensures i <= next < |steps|
    ensures ScanSteps(steps, i) == (if found.Some? then [found.value] else []) + ScanSteps(steps, next + 1)
  {
  }

  /** At most one pair per line. */
  lemma {:induction false} ScanBound(steps: seq<(Option<Extracted>, nat)>, i: nat)
    requires Forward(steps) && i <= |steps|
    ensures |ScanSteps(steps, i)| <= |steps| - i
    decreases |steps| - i
  {
    if i < |steps| {
      ScanBound(steps, steps[i].1 + 1);
    }
  }

  /** The pattern scan finds at most one pair per line, whatever the label order. */
  lemma ScannedBound(lines: seq<string>, labels: LabelSet)
    ensures |Scanned(lines, labels)| <= |lines|
  {
    ScanBound(Steps(lines, labels), 0);
  }

  /** Every scanned pair comes from a step, so it is placed like the steps' pairs. */
  lemma {:induction false} ScanPlaced(steps: seq<(Option<Extracted>, nat)>, i: nat)
    requires Forward(steps)
    requires forall k :: 0 <= k < |steps| && steps[k].0.Some? ==> Placed(steps[k].0.value)
    ensures forall e :: e in ScanSteps(steps, i) ==> Placed(e)
    decreases |steps| - i
  {
    if i < |steps| {
      ScanPlaced(steps, steps[i].1 + 1);
    }
  }

  /** Every pair the pattern scan finds has a non-empty question and answer, each in the field its script calls for. */
  lemma ScannedPlaced(lines: seq<string>, labels: LabelSet)
    ensures forall e :: e in Scanned(lines, labels) ==> Placed(e)
  {
    ScanPlaced(Steps(lines, labels), 0);
  }

  /**
    A `Question:` line followed by an `Answer:` line: the route's scan, trying the one-letter
    labels first, keeps `uestion:` and `nswer:` in the pair it emits.
  */
  lemma LabelledPairAsWritten(x: string, y: string)
    requires x != [] && Trimmed(x) && y != [] && Trimmed(y)
    ensures Step(["Question: " + x, "Answer: " + y], 0, AsWritten).0 == Some(Place("uestion: " + x, "nswer: " + y))
  {
    var q, a := "Question: " + x, "Answer: " + y;
    NotNumbered(x);
    assert LabelLength(q, AsWritten.question) == Some(1) by {
      assert HasAtCI(q, 0, QuestionLabelsAsWritten[0]);
    }
    assert LabelLength(a, AsWritten.answer) == Some(1) by {
      assert HasAtCI(a, 0, LabelledAnswerLabelsAsWritten[0]);
    }
    QuestionLabelAsWritten(x);
    AnswerLabelAsWritten(y);
    LabelledStep(q, a, AsWritten);
  }

  /** The same two lines scanned with each long label tried first give the pair `(x, y)`. */
  lemma LabelledPairCorrected(x: string, y: string)
    requires x != [] && Trimmed(x) && y != [] && Trimmed(y)
    ensures Step(["Question: " + x, "Answer: " + y], 0, Corrected).0 == Some(Place(x, y))
  {
    var q, a := "Question: " + x, "Answer: " + y;
    NotNumbered(x);
    assert LabelLength(q, Corrected.question) == Some(8) by {
      assert HasAtCI(q, 0, QuestionLabels[0]) by {
        assert q[..8] == "Question";
      }
    }
    assert LabelLength(a, Corrected.answer) == Some(6) by {
      assert HasAtCI(a, 0, LabelledAnswerLabels[0]) by {
        assert a[..6] == "Answer";
      }
    }
    QuestionLabelStripped(x);
    AnswerLabelStripped(y);
    LabelledStep(q, a, Corrected);
  }

  /** A labelled question line directly followed by a labelled answer line gives their stripped pair. */
  lemma LabelledStep(q: string, a: string, labels: LabelSet)
    requires NumberedPrefix(q) == 0
    requires LabelLength(q, labels.question).Some? && LabelLength(a, labels.answer).Some?
    ensures Step([q, a], 0, labels).0 == Emit(StripLabel(q, labels.question), StripLabel(a, labels.answer))
  {
    var lines := [q, a];
    assert lines[0] == q && lines[1] == a;
    assert LookLabelled(lines, 0, 1, labels.answer) == (StripLabel(a, labels.answer), 1);
  }

  /** A `Question:` line matches none of the numbered patterns. */
  lemma NotNumbered(x: string)
    ensures NumberedPrefix("Question: " + x) == 0
  {
    var line := "Question: " + x;
    assert line[0] == 'Q' && line[1] == 'u' && line[8] == ':';
    assert SkipSpaces(line, 8) == 8;
  }

  // ---- the scan, as the route runs it ----

  /** The inner loop after a numbered question: looks at lines `i + 1 .. i + 4` for the answer. */
  method FindNumberedAnswer(lines: seq<string>, i: nat) returns (answer: string, next: nat)
    requires i < |lines|
    ensures (answer, next) == LookNumbered(lines, i, i + 1)
  {
    answer, next := "", i;
    var j := i + 1;
    while j < Min(i + 5, |lines|)
      invariant i < j
      invariant LookNumbered(lines, i, j) == LookNumbered(lines, i, i + 1)
      decreases |lines| - j
    {
      var nextLine := lines[j];
      if LabelLength(nextLine, NumberedAnswerLabels).Some? {
        answer := StripLabel(nextLine, NumberedAnswerLabels);
        next := j;
        return;
      } else if NumberedPrefix(nextLine) > 0 {
        answer := lines[j - 1];
        next := j - 1;
        return;
      }
      j := j + 1;
    }
  }

  /** The inner loop after a `Q:` question: looks at lines `i + 1 .. i + 4` for an answer line. */
  method FindLabelledAnswer(lines: seq<string>, i: nat) returns (answer: string, next: nat)
    requires i < |lines|
    ensures (answer, next) == LookLabelled(lines, i, i + 1, AsWritten.answer)
  {
    answer, next := "", i;
    var j := i + 1;
    while j < Min(i + 5, |lines|)
      invariant i < j
      invariant LookLabelled(lines, i, j, AsWritten.answer) == LookLabelled(lines, i, i + 1, AsWritten.answer)
      decreases |lines| - j
    {
      if LabelLength(lines[j], LabelledAnswerLabelsAsWritten).Some? {
        answer := StripLabel(lines[j], LabelledAnswerLabelsAsWritten);
        next := j;
        return;
      }
      j := j + 1;
    }
  }

  /** The body of the scan loop at line `i`: the branches of the three patterns and the pair they give. */
  method ScanLine(lines: seq<string>, i: nat, ghost steps: seq<(Option<Extracted>, nat)>)
      returns (found: Option<Extracted>, next: nat)
    requires i < |lines| && StepsOf(lines, steps, AsWritten)
    ensures (found, next) == steps[i]
  {
    assert StepIs(lines, i, steps[i], AsWritten);
    var line := lines[i];
    var question, answer := "", "";
    next := i;
    var n := NumberedPrefix(line);
    if n > 0 {
      question := Trim(line[n..]);
      answer, next := FindNumberedAnswer(lines, i);
    } else if LabelLength(line, QuestionLabelsAsWritten).Some? {
      question := StripLabel(line, QuestionLabelsAsWritten);
      answer, next := FindLabelledAnswer(lines, i);
    } else if ContainsChar(line, '?') || ContainsChar(line, '\U{61F}') {
      question := line;
      if i + 1 < |lines| {
        var nextLine := lines[i + 1];
        if !ContainsChar(nextLine, '?') && !ContainsChar(nextLine, '\U{61F}') && !LooksNumbered(nextLine) {
          answer := nextLine;
          next := i + 1;
        }
      }
    }
    found := if question != "" && answer != "" then Some(Place(question, answer)) else None;
  }

  /** The scan loop of `extractQuestions`, with its `i = j` and `i = j - 1` jumps folded into `next`. */
  method Scan(lines: seq<string>, ghost steps: seq<(Option<Extracted>, nat)>) returns (questions: seq<Extracted>)
    requires StepsOf(lines, steps, AsWritten)
    ensures questions == ScanSteps(steps, 0)
  {
    questions := [];
    var i := 0;
    while i < |lines|
      invariant i <= |lines|
      invariant questions + ScanSteps(steps, i) == ScanSteps(steps, 0)
      decreases |lines| - i
    {
      var found, next := ScanLine(lines, i, steps);
      ScanStepsUnfold(steps, i, found, next);
      if found.Some? {
        questions := questions + [found.value];
      }
      i := next + 1;
    }
  }

  /**
    `extractQuestions`: the pattern scan over the lines, and the table reading of the same
    lines when the scan finds nothing.
  */
  method ExtractQuestions(text: string) returns (questions: seq<Extracted>)
    ensures var lines := Lines(text);
      questions == if Scanned(lines, AsWritten) == [] then TableRows(lines) else Scanned(lines, AsWritten)
  {
    var lines := Lines(text);
    StepsOfLines(lines, AsWritten);
    questions := Scan(lines, Steps(lines, AsWritten));
    if questions == [] {
      RowsOfLines(lines);
      questions := ExtractFromTable(lines, Map(lines, TableRow));
    }
  }

  // ---- the table fallback ----

  predicate IsCellSeparator(c: char) { c == '|' || c == '\t' }

  /** `line.split(/[|\t]/).map(p => p.trim()).filter(p => p)`. */
  function Cells(line: string): (parts: seq<string>)
    ensures forall p :: p in parts ==> p != []
  {
    Filter(Map(Split(line, IsCellSeparator), Trim), (p: string) => p != [])
  }

  /** The pair a table line gives: none without a separator, with fewer than two cells, or for a header row. */
  function TableRow(line: string): (r: Option<Extracted>)
    ensures r.Some? ==> Placed(r.value)
  {
    if !(ContainsChar(line, '|') || ContainsChar(line, '\t')) then None
    else
      var parts := Cells(line);
      if |parts| < 2 then None
      else if IncludesCI(parts[0], "question") || IncludesCI(parts[0], "answer") then None
      else
        assert parts[0] in parts && parts[1] in parts;
        Some(Place(parts[0], parts[1]))
  }

  /** The values of the present entries, in order. */
  function Present<T>(s: seq<Option<T>>): (r: seq<T>)
    ensures |r| <= |s|
    ensures forall x :: x in r ==> Some(x) in s
  {
    if s == [] then []
    else
      assert forall o :: o in s[1..] ==> o in s;
      (if s[0].Some? then [s[0].value] else []) + Present(s[1..])
  }

  lemma {:induction false} PresentPush<T>(s: seq<Option<T>>, o: Option<T>)
    ensures Present(s + [o]) == Present(s) + if o.Some? then [o.value] else []
  {
    if s != [] {
      assert (s + [o])[1..] == s[1..] + [o];
      PresentPush(s[1..], o);
    }
  }

  /**
    A table line of two cells: it gives the pair of its cells unless the first cell names a
    column header.
  */
  lemma TableRowOfCells(q: string, a: string)
    requires q != [] && a != [] && Trimmed(q) && Trimmed(a)
    requires forall c :: c in q + a ==> !IsCellSeparator(c)
    ensures TableRow(q + "|" + a) ==
      if IncludesCI(q, "question") || IncludesCI(q, "answer") then None else Some(Place(q, a))
  {
    var line := q + "|" + a;
    assert line == q + ['|'] + a;
    assert line[|q|] == '|';
    SplitConcat(q, '|', a, IsCellSeparator);
    SplitNoSep(q, IsCellSeparator);
    SplitNoSep(a, IsCellSeparator);
    TrimNoop(q);
    TrimNoop(a);
    assert Map([q] + [a], Trim) == [q, a];
    FilterAll([q, a], (p: string) => p != []);
    assert Cells(line) == [q, a];
  }

  /** The pairs of the table reading: one per usable line, in line order. */
  function TableRows(lines: seq<string>): (rows: seq<Extracted>)
    ensures |rows| <= |lines|
    ensures forall e :: e in rows ==> Placed(e)
  {
    Present(Map(lines, TableRow))
  }

  predicate RowIs(line: string, row: Option<Extracted>) {
    row == TableRow(line)
  }

  /** `rows` are the table rows of `lines`, stated so that a row is only looked into where it is asked for. */
  predicate RowsOf(lines: seq<string>, rows: seq<Option<Extracted>>) {
    |rows| == |lines| && forall k {:trigger RowIs(lines[k], rows[k])} :: 0 <= k < |lines| ==> RowIs(lines[k], rows[k])
  }

  lemma RowsOfLines(lines: seq<string>)
    ensures RowsOf(lines, Map(lines, TableRow))
  {
    var rows := Map(lines, TableRow);
    forall k | 0 <= k < |lines|
      ensures RowIs(lines[k], rows[k])
    {
    }
  }

  /** The body of the table loop: the pair a line gives, with the header row skipped as the loop's `continue` does. */
  method TableLine(line: string, ghost row: Option<Extracted>) returns (r: Option<Extracted>)
    requires RowIs(line, row)
    ensures r == row
  {
    r := None;
    if ContainsChar(line, '|') || ContainsChar(line, '\t') {
      var parts := Cells(line);
      if |parts| >= 2 {
        var question, answer := parts[0], parts[1];
        if IncludesCI(question, "question") || IncludesCI(question, "answer") {
          return;
        }
        r := Some(Place(question, answer));
      }
    }
  }

  /** `extractFromTable`: one pair per usable table line, in order. */
  method ExtractFromTable(lines: seq<string>, ghost rows: seq<Option<Extracted>>) returns (questions: seq<Extracted>)
    requires RowsOf(lines, rows)
    ensures questions == Present(rows)
  {
    questions := [];
    var i := 0;
    while i < |lines|
      invariant 0 <= i <= |lines|
      invariant questions == Present(rows[..i])
    {
      var row := TableLine(lines[i], rows[i]);
      SlicePush(rows, i);
      PresentPush(rows[..i], rows[i]);
      if row.Some? {
        questions := questions + [row.value];
      }
      i := i + 1;
    }
    assert rows[..i] == rows;
  }

  // ---- the route ----

  /** What the route received: no file, or a file with its size and the text the PDF reader gave (`None` when it threw). */
  datatype Upload = NoFile | File(size: nat, text: Option<string>)

  /** `POST`: 400 without a file or over 10 MiB, 500 when the PDF cannot be read, else the extracted pairs. */
  method Post(upload: Upload) returns (r: ParseExcel.Response)
    ensures upload.NoFile? ==> r == ParseExcel.Failed(400, ParseExcel.NoFileProvided)
    ensures upload.File? && upload.size > ParseExcel.MaxFileSize ==> r == ParseExcel.Failed(400, ParseExcel.FileTooLarge)
    ensures upload.File? && upload.size <= ParseExcel.MaxFileSize && upload.text.None? ==>
      r == ParseExcel.Failed(500, ParseExcel.ParseError)
    ensures r.Success? <==> upload.File? && upload.size <= ParseExcel.MaxFileSize && upload.text.Some?
    ensures r.Success? ==> forall e :: e in r.questions ==> Placed(e)
    ensures r.Success? ==> var lines := Lines(upload.text.value);
      r.questions == if Scanned(lines, AsWritten) == [] then TableRows(lines) else Scanned(lines, AsWritten)
  {
    match upload
    case NoFile => r := ParseExcel.Failed(400, ParseExcel.NoFileProvided);
    case File(size, text) =>
      if size > ParseExcel.MaxFileSize {
        r := ParseExcel.Failed(400, ParseExcel.FileTooLarge);
      } else if text.None? {
        r := ParseExcel.Failed(500, ParseExcel.ParseError);
      } else {
        var questions := ExtractQuestions(text.value);
        ScannedPlaced(Lines(text.value), AsWritten);
        r := ParseExcel.Success(questions);
      }
  }
}
