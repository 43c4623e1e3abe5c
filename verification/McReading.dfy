/** Reading the emitted multiple-choice list back: the question texts and,
    under each, the answer texts, in order. */
module McReading {
  import opened Wrappers
  import opened Html
  import opened MultipleChoiceChecker
  import opened XchkInstructions
  import opened XchkReading

  /** What the list shows of a question: its text and its answers' texts. */
  datatype Shown = Shown(text: string, answers: seq<string>)

  function ShownOf(q: Question): Shown
  {
    Shown(q.text, AnswerTexts(q.answers))
  }

  function AnswerTexts(answers: seq<Answer>): (r: seq<string>)
    ensures |r| == |answers|
    ensures forall j :: 0 <= j < |r| ==> r[j] == answers[j].text
  {
    seq(|answers|, j requires 0 <= j < |answers| => answers[j].text)
  }

  function Outline(mc: seq<Question>): (r: seq<Shown>)
    ensures |r| == |mc|
  {
    seq(|mc|, i requires 0 <= i < |mc| => ShownOf(mc[i]))
  }

  /** Question and answer texts that cannot be mistaken for markup. */
  predicate McReadable(mc: seq<Question>)
  {
    forall i :: 0 <= i < |mc| ==> QuestionReadable(mc[i])
  }

  predicate QuestionReadable(q: Question)
  {
    NoAngle(q.text) && forall j :: 0 <= j < |q.answers| ==> NoAngle(q.answers[j].text)
  }

  // ---------------------------------------------------------------------
  // Readers

  /** A text run if one comes next, else the empty text. */
  function ReadOptText(ps: seq<Piece>): (r: (string, seq<Piece>))
    ensures |r.1| <= |ps|
  {
    if ps != [] && ps[0].Text? then (ps[0].text, ps[1..]) else ("", ps)
  }

  function ReadAnswer(ps: seq<Piece>): (r: Option<(string, seq<Piece>)>)
    ensures r.Some? ==> |r.value.1| < |ps|
  {
    if ps == [] || ps[0] != Open("li") then None
    else
      var (t, rest) := ReadOptText(ps[1..]);
      if rest != [] && rest[0] == Close("li") then Some((t, rest[1..])) else None
  }

  function ReadAnswers(ps: seq<Piece>): (r: Option<(seq<string>, seq<Piece>)>)
    ensures r.Some? ==> |r.value.1| <= |ps|
    decreases |ps|
  {
    if ps != [] && ps[0] == Open("li") then
      match ReadAnswer(ps)
      case None => None
      case Some((t, rest)) =>
        match ReadAnswers(rest)
        case None => None
        case Some((ts, more)) => Some(([t] + ts, more))
    else Some(([], ps))
  }

  function ReadQuestion(ps: seq<Piece>): (r: Option<(Shown, seq<Piece>)>)
    ensures r.Some? ==> |r.value.1| < |ps|
  {
    if ps == [] || ps[0] != Open("li") then None
    else
      var (t, rest) := ReadOptText(ps[1..]);
      if rest == [] || rest[0] != Open("ol") then None
      else ReadQuestionAnswers(t, rest[1..])
  }

  /** The rest of a question after its text and `<ol>`. */
  function ReadQuestionAnswers(text: string, ps: seq<Piece>): (r: Option<(Shown, seq<Piece>)>)
    ensures r.Some? ==> |r.value.1| < |ps|
  {
    match ReadAnswers(ps)
    case None => None
    case Some((ts, rest)) =>
      if |rest| >= 2 && rest[0] == Close("ol") && rest[1] == Close("li") then Some((Shown(text, ts), rest[2..]))
      else None
  }

  function ReadQuestions(ps: seq<Piece>): (r: Option<(seq<Shown>, seq<Piece>)>)
    ensures r.Some? ==> |r.value.1| <= |ps|
    decreases |ps|
  {
    if ps != [] && ps[0] == Open("li") then
      match ReadQuestion(ps)
      case None => None
      case Some((q, rest)) =>
        match ReadQuestions(rest)
        case None => None
        case Some((qs, more)) => Some(([q] + qs, more))
    else Some(([], ps))
  }

  /** The questions of a whole multiple-choice list. */
  function ReadMcList(ps: seq<Piece>): Option<seq<Shown>>
  {
    if ps == [] || ps[0] != Open(McListTag) then None
    else match ReadQuestions(ps[1..])
    case None => None
    case Some((qs, rest)) => if rest == [Close("ol")] then Some(qs) else None
  }

  // ---------------------------------------------------------------------
  // Lexability

  /** A possibly empty text run between two tagged runs. */
  lemma TextPiecesBounded(t: string, before: seq<Piece>, after: seq<Piece>)
    requires NoAngle(t)
    requires Bounded(before) && before != [] && Bounded(after) && after != []
    ensures Bounded(before + TextPieces(t) + after)
  {
    var ps := before + TextPieces(t) + after;
    if t == "" {
      assert ps == before + after;
      BoundedAppend(before, after);
    } else {
      assert ValidPiece(Text(t));
      LexableAppend(before, [Text(t)]);
      LexableAppend(before + [Text(t)], after);
      assert ps[0] == before[0];
      assert ps[|ps| - 1] == after[|after| - 1];
    }
  }

  lemma TagsBounded()
    ensures Bounded([Open("li")]) && Bounded([Close("li")]) && Bounded([Open("ol")])
    ensures Bounded([Close("ol"), Close("li")]) && Bounded([Close("ol")])
  {
  }

  lemma ListTagBounded()
    ensures Bounded([Open(McListTag)])
  {
    assert ValidPiece(Open(McListTag));
  }

  lemma AnswerBounded(answer: Answer)
    requires NoAngle(answer.text)
    ensures Bounded(AnswerPieces(answer))
  {
    TagsBounded();
    TextPiecesBounded(answer.text, [Open("li")], [Close("li")]);
  }

  lemma {:induction false} AnswersBounded(answers: seq<Answer>)
    requires forall j :: 0 <= j < |answers| ==> NoAngle(answers[j].text)
    ensures Bounded(AnswersPieces(answers))
    decreases answers
  {
    if answers != [] {
      AnswerBounded(answers[0]);
      AnswersBounded(answers[1..]);
      BoundedAppend(AnswerPieces(answers[0]), AnswersPieces(answers[1..]));
      assert AnswersPieces(answers) == AnswerPieces(answers[0]) + AnswersPieces(answers[1..]);
    }
  }

  lemma QuestionPiecesShape(q: Question)
    ensures QuestionPieces(q)
         == [Open("li")] + TextPieces(q.text) + ([Open("ol")] + (AnswersPieces(q.answers) + [Close("ol"), Close("li")]))
  {
    var ab := [Open("li")] + TextPieces(q.text);
    var c := [Open("ol")];
    var d := AnswersPieces(q.answers);
    var e := [Close("ol"), Close("li")];
    assert QuestionPieces(q) == ((ab + c) + d) + e;
    AppendAssoc(ab, c, d);
    AppendAssoc(ab, c + d, e);
    AppendAssoc(c, d, e);
  }

  lemma QuestionBounded(q: Question)
    requires QuestionReadable(q)
    ensures Bounded(QuestionPieces(q))
  {
    var d := AnswersPieces(q.answers);
    var e := [Close("ol"), Close("li")];
    TagsBounded();
    AnswersBounded(q.answers);
    BoundedAppend(d, e);
    BoundedAppend([Open("ol")], d + e);
    TextPiecesBounded(q.text, [Open("li")], [Open("ol")] + (d + e));
    QuestionPiecesShape(q);
  }

  lemma {:induction false} QuestionsBounded(mc: seq<Question>)
    requires McReadable(mc)
    ensures Bounded(QuestionsPieces(mc))
    decreases mc
  {
    if mc != [] {
      QuestionBounded(mc[0]);
      QuestionsBounded(mc[1..]);
      BoundedAppend(QuestionPieces(mc[0]), QuestionsPieces(mc[1..]));
      assert QuestionsPieces(mc) == QuestionPieces(mc[0]) + QuestionsPieces(mc[1..]);
    }
  }

  lemma McLexable(mc: seq<Question>)
    requires McReadable(mc)
    ensures Lexable(McPieces(mc))
  {
    TagsBounded();
    ListTagBounded();
    QuestionsBounded(mc);
    BoundedAppend([Open(McListTag)], QuestionsPieces(mc));
    BoundedAppend([Open(McListTag)] + QuestionsPieces(mc), [Close("ol")]);
  }

  // ---------------------------------------------------------------------
  // Round trips

  lemma ReadOptTextPieces(t: string, rest: seq<Piece>)
    requires rest == [] || !rest[0].Text?
    ensures ReadOptText(TextPieces(t) + rest) == (t, rest)
  {
    if t != "" {
      assert (TextPieces(t) + rest)[1..] == rest;
    } else {
      assert TextPieces(t) + rest == rest;
    }
  }

  lemma ReadAnswerPieces(answer: Answer, rest: seq<Piece>)
    ensures ReadAnswer(AnswerPieces(answer) + rest) == Some((answer.text, rest))
  {
    var t := answer.text;
    var ps := AnswerPieces(answer) + rest;
    assert ps[1..] == TextPieces(t) + ([Close("li")] + rest);
    ReadOptTextPieces(t, [Close("li")] + rest);
    assert ([Close("li")] + rest)[1..] == rest;
  }

  lemma ReadAnswersStep(answer: Answer, rest: seq<Piece>, ts: seq<string>, more: seq<Piece>)
    requires ReadAnswer(AnswerPieces(answer) + rest) == Some((answer.text, rest)) && ReadAnswers(rest) == Some((ts, more))
    ensures ReadAnswers(AnswerPieces(answer) + rest) == Some(([answer.text] + ts, more))
  {
  }

  lemma AnswersPiecesCons(answers: seq<Answer>, rest: seq<Piece>)
    requires answers != []
    ensures AnswersPieces(answers) + rest == AnswerPieces(answers[0]) + (AnswersPieces(answers[1..]) + rest)
  {
    assert AnswersPieces(answers) == AnswerPieces(answers[0]) + AnswersPieces(answers[1..]);
    AppendAssoc(AnswerPieces(answers[0]), AnswersPieces(answers[1..]), rest);
  }

  lemma ReadAnswersStops(rest: seq<Piece>)
    requires rest == [] || rest[0] != Open("li")
    ensures ReadAnswers(rest) == Some(([], rest))
  {
  }

  lemma AnswerTextsCons(answers: seq<Answer>)
    requires answers != []
    ensures AnswerTexts(answers) == [answers[0].text] + AnswerTexts(answers[1..])
  {
  }

  lemma ReadAnswersCons(answers: seq<Answer>, rest: seq<Piece>)
    requires answers != []
    requires ReadAnswer(AnswerPieces(answers[0]) + (AnswersPieces(answers[1..]) + rest))
          == Some((answers[0].text, AnswersPieces(answers[1..]) + rest))
    requires ReadAnswers(AnswersPieces(answers[1..]) + rest) == Some((AnswerTexts(answers[1..]), rest))
    ensures ReadAnswers(AnswersPieces(answers) + rest) == Some((AnswerTexts(answers), rest))
  {
    ReadAnswersStep(answers[0], AnswersPieces(answers[1..]) + rest, AnswerTexts(answers[1..]), rest);
    AnswersPiecesCons(answers, rest);
    AnswerTextsCons(answers);
  }

  lemma {:induction false} ReadAnswersPieces(answers: seq<Answer>, rest: seq<Piece>)
    requires rest == [] || rest[0] != Open("li")
    ensures ReadAnswers(AnswersPieces(answers) + rest) == Some((AnswerTexts(answers), rest))
    decreases answers
  {
    if answers == [] {
      assert AnswersPieces(answers) + rest == rest;
      ReadAnswersStops(rest);
    } else {
      ReadAnswerPieces(answers[0], AnswersPieces(answers[1..]) + rest);
      ReadAnswersPieces(answers[1..], rest);
      ReadAnswersCons(answers, rest);
    }
  }

  lemma ReadQuestionAnswersPieces(q: Question, rest: seq<Piece>)
    ensures ReadQuestionAnswers(q.text, AnswersPieces(q.answers) + ([Close("ol"), Close("li")] + rest)) == Some((ShownOf(q), rest))
  {
    var tail := [Close("ol"), Close("li")] + rest;
    ReadAnswersPieces(q.answers, tail);
    assert tail[2..] == rest;
  }

  lemma ReadQuestionHead(t: string, body: seq<Piece>)
    ensures ReadQuestion([Open("li")] + (TextPieces(t) + ([Open("ol")] + body))) == ReadQuestionAnswers(t, body)
  {
    var ps := [Open("li")] + (TextPieces(t) + ([Open("ol")] + body));
    assert ps[1..] == TextPieces(t) + ([Open("ol")] + body);
    ReadOptTextPieces(t, [Open("ol")] + body);
    assert ([Open("ol")] + body)[1..] == body;
  }

  lemma QuestionPiecesSplit(q: Question, rest: seq<Piece>)
    ensures QuestionPieces(q) + rest
         == [Open("li")] + (TextPieces(q.text) + ([Open("ol")] + (AnswersPieces(q.answers) + ([Close("ol"), Close("li")] + rest))))
  {
    var t := TextPieces(q.text);
    var d := AnswersPieces(q.answers);
    var e := [Close("ol"), Close("li")];
    var x := [Open("ol")] + (d + e);
    QuestionPiecesShape(q);
    AppendAssoc([Open("li")] + t, x, rest);
    AppendAssoc([Open("li")], t, x + rest);
    AppendAssoc([Open("ol")], d + e, rest);
    AppendAssoc(d, e, rest);
  }

  lemma ReadQuestionPieces(q: Question, rest: seq<Piece>)
    ensures ReadQuestion(QuestionPieces(q) + rest) == Some((ShownOf(q), rest))
  {
    QuestionPiecesSplit(q, rest);
    ReadQuestionHead(q.text, AnswersPieces(q.answers) + ([Close("ol"), Close("li")] + rest));
    ReadQuestionAnswersPieces(q, rest);
  }

  lemma ReadQuestionsStep(q: Question, rest: seq<Piece>, qs: seq<Shown>, more: seq<Piece>)
    requires ReadQuestion(QuestionPieces(q) + rest) == Some((ShownOf(q), rest)) && ReadQuestions(rest) == Some((qs, more))
    ensures ReadQuestions(QuestionPieces(q) + rest) == Some(([ShownOf(q)] + qs, more))
  {
  }

  lemma QuestionsPiecesCons(mc: seq<Question>, rest: seq<Piece>)
    requires mc != []
    ensures QuestionsPieces(mc) + rest == QuestionPieces(mc[0]) + (QuestionsPieces(mc[1..]) + rest)
  {
    assert QuestionsPieces(mc) == QuestionPieces(mc[0]) + QuestionsPieces(mc[1..]);
    AppendAssoc(QuestionPieces(mc[0]), QuestionsPieces(mc[1..]), rest);
  }

  lemma ReadQuestionsStops(rest: seq<Piece>)
    requires rest == [] || rest[0] != Open("li")
    ensures ReadQuestions(rest) == Some(([], rest))
  {
  }

  lemma OutlineCons(mc: seq<Question>)
    requires mc != []
    ensures Outline(mc) == [ShownOf(mc[0])] + Outline(mc[1..])
  {
  }

  lemma ReadQuestionsCons(mc: seq<Question>, rest: seq<Piece>)
    requires mc != []
    requires ReadQuestion(QuestionPieces(mc[0]) + (QuestionsPieces(mc[1..]) + rest))
          == Some((ShownOf(mc[0]), QuestionsPieces(mc[1..]) + rest))
    requires ReadQuestions(QuestionsPieces(mc[1..]) + rest) == Some((Outline(mc[1..]), rest))
    ensures ReadQuestions(QuestionsPieces(mc) + rest) == Some((Outline(mc), rest))
  {
    ReadQuestionsStep(mc[0], QuestionsPieces(mc[1..]) + rest, Outline(mc[1..]), rest);
    QuestionsPiecesCons(mc, rest);
    OutlineCons(mc);
  }

  lemma {:induction false} ReadQuestionsPieces(mc: seq<Question>, rest: seq<Piece>)
    requires rest == [] || rest[0] != Open("li")
    ensures ReadQuestions(QuestionsPieces(mc) + rest) == Some((Outline(mc), rest))
    decreases mc
  {
    if mc == [] {
      assert QuestionsPieces(mc) + rest == rest;
      ReadQuestionsStops(rest);
    } else {
      ReadQuestionPieces(mc[0], QuestionsPieces(mc[1..]) + rest);
      ReadQuestionsPieces(mc[1..], rest);
      ReadQuestionsCons(mc, rest);
    }
  }

  lemma ReadMcPieces(mc: seq<Question>)
    ensures ReadMcList(McPieces(mc)) == Some(Outline(mc))
  {
    var ps := McPieces(mc);
    assert ps[1..] == QuestionsPieces(mc) + [Close("ol")];
    ReadQuestionsPieces(mc, [Close("ol")]);
  }

  /** The list's text reads back as the questions and answers it shows. */
  lemma McRoundTrip(mc: seq<Question>)
    requires McReadable(mc)
    ensures ReadMcList(Lex(McToOl(mc))) == Some(Outline(mc))
  {
    McLexable(mc);
    LexRender(McPieces(mc));
    ReadMcPieces(mc);
  }

  /** With autoescaping on, the list reads back as the escaped texts, and
      unescaping each gives the question's and answers' own texts. */
  lemma McFilterRoundTrip(mc: seq<Question>)
    ensures ReadMcList(Lex(McFilter(mc, true))) == Some(Outline(EscapeMc(mc)))
    ensures var o := Outline(EscapeMc(mc));
            && |o| == |mc|
            && forall i :: 0 <= i < |mc| ==>
                 && Unescape(o[i].text) == mc[i].text
                 && |o[i].answers| == |mc[i].answers|
                 && forall j :: 0 <= j < |mc[i].answers| ==> Unescape(o[i].answers[j]) == mc[i].answers[j].text
  {
    var e := EscapeMc(mc);
    forall i | 0 <= i < |e| ensures QuestionReadable(e[i]) {
      EscapeNoAngle(mc[i].text);
      forall j | 0 <= j < |e[i].answers| ensures NoAngle(e[i].answers[j].text) {
        EscapeNoAngle(mc[i].answers[j].text);
      }
    }
    McRoundTrip(e);
    forall i, j | 0 <= i < |mc| && 0 <= j < |mc[i].answers|
      ensures Unescape(Outline(e)[i].answers[j]) == mc[i].answers[j].text
    {
      UnescapeEscape(mc[i].answers[j].text);
    }
    forall i | 0 <= i < |mc| ensures Unescape(Outline(e)[i].text) == mc[i].text {
      UnescapeEscape(mc[i].text);
    }
  }
}
