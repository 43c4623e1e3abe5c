/** The listener that walks the `qa` groups of a parsed multiple-choice file
    and collects the mistakes it finds, modelled as a left fold over the
    groups in file order. */
module MultipleChoiceChecker {
  import opened Wrappers
  import opened Faults
  import opened Text
  import opened MultipleChoiceParser

  /** One model answer. An empty hint means the answer has none: the source
      tests the hint for truthiness, so an absent and an empty hint behave
      alike. */
  datatype Answer = Answer(text: string, correct: bool, hint: string)

  /** One model question: its text (position 0 in the source's list) and its
      answers (positions 1 and up). */
  datatype Question = Question(text: string, answers: seq<Answer>)

  datatype McError =
      /** The question number did not follow the previous one. */
    | OutOfOrder(expected: int, found: nat)
      /** A hinted answer was wrongly left out or wrongly chosen. */
    | Hint(question: nat, hint: string)
      /** The question number is not a question of the model. */
    | InvalidIndex(question: nat, questions: nat)

  /** The text the source appends to its error list for each mistake. */
  function Message(e: McError): string
  {
    match e
    case OutOfOrder(expected, found) =>
      "Vraag " + IntText(expected) + " werd verwacht op de plaats waar " + Decimal(found) + " voorkomt."
    case Hint(question, hint) =>
      "Vraag " + Decimal(question) + ": " + hint
    case InvalidIndex(question, questions) =>
      "Vraag " + Decimal(question) + " is geen geldige index. Er zijn " + Decimal(questions)
      + " vragen en deze worden geteld vanaf 1."
  }

  /** The listener's state: the question number it expects next and the
      mistakes collected so far. */
  datatype Checker = Checker(expected: int, errors: seq<McError>)

  const Start: Checker := Checker(1, [])

  function Lower(l: Letter): (c: char)
    ensures 'a' <= c <= 'z'
  {
    if 'A' <= l <= 'Z' then (l as int - 'A' as int + 'a' as int) as char else l
  }

  /** The 1-based answer index a letter names, ignoring case. */
  function AnswerIndex(l: Letter): (i: int)
    ensures 1 <= i <= 26
  {
    Lower(l) as int - 'a' as int + 1
  }

  function Chosen(letters: seq<Letter>): (r: seq<int>)
    ensures |r| == |letters|
    ensures forall i :: 0 <= i < |r| ==> r[i] == AnswerIndex(letters[i])
  {
    seq(|letters|, i requires 0 <= i < |letters| => AnswerIndex(letters[i]))
  }

  /** The indexes, counted from `first`, of the correct answers, ascending. */
  function CorrectFrom(answers: seq<Answer>, first: nat): (r: seq<nat>)
    ensures forall a :: a in r <==> first <= a < first + |answers| && answers[a - first].correct
    decreases |answers|
  {
    if answers == [] then []
    else (if answers[0].correct then [first] else []) + CorrectFrom(answers[1..], first + 1)
  }

  /** The 1-based indexes of the correct answers of a question. */
  function Correct(q: Question): (r: seq<nat>)
    ensures forall a :: a in r <==> 1 <= a <= |q.answers| && q.answers[a - 1].correct
  {
    CorrectFrom(q.answers, 1)
  }

  /** The indexes counted from `first` are strictly ascending, hence
      without repeats, as `enumerate` yields them. */
  lemma {:induction false} CorrectFromAscending(answers: seq<Answer>, first: nat)
    ensures forall i, j :: 0 <= i < j < |CorrectFrom(answers, first)| ==>
              CorrectFrom(answers, first)[i] < CorrectFrom(answers, first)[j]
    decreases |answers|
  {
    if answers != [] {
      CorrectFromAscending(answers[1..], first + 1);
      var rest := CorrectFrom(answers[1..], first + 1);
      assert forall k :: 0 <= k < |rest| ==> rest[k] in rest;
    }
  }

  /** The model indexes of a question are strictly ascending. */
  lemma CorrectAscending(q: Question)
    ensures forall i, j :: 0 <= i < j < |Correct(q)| ==> Correct(q)[i] < Correct(q)[j]
  {
    CorrectFromAscending(q.answers, 1);
  }

  /** The elements of `s` that `keep` accepts, in their order and with their
      repeats. */
  function Select(s: seq<int>, keep: int -> bool): (r: seq<int>)
    ensures |r| <= |s|
    ensures forall i :: 0 <= i < |r| ==> keep(r[i])
    decreases |s|
  {
    if s == [] then [] else (if keep(s[0]) then [s[0]] else []) + Select(s[1..], keep)
  }

  /** `Select` keeps exactly the elements `keep` accepts. */
  lemma {:induction false} SelectMembers(s: seq<int>, keep: int -> bool)
    ensures forall x :: x in Select(s, keep) <==> x in s && keep(x)
    decreases |s|
  {
    if s != [] {
      SelectMembers(s[1..], keep);
      assert s == [s[0]] + s[1..];
    }
  }

  /** Answer `a` of `q` exists and carries a hint. */
  predicate Hinted(q: Question, a: int)
  {
    1 <= a <= |q.answers| && q.answers[a - 1].hint != ""
  }

  /** The first loop: one hint for each correct answer that was not chosen,
      provided that answer has a hint, in the order of `correct`. */
  function MissingAnswers(q: Question, number: nat, correct: seq<nat>, chosen: seq<int>): (r: seq<McError>)
    requires forall a :: a in correct ==> 1 <= a <= |q.answers|
    ensures forall e :: e in r ==> e.Hint?
    ensures r == [] <==> forall a :: a in correct && a !in chosen ==> q.answers[a - 1].hint == ""
    decreases |correct|
  {
    if correct == [] then []
    else
      var a := correct[0];
      assert a in correct;
      assert forall b :: b in correct <==> b == a || b in correct[1..];
      var rest := MissingAnswers(q, number, correct[1..], chosen);
      if a !in chosen && q.answers[a - 1].hint != "" then [Hint(number, q.answers[a - 1].hint)] + rest
      else rest
  }

  /** The second loop: one hint for each chosen answer that is not correct,
      provided that answer has a hint, in the order of `chosen` and once per
      time the answer is chosen. Looking up the hint of a chosen index beyond
      the model answers raises. */
  function WrongAnswers(q: Question, number: nat, correct: seq<nat>, chosen: seq<int>): (r: Result<seq<McError>, Fault>)
    requires forall a :: a in correct ==> 1 <= a <= |q.answers|
    requires forall a :: a in chosen ==> 1 <= a
    ensures r.Success? ==> forall e :: e in r.value ==> e.Hint?
    ensures r.Failure? <==> exists a :: a in chosen && a > |q.answers|
    ensures r == Success([]) <==>
              forall a :: a in chosen ==> a in correct || (a <= |q.answers| && q.answers[a - 1].hint == "")
    decreases |chosen|
  {
    if chosen == [] then Success([])
    else
      var a := chosen[0];
      assert a in chosen && 1 <= a;
      assert forall b :: b in chosen <==> b == a || b in chosen[1..];
      if a in correct then
        WrongAnswers(q, number, correct, chosen[1..])
      else if a > |q.answers| then
        assert a in chosen && a > |q.answers|;
        Failure(AnswerBeyondModel(number, a))
      else
        var rest :- WrongAnswers(q, number, correct, chosen[1..]);
        if q.answers[a - 1].hint != "" then Success([Hint(number, q.answers[a - 1].hint)] + rest)
        else Success(rest)
  }

  /** The hints of the answers `owed`, one per entry and in its order. */
  predicate HintsFor(r: seq<McError>, q: Question, number: nat, owed: seq<int>)
  {
    |r| == |owed| &&
    forall k :: 0 <= k < |r| ==>
      1 <= owed[k] <= |q.answers| && r[k] == Hint(number, q.answers[owed[k] - 1].hint)
  }

  /** Whether a correct answer is owed a hint: it was not chosen and has one. */
  function LeftOut(q: Question, chosen: seq<int>): int -> bool
  {
    a => a !in chosen && Hinted(q, a)
  }

  /** Whether a chosen answer is owed a hint: it is not correct and has one. */
  function WronglyChosen(q: Question, correct: seq<nat>): int -> bool
  {
    a => a !in correct && Hinted(q, a)
  }

  lemma HintsForCons(r: seq<McError>, q: Question, number: nat, owed: seq<int>, a: int)
    requires HintsFor(r, q, number, owed) && 1 <= a <= |q.answers|
    ensures HintsFor([Hint(number, q.answers[a - 1].hint)] + r, q, number, [a] + owed)
  {
  }

  /** The first loop reports exactly the hinted correct answers that were
      not chosen, in the order of `correct` (ascending, as `Correct` gives
      it). */
  lemma {:induction false} MissingAnswersAreOwed(q: Question, number: nat, correct: seq<nat>, chosen: seq<int>)
    requires forall a :: a in correct ==> 1 <= a <= |q.answers|
    ensures HintsFor(MissingAnswers(q, number, correct, chosen), q, number, Select(correct, LeftOut(q, chosen)))
    decreases |correct|
  {
    if correct != [] {
      var a := correct[0];
      assert a in correct;
      assert forall b :: b in correct[1..] ==> b in correct;
      MissingAnswersAreOwed(q, number, correct[1..], chosen);
      var keep := LeftOut(q, chosen);
      var rest := MissingAnswers(q, number, correct[1..], chosen);
      if keep(a) {
        assert Select(correct, keep) == [a] + Select(correct[1..], keep);
        assert MissingAnswers(q, number, correct, chosen) == [Hint(number, q.answers[a - 1].hint)] + rest;
        HintsForCons(rest, q, number, Select(correct[1..], keep), a);
      } else {
        assert Select(correct, keep) == Select(correct[1..], keep);
        assert MissingAnswers(q, number, correct, chosen) == rest;
      }
    }
  }

  /** One step of the second loop, for the first chosen answer. */
  lemma WrongAnswersStep(q: Question, number: nat, correct: seq<nat>, chosen: seq<int>)
    requires forall a :: a in correct ==> 1 <= a <= |q.answers|
    requires forall a :: a in chosen ==> 1 <= a
    requires chosen != []
    ensures 1 <= chosen[0]
    ensures forall a :: a in chosen[1..] ==> 1 <= a
    ensures var a := chosen[0];
            var r := WrongAnswers(q, number, correct, chosen[1..]);
            WrongAnswers(q, number, correct, chosen) ==
              if a in correct then r
              else if a > |q.answers| then Failure(AnswerBeyondModel(number, a))
              else if r.Failure? then r
              else if q.answers[a - 1].hint != "" then Success([Hint(number, q.answers[a - 1].hint)] + r.value)
              else r
  {
    assert chosen[0] in chosen;
    assert forall b :: b in chosen[1..] ==> b in chosen;
  }

  /** The second loop, when it does not raise, reports exactly the hinted
      chosen answers that are not correct, in the order chosen and once per
      choice. */
  lemma {:induction false} WrongAnswersAreOwed(q: Question, number: nat, correct: seq<nat>, chosen: seq<int>)
    requires forall a :: a in correct ==> 1 <= a <= |q.answers|
    requires forall a :: a in chosen ==> 1 <= a
    requires WrongAnswers(q, number, correct, chosen).Success?
    ensures HintsFor(WrongAnswers(q, number, correct, chosen).value, q, number, Select(chosen, WronglyChosen(q, correct)))
    decreases |chosen|
  {
    if chosen != [] {
      var a := chosen[0];
      var keep := WronglyChosen(q, correct);
      WrongAnswersStep(q, number, correct, chosen);
      var r := WrongAnswers(q, number, correct, chosen[1..]);
      WrongAnswersAreOwed(q, number, correct, chosen[1..]);
      if keep(a) {
        assert Select(chosen, keep) == [a] + Select(chosen[1..], keep);
        HintsForCons(r.value, q, number, Select(chosen[1..], keep), a);
      } else {
        assert Select(chosen, keep) == Select(chosen[1..], keep);
      }
    }
  }

  function OutOfOrderCount(errors: seq<McError>): nat
    decreases |errors|
  {
    if errors == [] then 0
    else (if errors[0].OutOfOrder? then 1 else 0) + OutOfOrderCount(errors[1..])
  }

  lemma {:induction false} OutOfOrderCountAppend(a: seq<McError>, b: seq<McError>)
    ensures OutOfOrderCount(a + b) == OutOfOrderCount(a) + OutOfOrderCount(b)
    decreases |a|
  {
    if a != [] {
      assert (a + b)[1..] == a[1..] + b;
      OutOfOrderCountAppend(a[1..], b);
    } else {
      assert a + b == b;
    }
  }

  lemma {:induction false} NoOutOfOrderInHints(hs: seq<McError>)
    requires forall e :: e in hs ==> e.Hint?
    ensures OutOfOrderCount(hs) == 0
    decreases |hs|
  {
    if hs != [] {
      assert hs[0] in hs;
      NoOutOfOrderInHints(hs[1..]);
    }
  }

  /** The mistake recorded when a question number is not the expected one. */
  function Ordering(expected: int, number: nat): seq<McError>
  {
    if number != expected then [OutOfOrder(expected, number)] else []
  }

  /** `enterQa`: the step of the walk for one `qa` group. */
  function EnterQa(mc: seq<Question>, st: Checker, qa: Qa): (r: Result<Checker, Fault>)
    ensures r.Success? ==> r.value.expected == qa.number + 1
    ensures r.Success? ==> st.errors <= r.value.errors
    ensures r.Success? ==>
              OutOfOrderCount(r.value.errors) == OutOfOrderCount(st.errors) + (if qa.number == st.expected then 0 else 1)
    ensures r.Failure? <==>
              0 < qa.number <= |mc| && exists a :: a in Chosen(qa.letters) && a > |mc[qa.number - 1].answers|
  {
    var errors := st.errors + Ordering(st.expected, qa.number);
    OutOfOrderCountAppend(st.errors, Ordering(st.expected, qa.number));
    if 0 < qa.number <= |mc| then
      var q := mc[qa.number - 1];
      var chosen := Chosen(qa.letters);
      var correct := Correct(q);
      var wrong :- WrongAnswers(q, qa.number, correct, chosen);
      var missing := MissingAnswers(q, qa.number, correct, chosen);
      NoOutOfOrderInHints(missing);
      NoOutOfOrderInHints(wrong);
      OutOfOrderCountAppend(missing, wrong);
      OutOfOrderCountAppend(errors, missing + wrong);
      assert errors + missing + wrong == errors + (missing + wrong);
      Success(Checker(qa.number + 1, errors + missing + wrong))
    else
      OutOfOrderCountAppend(errors, [InvalidIndex(qa.number, |mc|)]);
      Success(Checker(qa.number + 1, errors + [InvalidIndex(qa.number, |mc|)]))
  }

  /** For a question of the model, `enterQa` appends, in this order, the
      ordering mistake if the number is unexpected, then one hint per hinted
      correct answer that was not chosen (in index order), then one hint per
      hinted chosen answer that is not correct (in letter order). */
  lemma EnterQaAppends(mc: seq<Question>, st: Checker, qa: Qa)
    requires 0 < qa.number <= |mc|
    requires EnterQa(mc, st, qa).Success?
    ensures var q := mc[qa.number - 1];
            var chosen := Chosen(qa.letters);
            var errors := EnterQa(mc, st, qa).value.errors;
            var head := st.errors + Ordering(st.expected, qa.number);
            var k := |head| + |Select(Correct(q), LeftOut(q, chosen))|;
            && k <= |errors|
            && errors[..|head|] == head
            && HintsFor(errors[|head|..k], q, qa.number, Select(Correct(q), LeftOut(q, chosen)))
            && HintsFor(errors[k..], q, qa.number, Select(chosen, WronglyChosen(q, Correct(q))))
  {
    var q := mc[qa.number - 1];
    var chosen := Chosen(qa.letters);
    var correct := Correct(q);
    var head := st.errors + Ordering(st.expected, qa.number);
    var m := MissingAnswers(q, qa.number, correct, chosen);
    var w := WrongAnswers(q, qa.number, correct, chosen).value;
    assert EnterQa(mc, st, qa).value.errors == head + m + w;
    MissingAnswersAreOwed(q, qa.number, correct, chosen);
    WrongAnswersAreOwed(q, qa.number, correct, chosen);
    var errors := head + m + w;
    assert errors[..|head|] == head;
    assert errors[|head|..|head| + |m|] == m;
    assert errors[|head| + |m|..] == w;
  }

  /** The walk over the groups in file order, starting from `st`. */
  function Fold(mc: seq<Question>, st: Checker, qas: seq<Qa>): (r: Result<Checker, Fault>)
    ensures r.Success? ==> st.errors <= r.value.errors
    ensures r.Success? && qas != [] ==> r.value.expected == qas[|qas| - 1].number + 1
    decreases |qas|
  {
    if qas == [] then Success(st)
    else
      var next :- EnterQa(mc, st, qas[0]);
      Fold(mc, next, qas[1..])
  }

  /** The error list after walking a whole file; the answer check passes
      exactly when it is empty. Ordering mistakes are counted against the
      previous group's number, not against the position: there is one per
      group that breaks the run. */
  function Walk(mc: seq<Question>, qas: seq<Qa>): (r: Result<seq<McError>, Fault>)
    ensures r.Success? ==> OutOfOrderCount(r.value) == Misplaced(1, qas)
  {
    var final :- Fold(mc, Start, qas);
    FoldOrdering(mc, Start, qas);
    Success(final.errors)
  }

  /** A question is answered without any recorded mistake: no chosen index
      lies beyond the model answers, and every answer whose choice disagrees
      with its truth flag has no hint. */
  predicate Clean(q: Question, letters: seq<Letter>)
  {
    var chosen := Chosen(letters);
    && (forall a :: a in chosen ==> a <= |q.answers|)
    && (forall j :: 0 <= j < |q.answers| ==>
          q.answers[j].correct != (j + 1 in chosen) ==> q.answers[j].hint == "")
  }

  /** A group adds no mistake exactly when its number is the expected one,
      names a question of the model, and its answers are clean. */
  lemma EnterQaAddsNothing(mc: seq<Question>, st: Checker, qa: Qa)
    ensures EnterQa(mc, st, qa) == Success(Checker(qa.number + 1, st.errors))
            <==> qa.number == st.expected && 0 < qa.number <= |mc| && Clean(mc[qa.number - 1], qa.letters)
  {
    var r := EnterQa(mc, st, qa);
    var errors := st.errors + Ordering(st.expected, qa.number);
    if 0 < qa.number <= |mc| {
      var q := mc[qa.number - 1];
      var chosen := Chosen(qa.letters);
      var correct := Correct(q);
      var w := WrongAnswers(q, qa.number, correct, chosen);
      var missing := MissingAnswers(q, qa.number, correct, chosen);
      if qa.number == st.expected && Clean(q, qa.letters) {
        assert forall a :: a in chosen ==> a in correct || (a <= |q.answers| && q.answers[a - 1].hint == "");
        assert w == Success([]);
        assert missing == [];
        assert Ordering(st.expected, qa.number) == [];
        assert r == Success(Checker(qa.number + 1, errors + missing + []));
        assert errors + missing + [] == st.errors;
      }
      if r == Success(Checker(qa.number + 1, st.errors)) {
        assert w.Success?;
        assert r.value.errors == errors + missing + w.value;
        assert |Ordering(st.expected, qa.number)| == 0 && |missing| == 0 && |w.value| == 0;
        assert qa.number == st.expected;
        assert w == Success([]);
        forall j | 0 <= j < |q.answers| && q.answers[j].correct != (j + 1 in chosen)
          ensures q.answers[j].hint == ""
        {
          if q.answers[j].correct {
            assert j + 1 in correct;
          } else {
            assert j + 1 !in correct;
          }
        }
      }
    } else {
      assert |r.value.errors| > |st.errors|;
    }
  }

  /** The numbers of `qas` run on from `expected` one by one, each names a
      question of the model, and each group's answers are clean. */
  predicate Contiguous(mc: seq<Question>, expected: int, qas: seq<Qa>)
    decreases |qas|
  {
    qas == [] ||
    (&& qas[0].number == expected
     && 0 < expected <= |mc|
     && Clean(mc[expected - 1], qas[0].letters)
     && Contiguous(mc, expected + 1, qas[1..]))
  }

  lemma {:induction false} ContiguousAt(mc: seq<Question>, expected: int, qas: seq<Qa>)
    ensures Contiguous(mc, expected, qas) <==>
              forall i :: 0 <= i < |qas| ==>
                qas[i].number == expected + i && 0 < expected + i <= |mc| && Clean(mc[expected + i - 1], qas[i].letters)
    decreases |qas|
  {
    if qas != [] {
      ContiguousAt(mc, expected + 1, qas[1..]);
      if Contiguous(mc, expected, qas) {
        forall i | 0 <= i < |qas|
          ensures qas[i].number == expected + i && 0 < expected + i <= |mc| && Clean(mc[expected + i - 1], qas[i].letters)
        {
          if i > 0 {
            assert qas[i] == qas[1..][i - 1];
          }
        }
      }
      if forall i :: 0 <= i < |qas| ==>
           qas[i].number == expected + i && 0 < expected + i <= |mc| && Clean(mc[expected + i - 1], qas[i].letters)
      {
        forall i | 0 <= i < |qas[1..]|
          ensures qas[1..][i].number == expected + 1 + i && 0 < expected + 1 + i <= |mc|
          ensures Clean(mc[expected + 1 + i - 1], qas[1..][i].letters)
        {
          assert qas[1..][i] == qas[i + 1];
        }
      }
    }
  }

  lemma {:induction false} FoldAddsNothing(mc: seq<Question>, st: Checker, qas: seq<Qa>)
    ensures (Fold(mc, st, qas).Success? && Fold(mc, st, qas).value.errors == st.errors)
            <==> Contiguous(mc, st.expected, qas)
    decreases |qas|
  {
    if qas != [] {
      var qa := qas[0];
      EnterQaAddsNothing(mc, st, qa);
      var r1 := EnterQa(mc, st, qa);
      if r1.Success? {
        var st' := r1.value;
        FoldAddsNothing(mc, st', qas[1..]);
        var r := Fold(mc, st, qas);
        assert r == Fold(mc, st', qas[1..]);
        if r.Success? && r.value.errors == st.errors {
          assert st.errors <= st'.errors <= r.value.errors;
          assert st'.errors == st.errors;
        }
      }
    }
  }

  /** The answer check passes exactly when the groups are numbered 1, 2, 3, ...
      without exceeding the model's questions and every group's answers are
      clean (in particular, no chosen answer lies beyond the model). */
  lemma WalkPasses(mc: seq<Question>, qas: seq<Qa>)
    ensures Walk(mc, qas) == Success([])
            <==> forall i :: 0 <= i < |qas| ==> qas[i].number == i + 1 && i + 1 <= |mc| && Clean(mc[i], qas[i].letters)
  {
    FoldAddsNothing(mc, Start, qas);
    ContiguousAt(mc, 1, qas);
    assert Walk(mc, qas) == Success([]) <==> Contiguous(mc, 1, qas);
    forall i | 0 <= i < |qas|
      ensures (qas[i].number == 1 + i && 0 < 1 + i <= |mc| && Clean(mc[1 + i - 1], qas[i].letters))
              <==> (qas[i].number == i + 1 && i + 1 <= |mc| && Clean(mc[i], qas[i].letters))
    {
      assert 1 + i - 1 == i;
    }
  }

  /** A group whose number is right, names a model question, and whose set of
      chosen answers is exactly the set of correct answers adds no mistake,
      whatever the hints. */
  lemma RightAnswersAddNothing(mc: seq<Question>, st: Checker, qa: Qa)
    requires qa.number == st.expected && 0 < qa.number <= |mc|
    requires forall a :: a in Chosen(qa.letters) <==> a in Correct(mc[qa.number - 1])
    ensures EnterQa(mc, st, qa) == Success(Checker(qa.number + 1, st.errors))
  {
    EnterQaAddsNothing(mc, st, qa);
    var q := mc[qa.number - 1];
    var chosen := Chosen(qa.letters);
    forall j | 0 <= j < |q.answers|
      ensures q.answers[j].correct == (j + 1 in chosen)
    {
      if q.answers[j].correct {
        assert j + 1 in Correct(q);
      }
    }
  }

  /** The number of groups whose number is not one more than the previous
      group's (the first group is compared with 1). */
  function Misplaced(expected: int, qas: seq<Qa>): nat
    decreases |qas|
  {
    if qas == [] then 0
    else (if qas[0].number == expected then 0 else 1) + Misplaced(qas[0].number + 1, qas[1..])
  }

  lemma {:induction false} FoldOrdering(mc: seq<Question>, st: Checker, qas: seq<Qa>)
    requires Fold(mc, st, qas).Success?
    ensures OutOfOrderCount(Fold(mc, st, qas).value.errors) == OutOfOrderCount(st.errors) + Misplaced(st.expected, qas)
    decreases |qas|
  {
    if qas != [] {
      var st' := EnterQa(mc, st, qas[0]).value;
      FoldOrdering(mc, st', qas[1..]);
    }
  }

  lemma {:induction false} MisplacedNone(expected: int, qas: seq<Qa>)
    requires forall i :: 0 <= i < |qas| ==> qas[i].number == expected + i
    ensures Misplaced(expected, qas) == 0
    decreases |qas|
  {
    if qas != [] {
      assert qas[0].number == expected;
      forall i | 0 <= i < |qas[1..]|
        ensures qas[1..][i].number == expected + 1 + i
      {
        assert qas[1..][i] == qas[i + 1];
      }
      MisplacedNone(expected + 1, qas[1..]);
    }
  }

  lemma {:induction false} MisplacedJump(expected: int, qas: seq<Qa>, k: nat)
    requires k < |qas|
    requires forall i :: 0 <= i < k ==> qas[i].number == expected + i
    requires qas[k].number != expected + k
    requires forall i :: k < i < |qas| ==> qas[i].number == qas[k].number + (i - k)
    ensures Misplaced(expected, qas) == 1
    decreases k
  {
    if k == 0 {
      forall i | 0 <= i < |qas[1..]|
        ensures qas[1..][i].number == qas[0].number + 1 + i
      {
        assert qas[1..][i] == qas[i + 1];
      }
      MisplacedNone(qas[0].number + 1, qas[1..]);
    } else {
      assert qas[0].number == expected;
      forall i | 0 <= i < k - 1
        ensures qas[1..][i].number == expected + 1 + i
      {
        assert qas[1..][i] == qas[i + 1];
      }
      forall i | k - 1 < i < |qas[1..]|
        ensures qas[1..][i].number == qas[1..][k - 1].number + (i - (k - 1))
      {
        assert qas[1..][i] == qas[i + 1];
      }
      MisplacedJump(expected + 1, qas[1..], k - 1);
    }
  }

  /** A single jump in the numbering (1, 2, 7, 8, 9, ...) yields exactly one
      ordering mistake: the expected number is reset after every group, so the
      groups after the jump are not reported again. */
  lemma JumpIsOneOrderingError(mc: seq<Question>, qas: seq<Qa>, k: nat)
    requires k < |qas|
    requires forall i :: 0 <= i < k ==> qas[i].number == i + 1
    requires qas[k].number != k + 1
    requires forall i :: k < i < |qas| ==> qas[i].number == qas[k].number + (i - k)
    requires Walk(mc, qas).Success?
    ensures OutOfOrderCount(Walk(mc, qas).value) == 1
  {
    MisplacedJump(1, qas, k);
  }

  /** A number that is not a question of the model adds exactly one invalid
      index mistake, after the ordering mistake if there is one, and no hints. */
  lemma OutOfRangeQuestion(mc: seq<Question>, st: Checker, qa: Qa)
    requires !(0 < qa.number <= |mc|)
    ensures EnterQa(mc, st, qa).Success?
    ensures var errors := EnterQa(mc, st, qa).value.errors;
            var added := errors[|st.errors|..];
            && |added| == (if qa.number == st.expected then 1 else 2)
            && added[|added| - 1] == InvalidIndex(qa.number, |mc|)
            && forall e :: e in added ==> !e.Hint?
  {
    var errors := EnterQa(mc, st, qa).value.errors;
    assert errors == st.errors + Ordering(st.expected, qa.number) + [InvalidIndex(qa.number, |mc|)];
    assert errors[|st.errors|..] == Ordering(st.expected, qa.number) + [InvalidIndex(qa.number, |mc|)];
  }

  /** Letters name answers case-insensitively: two letters name the same
      answer exactly when they are the same letter up to case, and the index
      is the letter's position in the alphabet. */
  lemma AnswerIndexIgnoresCase(l1: Letter, l2: Letter)
    ensures AnswerIndex(l1) == AnswerIndex(l2) <==> Lower(l1) == Lower(l2)
    ensures "abcdefghijklmnopqrstuvwxyz"[AnswerIndex(l1) - 1] == Lower(l1)
  {
  }

  /** The correct indexes of the example questions, unfolded one answer at
      a time. */
  lemma CorrectOfTwo(q: Question)
    requires |q.answers| == 2
    ensures Correct(q) == (if q.answers[0].correct then [1] else []) + (if q.answers[1].correct then [2] else [])
  {
    assert CorrectFrom(q.answers[1..][1..], 3) == [];
    assert CorrectFrom(q.answers[1..], 2) == (if q.answers[1].correct then [2] else []);
  }

  lemma CorrectOfThree(q: Question)
    requires |q.answers| == 3
    ensures Correct(q) == (if q.answers[0].correct then [1] else []) + (if q.answers[1].correct then [2] else []) + (if q.answers[2].correct then [3] else [])
  {
    assert CorrectFrom(q.answers[1..][1..][1..], 4) == [];
    assert CorrectFrom(q.answers[1..][1..], 3) == (if q.answers[2].correct then [3] else []);
    assert CorrectFrom(q.answers[1..], 2) == (if q.answers[1].correct then [2] else []) + (if q.answers[2].correct then [3] else []);
  }

  /** The file `1 a / 2 bc` against a model whose first question has `a` and
      whose second has `b` and `c` as correct answers yields no mistake. */
  lemma ExampleAllCorrect()
    ensures
      var mc := [ Question("q1", [Answer("a1", true, "h1a"), Answer("b1", false, "h1b")]),
                  Question("q2", [Answer("a2", false, "h2a"), Answer("b2", true, "h2b"), Answer("c2", true, "h2c")]) ];
      Walk(mc, [Qa(1, ['a']), Qa(2, ['b', 'c'])]) == Success([])
  {
    var q1 := Question("q1", [Answer("a1", true, "h1a"), Answer("b1", false, "h1b")]);
    var q2 := Question("q2", [Answer("a2", false, "h2a"), Answer("b2", true, "h2b"), Answer("c2", true, "h2c")]);
    var mc := [q1, q2];
    CorrectOfTwo(q1);
    assert Chosen(['a']) == [1] && Correct(q1) == [1];
    RightAnswersAddNothing(mc, Start, Qa(1, ['a']));
    CorrectOfThree(q2);
    assert Chosen(['b', 'c']) == [2, 3] && Correct(q2) == [2, 3];
    RightAnswersAddNothing(mc, Checker(2, []), Qa(2, ['b', 'c']));
  }

  /** The two loops for the first group of the next example. */
  lemma WrongFirstHints(q1: Question)
    requires q1 == Question("q1", [Answer("a1", false, "h1a"), Answer("b1", true, "h1b")])
    ensures MissingAnswers(q1, 1, [2], [1]) == [Hint(1, "h1b")]
    ensures WrongAnswers(q1, 1, [2], [1]) == Success([Hint(1, "h1a")])
  {
    assert [2][1..] == [] && MissingAnswers(q1, 1, [], [1]) == [];
    assert 2 !in [1] && q1.answers[1].hint == "h1b";
    assert MissingAnswers(q1, 1, [2], [1]) == [Hint(1, "h1b")] + [];
    assert WrongAnswers(q1, 1, [2], []) == Success([]);
    assert [1][1..] == [];
    assert 1 !in [2] && q1.answers[0].hint == "h1a";
    assert WrongAnswers(q1, 1, [2], [1]) == Success([Hint(1, "h1a")] + []);
    assert [Hint(1, "h1a")] + [] == [Hint(1, "h1a")];
  }

  /** The first group of the next example: the missing `b` and the wrong `a`
      each give their hint. */
  lemma WrongFirstGroup(mc: seq<Question>)
    requires |mc| >= 1 && mc[0] == Question("q1", [Answer("a1", false, "h1a"), Answer("b1", true, "h1b")])
    ensures EnterQa(mc, Start, Qa(1, ['a'])) == Success(Checker(2, [Hint(1, "h1b"), Hint(1, "h1a")]))
  {
    var q1 := mc[0];
    CorrectOfTwo(q1);
    assert Correct(q1) == [2];
    assert Chosen(['a']) == [1];
    WrongFirstHints(q1);
    var st1 := Checker(2, [Hint(1, "h1b"), Hint(1, "h1a")]);
    assert Ordering(1, 1) == [];
    assert Start == Checker(1, []);
    assert Qa(1, ['a']).letters == ['a'];
    assert [] + [] + [Hint(1, "h1b")] + [Hint(1, "h1a")] == st1.errors;
    var r := EnterQa(mc, Start, Qa(1, ['a']));
    assert r.Success?;
    assert r.value.expected == 2;
    assert r.value.errors == st1.errors;
  }

  /** The same file against a model whose first question has only `b`
      correct: the missing `b` is reported first, then the wrong `a`, each
      with its hint. */
  lemma ExampleWrongFirstAnswer()
    ensures
      var mc := [ Question("q1", [Answer("a1", false, "h1a"), Answer("b1", true, "h1b")]),
                  Question("q2", [Answer("a2", false, "h2a"), Answer("b2", true, "h2b"), Answer("c2", true, "h2c")]) ];
      Walk(mc, [Qa(1, ['a']), Qa(2, ['b', 'c'])]) == Success([Hint(1, "h1b"), Hint(1, "h1a")])
  {
    var q1 := Question("q1", [Answer("a1", false, "h1a"), Answer("b1", true, "h1b")]);
    var q2 := Question("q2", [Answer("a2", false, "h2a"), Answer("b2", true, "h2b"), Answer("c2", true, "h2c")]);
    var mc := [q1, q2];
    var st1 := Checker(2, [Hint(1, "h1b"), Hint(1, "h1a")]);
    WrongFirstGroup(mc);
    assert Chosen(['b', 'c']) == [2, 3];
    CorrectOfThree(q2);
    assert Correct(q2) == [2, 3];
    RightAnswersAddNothing(mc, st1, Qa(2, ['b', 'c']));
  }
}
