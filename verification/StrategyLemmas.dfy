/** Properties of the strategy: how a submission is classified, which
    numbered components the analysis carries, and how they line up with the
    strategy's instructions. */
module StrategyLemmas {
  import opened Wrappers
  import opened Strats
  import opened StratsLemmas

  /** The numbered nodes of a strategy: the refusing check's from number 1,
      then the accepting check's. The accepting nodes enter with their parity
      flipped, because the accepting check is evaluated wanting `True` where
      the refusing one wants `False`. */
  function StrategySlots(s: Strategy): (r: seq<Slot>)
    ensures |r| == Width(s.refusing) + Width(s.accepting)
  {
    Preorder(s.refusing, false) + Preorder(s.accepting, true)
  }

  /** The captions of the strategy's numbered nodes, as its instructions show
      them. */
  function StrategyCaptions(s: Strategy, exercise: string): (r: seq<string>)
    ensures |r| == Width(s.refusing) + Width(s.accepting)
  {
    Captions(Preorder(s.refusing, false), exercise, true) + Captions(Preorder(s.accepting, true), exercise, false)
  }

  /** The components of the numbered rows, in order. */
  function ComponentsOf(rows: seq<Row>): (r: seq<Component>)
    ensures |r| <= |rows|
    decreases rows
  {
    if rows == [] then []
    else if rows[0].Numbered? then [rows[0].component] + ComponentsOf(rows[1..])
    else ComponentsOf(rows[1..])
  }

  lemma {:induction false} ComponentsOfRows(cs: seq<Component>)
    ensures ComponentsOf(Rows(cs)) == cs
    decreases cs
  {
    if cs != [] {
      assert Rows(cs)[1..] == Rows(cs[1..]);
      ComponentsOfRows(cs[1..]);
    }
  }

  lemma RowsAppend(a: seq<Component>, b: seq<Component>)
    ensures Rows(a) + Rows(b) == Rows(a + b)
  {
  }

  /** The strategy's two instruction trees list, in pre-order, the captions
      of exactly its numbered nodes: the caption at position `n - 1` of the
      two trees read one after the other belongs to the node numbered `n`. */
  lemma StrategyInstructionsFollowSlots(s: Strategy, exercise: string)
    ensures Labels(StrategyInstructions(s, exercise).0) + Labels(StrategyInstructions(s, exercise).1)
         == StrategyCaptions(s, exercise)
    ensures Size(StrategyInstructions(s, exercise).0) == Width(s.refusing)
    ensures Size(StrategyInstructions(s, exercise).1) == Width(s.accepting)
  {
    CaptionsFollowPreorder(s.refusing, exercise, true, 1, false);
    CaptionsFollowPreorder(s.accepting, exercise, true, 1 + Width(s.refusing), true);
  }

  /** The classification agrees with the plain truth of the two checks: a
      refusal means the refusing check holds, an acceptance that it does not
      while the accepting check holds. When no atom can raise this is an
      equivalence, and a submission is undecided exactly when neither check
      holds. When the refusing check raises, the analysis is the notice
      alone. */
  lemma ClassificationIsSat(s: Strategy, sub: Submission)
    ensures CheckSubmission(s, sub).state == Refused ==> Sat(s.refusing, sub)
    ensures CheckSubmission(s, sub).state == Accepted ==> !Sat(s.refusing, sub) && Sat(s.accepting, sub)
    ensures NoFault(s.refusing, sub) && NoFault(s.accepting, sub) ==>
              && (CheckSubmission(s, sub).state == Refused <==> Sat(s.refusing, sub))
              && (CheckSubmission(s, sub).state == Accepted <==> !Sat(s.refusing, sub) && Sat(s.accepting, sub))
              && (CheckSubmission(s, sub).state == Undecided <==> !Sat(s.refusing, sub) && !Sat(s.accepting, sub))
    ensures Evaluate(s.refusing, sub, false, 1, Intended).Failure? ==>
              CheckSubmission(s, sub).state == Undecided && |CheckSubmission(s, sub).rows| == 1
  {
    EvaluateIsSat(s.refusing, sub, false, 1, Intended);
    EvaluateIsSat(s.accepting, sub, true, 1 + Width(s.refusing), Intended);
  }

  /** The refusing outcome an analysis reports: the check's truth value once
      it has returned, `None` when it raised. */
  function RefusingOutcome(s: Strategy, sub: Submission): Option<bool>
  {
    if Evaluate(s.refusing, sub, false, 1, Intended).Success? then Some(Sat(s.refusing, sub)) else None
  }

  /** The accepting outcome an analysis reports: the check's truth value once
      both checks have returned, `None` when either raised. */
  function AcceptingOutcome(s: Strategy, sub: Submission): Option<bool>
  {
    if Evaluate(s.refusing, sub, false, 1, Intended).Success?
       && Evaluate(s.accepting, sub, true, 1 + Width(s.refusing), Intended).Success?
    then Some(Sat(s.accepting, sub))
    else None
  }

  /** An undecided analysis opens with the notice reporting the refusing
      outcome first and the accepting one second, each `None` when its check
      did not return; an outcome that is reported is `False`. */
  lemma UndecidedNotice(s: Strategy, sub: Submission)
    ensures var v := CheckSubmission(s, sub);
            v.state == Undecided ==>
              v.rows[0] == Notice(UndecidedText + "Weigering was " + OutcomeText(RefusingOutcome(s, sub))
                                  + " en aanvaarding was " + OutcomeText(AcceptingOutcome(s, sub)))
    ensures CheckSubmission(s, sub).state == Undecided ==>
              RefusingOutcome(s, sub) != Some(true) && AcceptingOutcome(s, sub) != Some(true)
  {
    EvaluateIsSat(s.refusing, sub, false, 1, Intended);
    EvaluateIsSat(s.accepting, sub, true, 1 + Width(s.refusing), Intended);
  }

  /** The rows of an analysis after the notice, if any. */
  function Body(v: Verdict): seq<Row>
  {
    if v.state == Undecided && |v.rows| >= 1 then v.rows[1..] else v.rows
  }

  /** An undecided analysis starts with the notice; after it every row is
      numbered, numbers strictly increase, and the component numbered `n`
      reports on the strategy node numbered `n`. */
  predicate WellNumbered(v: Verdict, s: Strategy, sub: Submission)
  {
    && (v.state == Undecided ==> |v.rows| >= 1 && v.rows[0].Notice?)
    && Body(v) == Rows(ComponentsOf(Body(v)))
    && Aligned(ComponentsOf(Body(v)), StrategySlots(s), 1, sub, false)
  }

  /** Rows of the analysis: an undecided analysis starts with the notice and
      has no other unnumbered row; a decided one has only numbered rows. All
      numbered components carry strictly increasing numbers and report on the
      strategy node with that number. A refusal only reports refusing nodes
      and an acceptance only accepting nodes. */
  lemma VerdictRowsAligned(s: Strategy, sub: Submission)
    ensures WellNumbered(CheckSubmission(s, sub), s, sub)
    ensures var v := CheckSubmission(s, sub);
            v.state == Refused ==>
              forall i :: 0 <= i < |v.rows| ==> v.rows[i].Numbered? && v.rows[i].component.number < 1 + Width(s.refusing)
    ensures var v := CheckSubmission(s, sub);
            v.state == Accepted ==>
              forall i :: 0 <= i < |v.rows| ==> v.rows[i].Numbered? && v.rows[i].component.number >= 1 + Width(s.refusing)
  {
    var er := Evaluate(s.refusing, sub, false, 1, Intended);
    if er.Failure? {
      assert CheckSubmission(s, sub) == UndecidedVerdict(None, None, [], []);
      UndecidedRowsAligned(s, sub, None, None, [], []);
    } else if er.value.outcome {
      RefusedRowsAligned(s, sub, er.value);
    } else {
      assert CheckSubmission(s, sub) == CheckAccepting(s.accepting, sub, er.value);
      EvaluateAligned(s.refusing, sub, false, 1, Intended, false);
      AcceptingRowsAligned(s, sub, er.value);
      assert AfterRefusal(CheckSubmission(s, sub), s, sub);
    }
  }

  lemma UndecidedRowsAligned(s: Strategy, sub: Submission, o1: Option<bool>, o2: Option<bool>,
                             rc: seq<Component>, ac: seq<Component>)
    requires Aligned(rc + ac, StrategySlots(s), 1, sub, false)
    ensures UndecidedVerdict(o1, o2, rc, ac).state == Undecided
    ensures WellNumbered(UndecidedVerdict(o1, o2, rc, ac), s, sub)
  {
    var v := UndecidedVerdict(o1, o2, rc, ac);
    assert Body(v) == Rows(rc) + Rows(ac);
    RowsAppend(rc, ac);
    ComponentsOfRows(rc + ac);
  }

  lemma RefusedRowsAligned(s: Strategy, sub: Submission, r: Eval)
    requires Evaluate(s.refusing, sub, false, 1, Intended) == Success(r) && r.outcome
    ensures CheckSubmission(s, sub) == Verdict(Refused, Rows(r.components))
    ensures WellNumbered(Verdict(Refused, Rows(r.components)), s, sub)
    ensures forall i :: 0 <= i < |r.components| ==> r.components[i].number < 1 + Width(s.refusing)
  {
    EvaluateAligned(s.refusing, sub, false, 1, Intended, false);
    ComponentsOfRows(r.components);
    AlignedAppend(r.components, Preorder(s.refusing, false), [], Preorder(s.accepting, true), 1, sub, false);
    assert r.components + [] == r.components;
  }

  /** What holds of the analysis once the refusing check did not hold: it
      is no refusal, it is well numbered, and an acceptance only reports
      accepting nodes. */
  predicate AfterRefusal(v: Verdict, s: Strategy, sub: Submission)
  {
    && v.state != Refused
    && WellNumbered(v, s, sub)
    && (v.state == Accepted ==>
          forall i :: 0 <= i < |v.rows| ==> v.rows[i].Numbered? && v.rows[i].component.number >= 1 + Width(s.refusing))
  }

  lemma AcceptingRowsAligned(s: Strategy, sub: Submission, r: Eval)
    requires r.next == 1 + Width(s.refusing)
    requires Aligned(r.components, Preorder(s.refusing, false), 1, sub, false)
    ensures AfterRefusal(CheckAccepting(s.accepting, sub, r), s, sub)
  {
    var ea := Evaluate(s.accepting, sub, true, r.next, Intended);
    if ea.Failure? {
      AcceptingFaultAligned(s, sub, r);
    } else if ea.value.outcome {
      AcceptedRowsAligned(s, sub, r, ea.value);
    } else {
      NeitherRowsAligned(s, sub, r, ea.value);
    }
  }

  lemma NeitherRowsAligned(s: Strategy, sub: Submission, r: Eval, a: Eval)
    requires r.next == 1 + Width(s.refusing)
    requires Aligned(r.components, Preorder(s.refusing, false), 1, sub, false)
    requires Evaluate(s.accepting, sub, true, r.next, Intended) == Success(a) && !a.outcome
    ensures AfterRefusal(CheckAccepting(s.accepting, sub, r), s, sub)
  {
    assert CheckAccepting(s.accepting, sub, r) == UndecidedVerdict(Some(false), Some(false), r.components, a.components);
    EvaluateAligned(s.accepting, sub, true, r.next, Intended, true);
    AlignedAppend(r.components, Preorder(s.refusing, false), a.components, Preorder(s.accepting, true), 1, sub, false);
    UndecidedRowsAligned(s, sub, Some(false), Some(false), r.components, a.components);
  }

  lemma AcceptingFaultAligned(s: Strategy, sub: Submission, r: Eval)
    requires Evaluate(s.accepting, sub, true, r.next, Intended).Failure?
    requires Aligned(r.components, Preorder(s.refusing, false), 1, sub, false)
    ensures AfterRefusal(CheckAccepting(s.accepting, sub, r), s, sub)
  {
    assert CheckAccepting(s.accepting, sub, r) == UndecidedVerdict(Some(false), None, r.components, []);
    AlignedAppend(r.components, Preorder(s.refusing, false), [], Preorder(s.accepting, true), 1, sub, false);
    assert r.components + [] == r.components;
    UndecidedRowsAligned(s, sub, Some(false), None, r.components, []);
  }

  lemma AcceptedRowsAligned(s: Strategy, sub: Submission, r: Eval, a: Eval)
    requires r.next == 1 + Width(s.refusing)
    requires Evaluate(s.accepting, sub, true, r.next, Intended) == Success(a) && a.outcome
    ensures AfterRefusal(CheckAccepting(s.accepting, sub, r), s, sub)
  {
    assert CheckAccepting(s.accepting, sub, r) == Verdict(Accepted, Rows(a.components));
    EvaluateAligned(s.accepting, sub, true, r.next, Intended, true);
    AcceptedWellNumbered(s, sub, r.next, a.components);
  }

  lemma AcceptedWellNumbered(s: Strategy, sub: Submission, start: int, cs: seq<Component>)
    requires start == 1 + Width(s.refusing)
    requires Aligned(cs, Preorder(s.accepting, true), start, sub, false)
    ensures AfterRefusal(Verdict(Accepted, Rows(cs)), s, sub)
  {
    var v := Verdict(Accepted, Rows(cs));
    assert Body(v) == Rows(cs);
    ComponentsOfRows(cs);
    AcceptedAligned(s, sub, start, cs);
    forall i | 0 <= i < |v.rows| ensures v.rows[i].Numbered? && v.rows[i].component.number >= start {
      assert v.rows[i] == Numbered(cs[i]);
      assert cs[i].number >= start;
    }
  }

  lemma AcceptedAligned(s: Strategy, sub: Submission, start: int, cs: seq<Component>)
    requires start == 1 + Width(s.refusing)
    requires Aligned(cs, Preorder(s.accepting, true), start, sub, false)
    ensures Aligned(cs, StrategySlots(s), 1, sub, false)
  {
    AlignedAppend([], Preorder(s.refusing, false), cs, Preorder(s.accepting, true), 1, sub, false);
    assert [] + cs == cs;
  }

  /** Once the refusing check holds, the accepting check is never looked
      at: any other accepting check gives the same analysis. The same goes
      for a refusing check that raises. */
  lemma RefusalIgnoresAccepting(s: Strategy, other: Pred, sub: Submission)
    requires CheckSubmission(s, sub).state == Refused || Evaluate(s.refusing, sub, false, 1, Intended).Failure?
    ensures CheckSubmission(Strategy(s.refusing, other), sub) == CheckSubmission(s, sub)
  {
    var er := Evaluate(s.refusing, sub, false, 1, Intended);
    if er.Success? {
      assert er.value.outcome;
    }
  }

  /** The accepting check is evaluated numbering on from where the refusing
      check's instructions stop, so each half of the analysis uses the same
      numbers as the corresponding half of the instructions. */
  lemma AcceptingNumberingMatchesInstructions(s: Strategy, sub: Submission)
    requires Evaluate(s.refusing, sub, false, 1, Intended).Success?
    ensures Evaluate(s.refusing, sub, false, 1, Intended).value.next == Instructions(s.refusing, sub.exercise, 1).1
    ensures StrategyInstructions(s, sub.exercise).1 == Instructions(s.accepting, sub.exercise, Evaluate(s.refusing, sub, false, 1, Intended).value.next).0
  {
  }

  /** The strategy used when none is given never decides: its refusing
      check fails while wanted false, its accepting check fails while wanted
      true, and the analysis is the notice followed by both components. */
  lemma DefaultStrategyUndecided(sub: Submission)
    ensures CheckSubmission(DefaultStrategy, sub)
         == Verdict(Undecided,
                    [ Notice(UndecidedText + "Weigering was " + "False" + " en aanvaarding was " + "False"),
                      Numbered(Component(1, true, true, None, None)),
                      Numbered(Component(2, true, false, Some("text"), Some("aan false kan nooit voldaan zijn"))) ])
  {
    var c1 := Component(1, true, true, None, None);
    var c2 := Component(2, true, false, Some("text"), Some("aan false kan nooit voldaan zijn"));
    var r := Evaluate(Negation(TrueCheck), sub, false, 1, Intended);
    assert Evaluate(TrueCheck, sub, true, 1, BelowNegation(Intended)) == Success(Eval(true, [c1], 2));
    assert r == Success(Eval(false, [c1], 2));
    assert Evaluate(TrueCheck, sub, false, 2, BelowNegation(Intended)) == Success(Eval(true, [c2], 3));
    assert Evaluate(Negation(TrueCheck), sub, true, 2, Intended) == Success(Eval(false, [c2], 3));
    assert CheckSubmission(DefaultStrategy, sub) == CheckAccepting(Negation(TrueCheck), sub, Eval(false, [c1], 2));
    assert Rows([c1]) == [Numbered(c1)];
    assert Rows([c2]) == [Numbered(c2)];
    var v := UndecidedVerdict(Some(false), Some(false), [c1], [c2]);
    assert CheckSubmission(DefaultStrategy, sub) == v;
    assert OutcomeText(Some(false)) == "False";
  }

  /** The strategy instructions from the repository's tests: a conjunction as
      accepting check and its negation as refusing check. */
  lemma ExplicitChecksExample(exercise: string)
    ensures StrategyInstructions(Strategy(Negation(ExplicitAccepting), ExplicitAccepting), exercise)
         == (Tree(AtLeastOneConjText, [Tree("False", []), Tree("False", []), Tree("Je hebt geen bestand met naam myfile.txt", [])]),
             Tree(AllOfText, [Tree("True", []), Tree("True", []), Tree("Je hebt een bestand met naam myfile.txt", [])]))
  {
    var ps := ExplicitAccepting.conjuncts;
    var file := FileExistsCheck(Some("myfile"), Some("txt"));
    assert ps[1..][1..] == [file];
    assert Entry(Some("myfile"), Some("txt"), exercise) == "myfile.txt";
    assert Describe(file, exercise, false, 4).0 == Tree("Je hebt geen bestand met naam myfile.txt", []);
    assert Describe(file, exercise, true, 8).0 == Tree("Je hebt een bestand met naam myfile.txt", []);
    assert DescribeAll([file], exercise, false, 4).0 == [Describe(file, exercise, false, 4).0];
    assert DescribeAll([file], exercise, true, 8).0 == [Describe(file, exercise, true, 8).0];
    assert DescribeAll(ps[1..], exercise, false, 3).0 == [Tree("False", [])] + DescribeAll([file], exercise, false, 4).0;
    assert DescribeAll(ps[1..], exercise, true, 7).0 == [Tree("True", [])] + DescribeAll([file], exercise, true, 8).0;
    assert DescribeAll(ps, exercise, false, 2).0 == [Tree("False", [])] + DescribeAll(ps[1..], exercise, false, 3).0;
    assert DescribeAll(ps, exercise, true, 6).0 == [Tree("True", [])] + DescribeAll(ps[1..], exercise, true, 7).0;
    var f := Tree("False", []);
    var t := Tree("True", []);
    var nofile := Tree("Je hebt geen bestand met naam myfile.txt", []);
    var yesfile := Tree("Je hebt een bestand met naam myfile.txt", []);
    assert [f] + ([f] + [nofile]) == [f, f, nofile];
    assert [t] + ([t] + [yesfile]) == [t, t, yesfile];
    assert DescribeAll(ps, exercise, false, 2).0 == [f, f, nofile];
    assert DescribeAll(ps, exercise, true, 6).0 == [t, t, yesfile];
    assert Instructions(Negation(ExplicitAccepting), exercise, 1)
        == (Tree(AtLeastOneConjText, DescribeAll(ps, exercise, false, 2).0), 5);
    assert Instructions(ExplicitAccepting, exercise, 5).0 == Tree(AllOfText, DescribeAll(ps, exercise, true, 6).0);
    assert StrategyInstructions(Strategy(Negation(ExplicitAccepting), ExplicitAccepting), exercise)
        == (Instructions(Negation(ExplicitAccepting), exercise, 1).0, Instructions(ExplicitAccepting, exercise, 5).0);
  }

  const ExplicitAccepting := ConjunctiveCheck([TrueCheck, TrueCheck, FileExistsCheck(Some("myfile"), Some("txt"))])

  /** The numbered rows of an analysis are the components of exactly the
      nodes the evaluation reaches, in evaluation order: the refusing check's
      for a refusal, the accepting check's for an acceptance, and both in
      turn for a submission neither check decides. */
  lemma VerdictReaches(s: Strategy, sub: Submission)
    ensures var v := CheckSubmission(s, sub);
            v.state == Refused ==> Numbers(ComponentsOf(v.rows)) == Reached(s.refusing, sub, 1)
    ensures var v := CheckSubmission(s, sub);
            v.state == Accepted ==> Numbers(ComponentsOf(v.rows)) == Reached(s.accepting, sub, 1 + Width(s.refusing))
    ensures var v := CheckSubmission(s, sub);
            v.state == Undecided && NoFault(s.refusing, sub) && NoFault(s.accepting, sub) ==>
              Numbers(ComponentsOf(Body(v))) == Reached(s.refusing, sub, 1) + Reached(s.accepting, sub, 1 + Width(s.refusing))
  {
    var er := Evaluate(s.refusing, sub, false, 1, Intended);
    EvaluateIsSat(s.refusing, sub, false, 1, Intended);
    if er.Success? {
      var r := er.value;
      EvaluateReaches(s.refusing, sub, false, 1, Intended);
      if r.outcome {
        ComponentsOfRows(r.components);
      } else {
        assert CheckSubmission(s, sub) == CheckAccepting(s.accepting, sub, r);
        AcceptingReaches(s.accepting, sub, r);
      }
    }
  }

  /** The second half of the classification: the accepting check's reached
      nodes, after the refusal's components when neither check decides. */
  lemma AcceptingReaches(accepting: Pred, sub: Submission, refusal: Eval)
    ensures var v := CheckAccepting(accepting, sub, refusal);
            v.state == Accepted ==> Numbers(ComponentsOf(v.rows)) == Reached(accepting, sub, refusal.next)
    ensures var v := CheckAccepting(accepting, sub, refusal);
            v.state == Undecided && NoFault(accepting, sub) ==>
              Numbers(ComponentsOf(Body(v))) == Numbers(refusal.components) + Reached(accepting, sub, refusal.next)
  {
    var v := CheckAccepting(accepting, sub, refusal);
    var ea := Evaluate(accepting, sub, true, refusal.next, Intended);
    EvaluateIsSat(accepting, sub, true, refusal.next, Intended);
    if ea.Success? {
      var a := ea.value;
      EvaluateReaches(accepting, sub, true, refusal.next, Intended);
      if a.outcome {
        ComponentsOfRows(a.components);
      } else {
        assert v == UndecidedVerdict(Some(false), Some(false), refusal.components, a.components);
        UndecidedBodyNumbers(Some(false), Some(false), refusal.components, a.components);
      }
    }
  }

  /** After the notice, an undecided analysis numbers the refusing
      components and then the accepting ones. */
  lemma UndecidedBodyNumbers(r: Option<bool>, a: Option<bool>, rcs: seq<Component>, acs: seq<Component>)
    ensures Numbers(ComponentsOf(Body(UndecidedVerdict(r, a, rcs, acs)))) == Numbers(rcs) + Numbers(acs)
  {
    var v := UndecidedVerdict(r, a, rcs, acs);
    assert Body(v) == Rows(rcs) + Rows(acs);
    RowsAppend(rcs, acs);
    ComponentsOfRows(rcs + acs);
    NumbersAppend(rcs, acs);
  }
}
