/** Properties of instruction generation and evaluation in the predicate
    engine. */
module StratsLemmas {
  import opened Wrappers
  import opened Faults
  import opened MultipleChoiceChecker
  import opened Strats

  // ---------------------------------------------------------------------
  // Instructions

  /** The counter only measures: the tree does not depend on where the
      numbering starts. */
  lemma {:induction false} DescribeIgnoresCounter(p: Pred, exercise: string, positive: bool, i: int, j: int)
    ensures Describe(p, exercise, positive, i).0 == Describe(p, exercise, positive, j).0
    decreases p
  {
    match p
    case Negation(q) =>
      DescribeIgnoresCounter(q, exercise, !positive, i, j);
    case ConjunctiveCheck(ps) =>
      DescribeAllIgnoresCounter(ps, exercise, positive, i + 1, j + 1);
    case DisjunctiveCheck(ps) =>
      DescribeAllIgnoresCounter(ps, exercise, positive, i + 1, j + 1);
    case _ =>
  }

  lemma {:induction false} DescribeAllIgnoresCounter(ps: seq<Pred>, exercise: string, positive: bool, i: int, j: int)
    ensures DescribeAll(ps, exercise, positive, i).0 == DescribeAll(ps, exercise, positive, j).0
    decreases ps
  {
    if ps != [] {
      DescribeIgnoresCounter(ps[0], exercise, positive, i, j);
      DescribeAllIgnoresCounter(ps[1..], exercise, positive, i + Width(ps[0]), j + Width(ps[0]));
    }
  }

  /** The k-th operand tree of a composite is the k-th operand's own tree. */
  lemma {:induction false} DescribeAllAt(ps: seq<Pred>, exercise: string, positive: bool, init: int, k: nat)
    requires k < |ps|
    ensures DescribeAll(ps, exercise, positive, init).0[k] == Describe(ps[k], exercise, positive, 0).0
    decreases ps
  {
    if k == 0 {
      DescribeIgnoresCounter(ps[0], exercise, positive, init, 0);
    } else {
      DescribeAllAt(ps[1..], exercise, positive, init + Width(ps[0]), k - 1);
    }
  }

  /** Instructions of either polarity branch identically. */
  lemma {:induction false} DescribeShape(p: Pred, exercise: string, a: bool, b: bool, i: int, j: int)
    ensures SameShape(Describe(p, exercise, a, i).0, Describe(p, exercise, b, j).0)
    decreases p
  {
    match p
    case Negation(q) =>
      DescribeShape(q, exercise, !a, !b, i, j);
    case ConjunctiveCheck(ps) =>
      DescribeAllShape(ps, exercise, a, b, i + 1, j + 1);
    case DisjunctiveCheck(ps) =>
      DescribeAllShape(ps, exercise, a, b, i + 1, j + 1);
    case _ =>
  }

  lemma {:induction false} DescribeAllShape(ps: seq<Pred>, exercise: string, a: bool, b: bool, i: int, j: int)
    ensures forall k :: 0 <= k < |ps| ==>
              SameShape(DescribeAll(ps, exercise, a, i).0[k], DescribeAll(ps, exercise, b, j).0[k])
    decreases ps
  {
    forall k | 0 <= k < |ps|
      ensures SameShape(DescribeAll(ps, exercise, a, i).0[k], DescribeAll(ps, exercise, b, j).0[k])
    {
      DescribeAllAt(ps, exercise, a, i, k);
      DescribeAllAt(ps, exercise, b, j, k);
      DescribeShape(ps[k], exercise, a, b, 0, 0);
    }
  }

  /** `instructions` and `negative_instructions` of the same predicate have
      the same shape and both advance the counter by the predicate's width,
      which is also the number of captions they hold. */
  lemma InstructionsMirrorNegativeInstructions(p: Pred, exercise: string, init: int)
    ensures SameShape(Instructions(p, exercise, init).0, NegativeInstructions(p, exercise, init).0)
    ensures Instructions(p, exercise, init).1 == NegativeInstructions(p, exercise, init).1 == init + Width(p)
    ensures Size(Instructions(p, exercise, init).0) == Size(NegativeInstructions(p, exercise, init).0) == Width(p)
  {
    DescribeShape(p, exercise, true, false, init, init);
  }

  /** `k` negations wrapped around `p`. */
  function Negations(k: nat, p: Pred): Pred
  {
    if k == 0 then p else Negation(Negations(k - 1, p))
  }

  /** A stack of negations is absorbed entirely: it selects `p`'s
      instructions or negative instructions by its parity, so in particular a
      double negation gives exactly `p`'s instructions. */
  lemma {:induction false} NegationsSelectPolarity(k: nat, p: Pred, exercise: string, positive: bool, init: int)
    ensures Describe(Negations(k, p), exercise, positive, init) == Describe(p, exercise, positive == (k % 2 == 0), init)
    decreases k
  {
    if k > 0 {
      NegationsSelectPolarity(k - 1, p, exercise, !positive, init);
    }
  }

  lemma DoubleNegation(p: Pred, exercise: string, init: int)
    ensures Instructions(Negation(Negation(p)), exercise, init) == Instructions(p, exercise, init)
    ensures NegativeInstructions(Negation(Negation(p)), exercise, init) == NegativeInstructions(p, exercise, init)
    ensures Instructions(Negation(p), exercise, init) == NegativeInstructions(p, exercise, init)
    ensures NegativeInstructions(Negation(p), exercise, init) == Instructions(p, exercise, init)
  {
    assert Negations(0, p) == p;
    assert Negations(1, p) == Negation(p);
    assert Negations(2, p) == Negation(Negation(p));
    NegationsSelectPolarity(2, p, exercise, true, init);
    NegationsSelectPolarity(2, p, exercise, false, init);
  }

  function NegateAll(ps: seq<Pred>): (r: seq<Pred>)
    ensures |r| == |ps|
    ensures forall i :: 0 <= i < |ps| ==> r[i] == Negation(ps[i])
  {
    seq(|ps|, i requires 0 <= i < |ps| => Negation(ps[i]))
  }

  lemma {:induction false} DescribeNegateAll(ps: seq<Pred>, exercise: string, positive: bool, init: int)
    ensures DescribeAll(NegateAll(ps), exercise, positive, init) == DescribeAll(ps, exercise, !positive, init)
    decreases ps
  {
    if ps != [] {
      assert NegateAll(ps)[1..] == NegateAll(ps[1..]);
      DescribeNegateAll(ps[1..], exercise, positive, init + Width(ps[0]));
    }
  }

  /** De Morgan's law for a negated disjunction, as the instructions realise
      it: it reads exactly as the conjunction of the negated operands. */
  lemma DeMorganDisjunction(ps: seq<Pred>, exercise: string, init: int)
    ensures Instructions(Negation(DisjunctiveCheck(ps)), exercise, init)
         == Instructions(ConjunctiveCheck(NegateAll(ps)), exercise, init)
  {
    DescribeNegateAll(ps, exercise, true, init + 1);
    var (ts, next) := DescribeAll(ps, exercise, false, init + 1);
    assert Instructions(Negation(DisjunctiveCheck(ps)), exercise, init) == Describe(DisjunctiveCheck(ps), exercise, false, init);
    assert Describe(DisjunctiveCheck(ps), exercise, false, init) == (Tree(AllOfText, ts), next);
    assert Instructions(ConjunctiveCheck(NegateAll(ps)), exercise, init) == (Tree(AllOfText, ts), next);
  }

  /** De Morgan's law for a negated conjunction: it has the same operand
      trees and numbering as the disjunction of the negated operands, but its
      header is spelled differently ("één" against "een"), so the two trees
      are not equal. */
  lemma DeMorganConjunction(ps: seq<Pred>, exercise: string, init: int)
    ensures Instructions(Negation(ConjunctiveCheck(ps)), exercise, init).0.subtrees
         == Instructions(DisjunctiveCheck(NegateAll(ps)), exercise, init).0.subtrees
    ensures Instructions(Negation(ConjunctiveCheck(ps)), exercise, init).1
         == Instructions(DisjunctiveCheck(NegateAll(ps)), exercise, init).1
    ensures Instructions(Negation(ConjunctiveCheck(ps)), exercise, init).0.caption == AtLeastOneConjText
    ensures Instructions(DisjunctiveCheck(NegateAll(ps)), exercise, init).0.caption == AtLeastOneDisjText
    ensures AtLeastOneConjText != AtLeastOneDisjText
  {
    NegatedConjunction(ps, exercise, init);
    DisjunctionOfNegations(ps, exercise, init);
    HeadersDiffer();
  }

  lemma NegatedConjunction(ps: seq<Pred>, exercise: string, init: int)
    ensures Instructions(Negation(ConjunctiveCheck(ps)), exercise, init)
         == (Tree(AtLeastOneConjText, DescribeAll(ps, exercise, false, init + 1).0), DescribeAll(ps, exercise, false, init + 1).1)
  {
    assert Instructions(Negation(ConjunctiveCheck(ps)), exercise, init) == Describe(ConjunctiveCheck(ps), exercise, false, init);
  }

  lemma DisjunctionOfNegations(ps: seq<Pred>, exercise: string, init: int)
    ensures Instructions(DisjunctiveCheck(NegateAll(ps)), exercise, init)
         == (Tree(AtLeastOneDisjText, DescribeAll(ps, exercise, false, init + 1).0), DescribeAll(ps, exercise, false, init + 1).1)
  {
    DescribeNegateAll(ps, exercise, true, init + 1);
  }

  lemma HeadersDiffer()
    ensures AtLeastOneConjText != AtLeastOneDisjText
  {
    assert AtLeastOneConjText[13] == 'é' && AtLeastOneDisjText[13] == 'e';
  }

  /** The tree shapes and texts the repository's tests expect. */
  lemma InstructionExamples(exercise: string, init: int)
    ensures Instructions(TrueCheck, exercise, init) == (Tree("True", []), init + 1)
    ensures NegativeInstructions(TrueCheck, exercise, init) == (Tree("False", []), init + 1)
    ensures Instructions(Negation(TrueCheck), exercise, init).0 == Tree("False", [])
    ensures Instructions(FileExistsCheck(Some("myfile"), Some("txt")), exercise, init).0
         == Tree("Je hebt een bestand met naam myfile.txt", [])
    ensures Instructions(Negation(FileExistsCheck(Some("myfile"), Some("txt"))), exercise, init).0
         == Tree("Je hebt geen bestand met naam myfile.txt", [])
    ensures Instructions(ConjunctiveCheck([TrueCheck, TrueCheck, TrueCheck]), exercise, init).0
         == Tree(AllOfText, [Tree("True", []), Tree("True", []), Tree("True", [])])
    ensures Instructions(Negation(ConjunctiveCheck([TrueCheck, TrueCheck, TrueCheck])), exercise, init).0
         == Tree(AtLeastOneConjText, [Tree("False", []), Tree("False", []), Tree("False", [])])
    ensures Instructions(DisjunctiveCheck([TrueCheck, TrueCheck, TrueCheck]), exercise, init).0
         == Tree(AtLeastOneDisjText, [Tree("True", []), Tree("True", []), Tree("True", [])])
    ensures Instructions(Negation(DisjunctiveCheck([TrueCheck, TrueCheck, TrueCheck])), exercise, init).0
         == Tree(AllOfText, [Tree("False", []), Tree("False", []), Tree("False", [])])
  {
    AtomInstructionExamples(exercise, init);
    CompositeInstructionExamples(exercise, init);
  }

  lemma AtomInstructionExamples(exercise: string, init: int)
    ensures Instructions(TrueCheck, exercise, init) == (Tree("True", []), init + 1)
    ensures NegativeInstructions(TrueCheck, exercise, init) == (Tree("False", []), init + 1)
    ensures Instructions(Negation(TrueCheck), exercise, init).0 == Tree("False", [])
    ensures Instructions(FileExistsCheck(Some("myfile"), Some("txt")), exercise, init).0
         == Tree("Je hebt een bestand met naam myfile.txt", [])
    ensures Instructions(Negation(FileExistsCheck(Some("myfile"), Some("txt"))), exercise, init).0
         == Tree("Je hebt geen bestand met naam myfile.txt", [])
  {
    FileExistsInstructions(Some("myfile"), Some("txt"), exercise, init);
    EntryExamples(exercise);
  }

  lemma CompositeInstructionExamples(exercise: string, init: int)
    ensures Instructions(ConjunctiveCheck([TrueCheck, TrueCheck, TrueCheck]), exercise, init).0
         == Tree(AllOfText, [Tree("True", []), Tree("True", []), Tree("True", [])])
    ensures Instructions(Negation(ConjunctiveCheck([TrueCheck, TrueCheck, TrueCheck])), exercise, init).0
         == Tree(AtLeastOneConjText, [Tree("False", []), Tree("False", []), Tree("False", [])])
    ensures Instructions(DisjunctiveCheck([TrueCheck, TrueCheck, TrueCheck]), exercise, init).0
         == Tree(AtLeastOneDisjText, [Tree("True", []), Tree("True", []), Tree("True", [])])
    ensures Instructions(Negation(DisjunctiveCheck([TrueCheck, TrueCheck, TrueCheck])), exercise, init).0
         == Tree(AllOfText, [Tree("False", []), Tree("False", []), Tree("False", [])])
  {
    TrueTriple(exercise, true, init + 1);
    TrueTriple(exercise, false, init + 1);
  }

  lemma TrueTriple(exercise: string, positive: bool, init: int)
    ensures var t := Tree(if positive then "True" else "False", []);
            DescribeAll([TrueCheck, TrueCheck, TrueCheck], exercise, positive, init).0 == [t, t, t]
  {
    var t := Tree(if positive then "True" else "False", []);
    assert [TrueCheck, TrueCheck, TrueCheck][1..] == [TrueCheck, TrueCheck];
    assert [TrueCheck, TrueCheck][1..] == [TrueCheck];
    assert DescribeAll([TrueCheck], exercise, positive, init + 2).0 == [t];
    assert DescribeAll([TrueCheck, TrueCheck], exercise, positive, init + 1).0 == [t, t];
  }

  /** The expected file name: the check's own name when it is non-empty,
      otherwise the exercise; then a dot and the extension when the extension
      is non-empty. */
  lemma EntryExamples(exercise: string)
    ensures Entry(Some("myfile"), Some("txt"), exercise) == "myfile.txt"
    ensures Entry(None, Some("txt"), "ex1") == "ex1.txt"
    ensures Entry(Some(""), Some("txt"), "ex1") == "ex1.txt"
    ensures Entry(Some("myfile"), None, exercise) == "myfile"
    ensures Entry(Some("myfile"), Some(""), exercise) == "myfile"
    ensures Entry(None, None, "ex1") == "ex1"
  {
  }

  /** The expected file name starts with the check's name, or the exercise
      when that name is absent or empty. It goes on past that stem exactly
      when the extension is non-empty, and then with a dot and the
      extension. */
  lemma EntryParts(name: Option<string>, extension: Option<string>, exercise: string)
    ensures var stem := if Truthy(name) then name.value else exercise;
            var e := Entry(name, extension, exercise);
            && stem <= e
            && (Truthy(extension) <==> |e| > |stem|)
            && (Truthy(extension) ==> e[|stem|] == '.' && e[|stem| + 1..] == extension.value)
  {
  }

  /** The file-existence instructions name the expected file. */
  lemma FileExistsInstructions(name: Option<string>, extension: Option<string>, exercise: string, init: int)
    ensures Instructions(FileExistsCheck(name, extension), exercise, init)
         == (Tree("Je hebt een bestand met naam " + Entry(name, extension, exercise), []), init + 1)
    ensures NegativeInstructions(FileExistsCheck(name, extension), exercise, init)
         == (Tree("Je hebt geen bestand met naam " + Entry(name, extension, exercise), []), init + 1)
  {
  }

  // ---------------------------------------------------------------------
  // Evaluation

  /** Once the exit code has flipped, the remaining operands contribute no
      component and are never observed (so cannot raise), yet consume their
      full width of numbers. */
  lemma {:induction false} SkippedOperands(ps: seq<Pred>, sub: Submission, desired: bool, isAnd: bool, running: bool, counter: int, ph: Phrasing)
    requires running != isAnd
    ensures EvaluateOperands(ps, sub, desired, isAnd, running, counter, ph)
         == Success(Eval(running, [], counter + WidthSum(ps)))
    decreases ps
  {
    if ps != [] {
      SkippedOperands(ps[1..], sub, desired, isAnd, running, counter + Width(ps[0]), ph);
    }
  }

  /** Evaluation consumes exactly the numbers instruction generation does,
      whether or not operands were skipped. */
  lemma EvaluationNumberingMatchesInstructions(p: Pred, sub: Submission, desired: bool, init: int, ph: Phrasing)
    requires Evaluate(p, sub, desired, init, ph).Success?
    ensures Evaluate(p, sub, desired, init, ph).value.next == Instructions(p, sub.exercise, init).1
    ensures Evaluate(p, sub, desired, init, ph).value.next == NegativeInstructions(p, sub.exercise, init).1
  {
  }

  /** The outcome of a successful evaluation is the plain truth value of the
      predicate, and evaluation cannot fail when no atom would raise. */
  lemma {:induction false} EvaluateIsSat(p: Pred, sub: Submission, desired: bool, init: int, ph: Phrasing)
    ensures Evaluate(p, sub, desired, init, ph).Success? ==>
              Evaluate(p, sub, desired, init, ph).value.outcome == Sat(p, sub)
    ensures NoFault(p, sub) ==> Evaluate(p, sub, desired, init, ph).Success?
    decreases p
  {
    if p.Negation? {
      EvaluateIsSat(p.negated, sub, !desired, init, BelowNegation(ph));
    } else if p.ConjunctiveCheck? {
      OperandsAreSat(p.conjuncts, sub, desired, true, true, init + 1, ForOperands(ph));
    } else if p.DisjunctiveCheck? {
      OperandsAreSat(p.disjuncts, sub, desired, false, false, init + 1, ForOperands(ph));
    } else {
      AtomIsSat(p, sub, desired, init, ph);
    }
  }

  lemma AtomIsSat(p: Pred, sub: Submission, desired: bool, init: int, ph: Phrasing)
    requires IsAtom(p)
    ensures Evaluate(p, sub, desired, init, ph).Success? ==>
              Evaluate(p, sub, desired, init, ph).value.outcome == Sat(p, sub)
    ensures NoFault(p, sub) ==> Evaluate(p, sub, desired, init, ph).Success?
  {
    assert Evaluate(p, sub, desired, init, ph) == EvaluateAtom(p, sub, desired, init);
    ObserveIsSat(p, sub);
  }

  lemma ObserveIsSat(p: Pred, sub: Submission)
    requires IsAtom(p)
    ensures Observe(p, sub).Success? ==> Observe(p, sub).value.0 == Sat(p, sub)
    ensures NoFault(p, sub) ==> Observe(p, sub).Success?
  {
    match p
    case MultipleChoiceAnswerCheck(mc) =>
      if Observe(p, sub).Success? {
        var errors := Walk(mc, ParseTree(sub.files[McPath(sub.exercise)]));
        assert errors.Success?;
        assert |errors.value| == 0 <==> errors.value == [];
      }
    case _ =>
  }

  /** The explanation an atom's component carries when its outcome misses
      the desired one. The branch depends on which way it missed: an
      existing file that must not exist, a missing file that must; a format
      that is followed though it must not be, or broken though it must not
      be; a walk with no mistakes though there must be some, or the
      header line followed by one line per mistake of the walk. */
  lemma AtomExplanations(p: Pred, sub: Submission, desired: bool, init: int)
    requires IsAtom(p)
    requires EvaluateAtom(p, sub, desired, init).Success?
    ensures var c := EvaluateAtom(p, sub, desired, init).value.components[0];
            c.outcome != desired && p.TrueCheck? ==>
              !desired && c.explanation == Some(TrueExplanation)
    ensures var c := EvaluateAtom(p, sub, desired, init).value.components[0];
            c.outcome != desired && p.FileExistsCheck? ==>
              var entry := Entry(p.name, p.extension, sub.exercise);
              && (entry in sub.files <==> !desired)
              && c.explanation == Some(entry + if desired then FileMissingText else FileFoundText)
    ensures var c := EvaluateAtom(p, sub, desired, init).value.components[0];
            c.outcome != desired && p.MultipleChoiceFormatCheck? ==>
              c.explanation == Some(if desired then FormatBrokenText else FormatFollowedText)
    ensures var c := EvaluateAtom(p, sub, desired, init).value.components[0];
            c.outcome != desired && p.MultipleChoiceAnswerCheck? && !desired ==>
              c.explanation == Some(NoErrorsText)
    ensures var c := EvaluateAtom(p, sub, desired, init).value.components[0];
            c.outcome != desired && p.MultipleChoiceAnswerCheck? && desired ==>
              && McPath(sub.exercise) in sub.files
              && var walk := Walk(p.mcData, ParseTree(sub.files[McPath(sub.exercise)]));
              && walk.Success? && walk.value != []
              && c.explanation == Some(ErrorListText(walk.value))
  {
  }

  /** A run of operands yields `running && all` for a conjunction and
      `running || any` for a disjunction. */
  lemma {:induction false} OperandsAreSat(ps: seq<Pred>, sub: Submission, desired: bool, isAnd: bool, running: bool, counter: int, ph: Phrasing)
    ensures var r := EvaluateOperands(ps, sub, desired, isAnd, running, counter, ph);
            r.Success? ==>
              r.value.outcome == if isAnd then running && (forall i :: 0 <= i < |ps| ==> Sat(ps[i], sub))
                                 else running || (exists i :: 0 <= i < |ps| && Sat(ps[i], sub))
    ensures (forall i :: 0 <= i < |ps| ==> NoFault(ps[i], sub)) ==>
              EvaluateOperands(ps, sub, desired, isAnd, running, counter, ph).Success?
    decreases ps
  {
    if ps != [] {
      OperandsCons(ps, sub);
      if running == isAnd {
        EvaluateIsSat(ps[0], sub, desired, counter, ph);
        var e := Evaluate(ps[0], sub, desired, counter, ph);
        if e.Success? {
          OperandsAreSat(ps[1..], sub, desired, isAnd, e.value.outcome, e.value.next, ph);
        }
      } else {
        SkippedOperands(ps[1..], sub, desired, isAnd, running, counter + Width(ps[0]), ph);
      }
    }
  }

  /** The quantifiers over a run of operands, split at its head. */
  lemma OperandsCons(ps: seq<Pred>, sub: Submission)
    requires ps != []
    ensures (forall i :: 0 <= i < |ps| ==> Sat(ps[i], sub))
            <==> Sat(ps[0], sub) && forall i :: 0 <= i < |ps[1..]| ==> Sat(ps[1..][i], sub)
    ensures (exists i :: 0 <= i < |ps| && Sat(ps[i], sub))
            <==> Sat(ps[0], sub) || exists i :: 0 <= i < |ps[1..]| && Sat(ps[1..][i], sub)
    ensures (forall i :: 0 <= i < |ps| ==> NoFault(ps[i], sub))
            <==> NoFault(ps[0], sub) && forall i :: 0 <= i < |ps[1..]| ==> NoFault(ps[1..][i], sub)
  {
    assert forall i :: 0 < i < |ps| ==> ps[i] == ps[1..][i - 1];
  }

  function Composite(isAnd: bool, ps: seq<Pred>): Pred
  {
    if isAnd then ConjunctiveCheck(ps) else DisjunctiveCheck(ps)
  }

  /** Two operand runs with the same first operand, evaluated, agree when
      their rests agree from where that operand leaves off. */
  lemma OperandsSameHead(ps: seq<Pred>, ps': seq<Pred>, sub: Submission, desired: bool, isAnd: bool, counter: int, ph: Phrasing)
    requires ps != [] && ps' != [] && ps[0] == ps'[0]
    requires Evaluate(ps[0], sub, desired, counter, ph).Success?
    requires var e := Evaluate(ps[0], sub, desired, counter, ph).value;
             EvaluateOperands(ps[1..], sub, desired, isAnd, e.outcome, e.next, ph)
             == EvaluateOperands(ps'[1..], sub, desired, isAnd, e.outcome, e.next, ph)
    ensures EvaluateOperands(ps, sub, desired, isAnd, isAnd, counter, ph)
         == EvaluateOperands(ps', sub, desired, isAnd, isAnd, counter, ph)
  {
  }

  /** Once the exit code has flipped, two rests of equal width give the
      same result. */
  lemma SkippedTails(ps: seq<Pred>, qs: seq<Pred>, sub: Submission, desired: bool, isAnd: bool, running: bool, counter: int, ph: Phrasing)
    requires running != isAnd && WidthSum(ps) == WidthSum(qs)
    ensures EvaluateOperands(ps, sub, desired, isAnd, running, counter, ph)
         == EvaluateOperands(qs, sub, desired, isAnd, running, counter, ph)
  {
    SkippedOperands(ps, sub, desired, isAnd, running, counter, ph);
    SkippedOperands(qs, sub, desired, isAnd, running, counter, ph);
  }

  lemma {:induction false} OperandsStopAt(ps: seq<Pred>, qs: seq<Pred>, k: nat, sub: Submission, desired: bool, isAnd: bool, counter: int, ph: Phrasing)
    requires k < |ps|
    requires forall i :: 0 <= i < k ==> NoFault(ps[i], sub) && Sat(ps[i], sub) == isAnd
    requires NoFault(ps[k], sub) && Sat(ps[k], sub) != isAnd
    requires WidthSum(qs) == WidthSum(ps[k + 1..])
    ensures EvaluateOperands(ps, sub, desired, isAnd, isAnd, counter, ph)
         == EvaluateOperands(ps[..k + 1] + qs, sub, desired, isAnd, isAnd, counter, ph)
    decreases k
  {
    var ps' := ps[..k + 1] + qs;
    assert ps'[0] == ps[0];
    EvaluateIsSat(ps[0], sub, desired, counter, ph);
    var e := Evaluate(ps[0], sub, desired, counter, ph).value;
    if k == 0 {
      assert ps'[1..] == qs;
      SkippedTails(ps[1..], qs, sub, desired, isAnd, e.outcome, e.next, ph);
    } else {
      assert e.outcome == isAnd;
      assert ps'[1..] == ps[1..][..k] + qs;
      assert ps[1..][k..] == ps[k + 1..];
      assert forall i :: 0 <= i < k - 1 ==> ps[1..][i] == ps[i + 1];
      OperandsStopAt(ps[1..], qs, k - 1, sub, desired, isAnd, e.next, ph);
    }
    OperandsSameHead(ps, ps', sub, desired, isAnd, counter, ph);
  }

  /** Short-circuiting: a conjunction stops at its first false operand and a
      disjunction at its first true one. Whatever follows that operand is
      never observed: replacing it by any predicates of the same total width
      leaves the evaluation unchanged, components and numbering included. */
  lemma ShortCircuit(isAnd: bool, ps: seq<Pred>, qs: seq<Pred>, k: nat,
                     sub: Submission, desired: bool, init: int, ph: Phrasing)
    requires k < |ps|
    requires forall i :: 0 <= i < k ==> NoFault(ps[i], sub) && Sat(ps[i], sub) == isAnd
    requires NoFault(ps[k], sub) && Sat(ps[k], sub) != isAnd
    requires WidthSum(qs) == WidthSum(ps[k + 1..])
    ensures Evaluate(Composite(isAnd, ps), sub, desired, init, ph)
         == Evaluate(Composite(isAnd, ps[..k + 1] + qs), sub, desired, init, ph)
  {
    OperandsStopAt(ps, qs, k, sub, desired, isAnd, init + 1, ForOperands(ph));
  }

  // ---------------------------------------------------------------------
  // Alignment of components with numbered nodes

  /** A component's renderer and explanation are present exactly when its
      outcome is not the desired one. */
  predicate Explained(c: Component)
  {
    && c.renderer == (if c.outcome != c.desired then Some("text") else None)
    && (c.explanation.Some? <==> c.outcome != c.desired)
  }

  /** Component `c` reports on numbered node `s`: the node's truth, the
      desired outcome flipped when `s` lies below an odd number of negations,
      and an explanation exactly when the two differ. */
  predicate Reports(c: Component, s: Slot, sub: Submission, desired: bool)
  {
    && c.outcome == Sat(s.node, sub)
    && c.desired == (desired != s.negated)
    && Explained(c)
  }

  /** The components carry strictly increasing numbers from the range
      `base .. base + |slots|`, and the component numbered `n` reports on the
      node in slot `n - base`. */
  predicate Aligned(cs: seq<Component>, slots: seq<Slot>, base: int, sub: Submission, desired: bool)
  {
    && (forall i, j :: 0 <= i < j < |cs| ==> cs[i].number < cs[j].number)
    && (forall i :: 0 <= i < |cs| ==>
          base <= cs[i].number < base + |slots| && Reports(cs[i], slots[cs[i].number - base], sub, desired))
  }

  lemma AlignedAppend(c1: seq<Component>, s1: seq<Slot>, c2: seq<Component>, s2: seq<Slot>,
                      base: int, sub: Submission, desired: bool)
    requires Aligned(c1, s1, base, sub, desired)
    requires Aligned(c2, s2, base + |s1|, sub, desired)
    ensures Aligned(c1 + c2, s1 + s2, base, sub, desired)
  {
    var cs := c1 + c2;
    var ss := s1 + s2;
    forall i | 0 <= i < |cs|
      ensures base <= cs[i].number < base + |ss|
      ensures Reports(cs[i], ss[cs[i].number - base], sub, desired)
    {
      if i < |c1| {
        assert cs[i] == c1[i];
        assert ss[cs[i].number - base] == s1[cs[i].number - base];
      } else {
        assert cs[i] == c2[i - |c1|];
        assert ss[cs[i].number - base] == s2[cs[i].number - base - |s1|];
      }
    }
    forall i, j | 0 <= i < j < |cs|
      ensures cs[i].number < cs[j].number
    {
      if j < |c1| {
        assert cs[i] == c1[i] && cs[j] == c1[j];
      } else if i >= |c1| {
        assert cs[i] == c2[i - |c1|] && cs[j] == c2[j - |c1|];
      } else {
        assert cs[i] == c1[i] && cs[j] == c2[j - |c1|];
      }
    }
  }

  /** Every successful evaluation's components line up with the pre-order
      numbering of the predicate's nodes: numbers strictly increase within
      `init .. init + Width(p)`, the component numbered `n` reports the truth
      of the node numbered `n`, its desired outcome is the requested one
      flipped by each negation above that node, and it carries an
      explanation exactly when outcome and desired outcome differ. */
  lemma {:induction false} EvaluateAligned(p: Pred, sub: Submission, desired: bool, init: int,
                                           ph: Phrasing, negated: bool)
    requires Evaluate(p, sub, desired, init, ph).Success?
    ensures Aligned(Evaluate(p, sub, desired, init, ph).value.components,
                    Preorder(p, negated), init, sub, desired != negated)
    decreases p, 1
  {
    if p.Negation? {
      EvaluateAligned(p.negated, sub, !desired, init, BelowNegation(ph), !negated);
    } else if p.ConjunctiveCheck? {
      CompositeAligned(true, p.conjuncts, sub, desired, init, ph, negated);
    } else if p.DisjunctiveCheck? {
      CompositeAligned(false, p.disjuncts, sub, desired, init, ph, negated);
    } else {
      AtomAligned(p, sub, desired, init, ph, negated);
    }
  }

  /** A single component reporting on a single node is aligned with it. */
  lemma AlignedSingleton(c: Component, slot: Slot, base: int, sub: Submission, desired: bool)
    requires c.number == base && Reports(c, slot, sub, desired)
    ensures Aligned([c], [slot], base, sub, desired)
  {
  }

  lemma ReportExplained(number: int, outcome: bool, desired: bool, explanation: string)
    ensures Explained(Report(number, outcome, desired, explanation))
  {
  }

  /** An atom's single component carries its outcome and is explained. */
  lemma AtomComponent(p: Pred, sub: Submission, desired: bool, init: int)
    requires IsAtom(p)
    requires EvaluateAtom(p, sub, desired, init).Success?
    ensures var e := EvaluateAtom(p, sub, desired, init).value;
            && e.components[0].outcome == e.outcome
            && e.components[0].desired == desired
            && Explained(e.components[0])
  {
    var (outcome, explanation) := Observe(p, sub).value;
    ReportExplained(init, outcome, desired, explanation);
  }

  lemma AtomAligned(p: Pred, sub: Submission, desired: bool, init: int, ph: Phrasing, negated: bool)
    requires IsAtom(p)
    requires Evaluate(p, sub, desired, init, ph).Success?
    ensures Aligned(Evaluate(p, sub, desired, init, ph).value.components,
                    Preorder(p, negated), init, sub, desired != negated)
  {
    var e := Evaluate(p, sub, desired, init, ph).value;
    assert e == EvaluateAtom(p, sub, desired, init).value;
    AtomIsSat(p, sub, desired, init, ph);
    AtomComponent(p, sub, desired, init);
    assert e.components == [e.components[0]];
    assert Preorder(p, negated) == [Slot(p, negated)];
    AlignedSingleton(e.components[0], Slot(p, negated), init, sub, desired != negated);
  }

  lemma {:induction false} CompositeAligned(isAnd: bool, ps: seq<Pred>, sub: Submission, desired: bool, init: int,
                                            ph: Phrasing, negated: bool)
    requires Evaluate(Composite(isAnd, ps), sub, desired, init, ph).Success?
    ensures Aligned(Evaluate(Composite(isAnd, ps), sub, desired, init, ph).value.components,
                    Preorder(Composite(isAnd, ps), negated), init, sub, desired != negated)
    decreases Composite(isAnd, ps), 0
  {
    var p := Composite(isAnd, ps);
    var run := EvaluateOperands(ps, sub, desired, isAnd, isAnd, init + 1, ForOperands(ph)).value;
    var c := Report(init, run.outcome, desired, CompositeExplanation(isAnd, desired, run.outcome, ph.flipped));
    CompositeOutcome(isAnd, ps, sub, desired, init, ph);
    OperandsAligned(ps, sub, desired, isAnd, isAnd, init + 1, ForOperands(ph), negated);
    OwnComponentAligned(p, sub, desired, init, run.outcome, CompositeExplanation(isAnd, desired, run.outcome, ph.flipped), negated);
    AlignedAppend([c], [Slot(p, negated)], run.components, PreorderAll(ps, negated), init, sub, desired != negated);
    CompositePreorder(isAnd, ps, negated);
    assert Evaluate(p, sub, desired, init, ph).value.components == [c] + run.components;
    assert Preorder(p, negated) == [Slot(p, negated)] + PreorderAll(ps, negated);
  }

  /** A composite's components are its own followed by its operand run's,
      and its outcome is the run's, which is its truth value. */
  lemma CompositeOutcome(isAnd: bool, ps: seq<Pred>, sub: Submission, desired: bool, init: int, ph: Phrasing)
    requires Evaluate(Composite(isAnd, ps), sub, desired, init, ph).Success?
    ensures EvaluateOperands(ps, sub, desired, isAnd, isAnd, init + 1, ForOperands(ph)).Success?
    ensures var run := EvaluateOperands(ps, sub, desired, isAnd, isAnd, init + 1, ForOperands(ph)).value;
            && run.outcome == Sat(Composite(isAnd, ps), sub)
            && Evaluate(Composite(isAnd, ps), sub, desired, init, ph).value.components
               == [Report(init, run.outcome, desired, CompositeExplanation(isAnd, desired, run.outcome, ph.flipped))]
                  + run.components
  {
    CompositeEvaluation(isAnd, ps, sub, desired, init, ph);
    EvaluateIsSat(Composite(isAnd, ps), sub, desired, init, ph);
  }

  /** The component a node emits for itself reports on the node's slot. */
  lemma OwnComponentAligned(p: Pred, sub: Submission, desired: bool, init: int, outcome: bool, text: string, negated: bool)
    requires outcome == Sat(p, sub)
    ensures Aligned([Report(init, outcome, desired, text)], [Slot(p, negated)], init, sub, desired != negated)
  {
    ReportExplained(init, outcome, desired, text);
    AlignedSingleton(Report(init, outcome, desired, text), Slot(p, negated), init, sub, desired != negated);
  }

  /** A conjunction's or disjunction's evaluation: its own component, then
      its operands' run. */
  lemma CompositeEvaluation(isAnd: bool, ps: seq<Pred>, sub: Submission, desired: bool, init: int, ph: Phrasing)
    requires Evaluate(Composite(isAnd, ps), sub, desired, init, ph).Success?
    ensures EvaluateOperands(ps, sub, desired, isAnd, isAnd, init + 1, ForOperands(ph)).Success?
    ensures var run := EvaluateOperands(ps, sub, desired, isAnd, isAnd, init + 1, ForOperands(ph)).value;
            Evaluate(Composite(isAnd, ps), sub, desired, init, ph).value
            == Eval(run.outcome,
                    [Report(init, run.outcome, desired, CompositeExplanation(isAnd, desired, run.outcome, ph.flipped))]
                    + run.components,
                    run.next)
  {
  }

  lemma {:induction false} OperandsAligned(ps: seq<Pred>, sub: Submission, desired: bool, isAnd: bool, running: bool,
                                           counter: int, ph: Phrasing, negated: bool)
    requires EvaluateOperands(ps, sub, desired, isAnd, running, counter, ph).Success?
    ensures Aligned(EvaluateOperands(ps, sub, desired, isAnd, running, counter, ph).value.components,
                    PreorderAll(ps, negated), counter, sub, desired != negated)
    decreases ps
  {
    if ps == [] {
    } else if running == isAnd {
      EvaluatedOperandAligned(ps, sub, desired, isAnd, running, counter, ph, negated);
    } else {
      SkippedOperandAligned(ps, sub, desired, isAnd, running, counter, ph, negated);
    }
  }

  lemma {:induction false} EvaluatedOperandAligned(ps: seq<Pred>, sub: Submission, desired: bool, isAnd: bool, running: bool,
                                                   counter: int, ph: Phrasing, negated: bool)
    requires ps != [] && running == isAnd
    requires EvaluateOperands(ps, sub, desired, isAnd, running, counter, ph).Success?
    ensures Aligned(EvaluateOperands(ps, sub, desired, isAnd, running, counter, ph).value.components,
                    PreorderAll(ps, negated), counter, sub, desired != negated)
    decreases ps, 0
  {
    EvaluatedOperandSplit(ps, sub, desired, isAnd, running, counter, ph);
    var e := Evaluate(ps[0], sub, desired, counter, ph).value;
    var r := EvaluateOperands(ps[1..], sub, desired, isAnd, e.outcome, e.next, ph).value;
    EvaluateAligned(ps[0], sub, desired, counter, ph, negated);
    OperandsAligned(ps[1..], sub, desired, isAnd, e.outcome, e.next, ph, negated);
    AlignedAppend(e.components, Preorder(ps[0], negated), r.components, PreorderAll(ps[1..], negated),
                  counter, sub, desired != negated);
    assert PreorderAll(ps, negated) == Preorder(ps[0], negated) + PreorderAll(ps[1..], negated);
  }

  /** An evaluated operand's components come first, then the rest of the run's. */
  lemma EvaluatedOperandSplit(ps: seq<Pred>, sub: Submission, desired: bool, isAnd: bool, running: bool, counter: int, ph: Phrasing)
    requires ps != [] && running == isAnd
    requires EvaluateOperands(ps, sub, desired, isAnd, running, counter, ph).Success?
    ensures Evaluate(ps[0], sub, desired, counter, ph).Success?
    ensures var e := Evaluate(ps[0], sub, desired, counter, ph).value;
            && EvaluateOperands(ps[1..], sub, desired, isAnd, e.outcome, e.next, ph).Success?
            && EvaluateOperands(ps, sub, desired, isAnd, running, counter, ph).value.components
               == e.components + EvaluateOperands(ps[1..], sub, desired, isAnd, e.outcome, e.next, ph).value.components
  {
  }

  lemma {:induction false} SkippedOperandAligned(ps: seq<Pred>, sub: Submission, desired: bool, isAnd: bool, running: bool,
                                                 counter: int, ph: Phrasing, negated: bool)
    requires ps != [] && running != isAnd
    requires EvaluateOperands(ps, sub, desired, isAnd, running, counter, ph).Success?
    ensures Aligned(EvaluateOperands(ps, sub, desired, isAnd, running, counter, ph).value.components,
                    PreorderAll(ps, negated), counter, sub, desired != negated)
    decreases ps, 0
  {
    SkippedOperands(ps, sub, desired, isAnd, running, counter, ph);
  }

  /** The caption a node shows for a given polarity. */
  function NodeCaption(node: Pred, exercise: string, positive: bool): string
  {
    Describe(node, exercise, positive, 0).0.caption
  }

  function Captions(slots: seq<Slot>, exercise: string, positive: bool): (r: seq<string>)
    ensures |r| == |slots|
  {
    seq(|slots|, k requires 0 <= k < |slots| => NodeCaption(slots[k].node, exercise, positive != slots[k].negated))
  }

  /** The instruction tree lists, in pre-order, the captions of exactly the
      numbered nodes, each in the polarity its negations give it: the caption
      at position `k` belongs to the node that evaluation numbers `init + k`. */
  lemma {:induction false} CaptionsFollowPreorder(p: Pred, exercise: string, positive: bool, init: int, negated: bool)
    ensures Labels(Describe(p, exercise, positive, init).0) == Captions(Preorder(p, negated), exercise, positive != negated)
    decreases p, 1
  {
    if p.Negation? {
      CaptionsFollowPreorder(p.negated, exercise, !positive, init, !negated);
    } else if p.ConjunctiveCheck? {
      CompositeCaptions(true, p.conjuncts, exercise, positive, init, negated);
    } else if p.DisjunctiveCheck? {
      CompositeCaptions(false, p.disjuncts, exercise, positive, init, negated);
    } else {
      DescribeIgnoresCounter(p, exercise, positive, init, 0);
      assert Preorder(p, negated) == [Slot(p, negated)];
    }
  }

  lemma {:induction false} CompositeCaptions(isAnd: bool, ps: seq<Pred>, exercise: string, positive: bool, init: int, negated: bool)
    ensures Labels(Describe(Composite(isAnd, ps), exercise, positive, init).0)
         == Captions(Preorder(Composite(isAnd, ps), negated), exercise, positive != negated)
    decreases Composite(isAnd, ps), 0
  {
    var p := Composite(isAnd, ps);
    CompositeTree(isAnd, ps, exercise, positive, init);
    CaptionsAllFollowPreorder(ps, exercise, positive, init + 1, negated);
    CompositePreorder(isAnd, ps, negated);
    CaptionsAppend([Slot(p, negated)], PreorderAll(ps, negated), exercise, positive != negated);
    assert Captions([Slot(p, negated)], exercise, positive != negated) == [NodeCaption(p, exercise, positive)];
  }

  lemma CompositeTree(isAnd: bool, ps: seq<Pred>, exercise: string, positive: bool, init: int)
    ensures var t := Describe(Composite(isAnd, ps), exercise, positive, init).0;
            && t.caption == NodeCaption(Composite(isAnd, ps), exercise, positive)
            && t.subtrees == DescribeAll(ps, exercise, positive, init + 1).0
            && Labels(t) == [t.caption] + LabelsAll(t.subtrees)
  {
    DescribeIgnoresCounter(Composite(isAnd, ps), exercise, positive, init, 0);
  }

  lemma CompositePreorder(isAnd: bool, ps: seq<Pred>, negated: bool)
    ensures Preorder(Composite(isAnd, ps), negated) == [Slot(Composite(isAnd, ps), negated)] + PreorderAll(ps, negated)
  {
  }

  lemma {:induction false} CaptionsAllFollowPreorder(ps: seq<Pred>, exercise: string, positive: bool, init: int, negated: bool)
    ensures LabelsAll(DescribeAll(ps, exercise, positive, init).0) == Captions(PreorderAll(ps, negated), exercise, positive != negated)
    decreases ps
  {
    if ps != [] {
      var (t, next) := Describe(ps[0], exercise, positive, init);
      var ts := DescribeAll(ps[1..], exercise, positive, next).0;
      assert DescribeAll(ps, exercise, positive, init).0 == [t] + ts;
      assert ([t] + ts)[1..] == ts;
      CaptionsFollowPreorder(ps[0], exercise, positive, init, negated);
      CaptionsAllFollowPreorder(ps[1..], exercise, positive, next, negated);
      CaptionsAppend(Preorder(ps[0], negated), PreorderAll(ps[1..], negated), exercise, positive != negated);
    }
  }

  lemma CaptionsAppend(a: seq<Slot>, b: seq<Slot>, exercise: string, positive: bool)
    ensures Captions(a + b, exercise, positive) == Captions(a, exercise, positive) + Captions(b, exercise, positive)
  {
  }

  // ---------------------------------------------------------------------
  // Which nodes are evaluated

  /** The numbers of the nodes a predicate's evaluation reaches, computed
      from the truth values alone: every composite and atom below a reached
      negation, composite or operand, except that a run of operands stops
      after the first operand whose truth decides the composite (false for a
      conjunction, true for a disjunction). */
  function Reached(p: Pred, sub: Submission, init: int): seq<int>
    decreases p
  {
    match p
    case Negation(q) => Reached(q, sub, init)
    case ConjunctiveCheck(ps) => [init] + ReachedOperands(ps, sub, true, init + 1)
    case DisjunctiveCheck(ps) => [init] + ReachedOperands(ps, sub, false, init + 1)
    case _ => [init]
  }

  function ReachedOperands(ps: seq<Pred>, sub: Submission, isAnd: bool, counter: int): seq<int>
    decreases ps
  {
    if ps == [] then []
    else
      Reached(ps[0], sub, counter)
      + (if Sat(ps[0], sub) == isAnd then ReachedOperands(ps[1..], sub, isAnd, counter + Width(ps[0])) else [])
  }

  /** The numbers the components carry, in order. */
  function Numbers(cs: seq<Component>): (r: seq<int>)
    ensures |r| == |cs|
  {
    seq(|cs|, i requires 0 <= i < |cs| => cs[i].number)
  }

  lemma NumbersAppend(a: seq<Component>, b: seq<Component>)
    ensures Numbers(a + b) == Numbers(a) + Numbers(b)
  {
  }

  /** A successful evaluation emits one component for each node it reaches,
      in evaluation order, and none for any other node: together with
      `EvaluateAligned`, the components are exactly the reports on the
      reached nodes. */
  lemma {:induction false} EvaluateReaches(p: Pred, sub: Submission, desired: bool, init: int, ph: Phrasing)
    requires Evaluate(p, sub, desired, init, ph).Success?
    ensures Numbers(Evaluate(p, sub, desired, init, ph).value.components) == Reached(p, sub, init)
    decreases p, 1
  {
    if p.Negation? {
      EvaluateReaches(p.negated, sub, !desired, init, BelowNegation(ph));
    } else if p.ConjunctiveCheck? {
      CompositeReaches(true, p.conjuncts, sub, desired, init, ph);
    } else if p.DisjunctiveCheck? {
      CompositeReaches(false, p.disjuncts, sub, desired, init, ph);
    } else {
      assert Evaluate(p, sub, desired, init, ph) == EvaluateAtom(p, sub, desired, init);
    }
  }

  lemma {:induction false} CompositeReaches(isAnd: bool, ps: seq<Pred>, sub: Submission, desired: bool, init: int, ph: Phrasing)
    requires Evaluate(Composite(isAnd, ps), sub, desired, init, ph).Success?
    ensures Numbers(Evaluate(Composite(isAnd, ps), sub, desired, init, ph).value.components)
         == Reached(Composite(isAnd, ps), sub, init)
    decreases Composite(isAnd, ps), 0
  {
    var run := EvaluateOperands(ps, sub, desired, isAnd, isAnd, init + 1, ForOperands(ph)).value;
    var c := Report(init, run.outcome, desired, CompositeExplanation(isAnd, desired, run.outcome, ph.flipped));
    CompositeEvaluation(isAnd, ps, sub, desired, init, ph);
    OperandsReach(ps, sub, desired, isAnd, isAnd, init + 1, ForOperands(ph));
    NumbersAppend([c], run.components);
    assert Numbers([c]) == [init];
    assert Evaluate(Composite(isAnd, ps), sub, desired, init, ph).value.components == [c] + run.components;
    assert Reached(Composite(isAnd, ps), sub, init) == [init] + ReachedOperands(ps, sub, isAnd, init + 1);
  }

  lemma {:induction false} OperandsReach(ps: seq<Pred>, sub: Submission, desired: bool, isAnd: bool, running: bool,
                                         counter: int, ph: Phrasing)
    requires EvaluateOperands(ps, sub, desired, isAnd, running, counter, ph).Success?
    ensures Numbers(EvaluateOperands(ps, sub, desired, isAnd, running, counter, ph).value.components)
         == if running == isAnd then ReachedOperands(ps, sub, isAnd, counter) else []
    decreases ps
  {
    if ps == [] {
    } else if running == isAnd {
      EvaluatedOperandSplit(ps, sub, desired, isAnd, running, counter, ph);
      var e := Evaluate(ps[0], sub, desired, counter, ph).value;
      var r := EvaluateOperands(ps[1..], sub, desired, isAnd, e.outcome, e.next, ph).value;
      EvaluateReaches(ps[0], sub, desired, counter, ph);
      EvaluateIsSat(ps[0], sub, desired, counter, ph);
      OperandsReach(ps[1..], sub, desired, isAnd, e.outcome, e.next, ph);
      NumbersAppend(e.components, r.components);
    } else {
      SkippedOperands(ps, sub, desired, isAnd, running, counter, ph);
    }
  }

  // ---------------------------------------------------------------------
  // How explanations are phrased

  /** The operator an instruction header announces: "all of" is AND, both
      spellings of "at least one of" are OR. */
  function HeaderOperator(caption: string): string
  {
    if caption == AllOfText then "AND" else "OR"
  }

  lemma HeadersAnnounce()
    ensures HeaderOperator(AllOfText) == "AND"
    ensures HeaderOperator(AtLeastOneConjText) == "OR"
    ensures HeaderOperator(AtLeastOneDisjText) == "OR"
  {
    assert |AllOfText| != |AtLeastOneConjText| && |AllOfText| != |AtLeastOneDisjText|;
  }

  /** Component `c` on numbered node `s` explains itself the way the node
      appears in the instructions of a check that should yield `desired`:
      a composite's explanation names the operator its header announces,
      the check's desired outcome, and the node's truth in that polarity. */
  predicate Phrased(c: Component, s: Slot, exercise: string, desired: bool)
  {
    (s.node.ConjunctiveCheck? || s.node.DisjunctiveCheck?) && c.explanation.Some? ==>
      c.explanation.value == Explanation(HeaderOperator(NodeCaption(s.node, exercise, !s.negated)), desired, c.outcome != s.negated)
  }

  predicate PhrasedAll(cs: seq<Component>, slots: seq<Slot>, base: int, exercise: string, desired: bool)
  {
    forall i :: 0 <= i < |cs| ==>
      base <= cs[i].number < base + |slots| && Phrased(cs[i], slots[cs[i].number - base], exercise, desired)
  }

  lemma PhrasedAppend(c1: seq<Component>, s1: seq<Slot>, c2: seq<Component>, s2: seq<Slot>,
                      base: int, exercise: string, desired: bool)
    requires PhrasedAll(c1, s1, base, exercise, desired)
    requires PhrasedAll(c2, s2, base + |s1|, exercise, desired)
    ensures PhrasedAll(c1 + c2, s1 + s2, base, exercise, desired)
  {
    var cs := c1 + c2;
    var ss := s1 + s2;
    forall i | 0 <= i < |cs|
      ensures base <= cs[i].number < base + |ss|
      ensures Phrased(cs[i], ss[cs[i].number - base], exercise, desired)
    {
      if i < |c1| {
        assert cs[i] == c1[i];
        assert ss[cs[i].number - base] == s1[cs[i].number - base];
      } else {
        assert cs[i] == c2[i - |c1|];
        assert ss[cs[i].number - base] == s2[cs[i].number - base - |s1|];
      }
    }
  }

  /** With the negation flag propagated, every composite that reports a
      mismatch explains it in the terms the instructions show it in: the
      operator its header announces, the outcome the whole check should
      yield, and what the node, as shown, yielded. */
  lemma {:induction false} ExplanationsFollowInstructions(p: Pred, sub: Submission, desired: bool, init: int,
                                                          negated: bool, exercise: string)
    requires Evaluate(p, sub, desired, init, Phrasing(true, negated)).Success?
    ensures PhrasedAll(Evaluate(p, sub, desired, init, Phrasing(true, negated)).value.components,
                       Preorder(p, negated), init, exercise, desired != negated)
    decreases p, 1
  {
    if p.Negation? {
      ExplanationsFollowInstructions(p.negated, sub, !desired, init, !negated, exercise);
    } else if p.ConjunctiveCheck? {
      CompositePhrased(true, p.conjuncts, sub, desired, init, negated, exercise);
    } else if p.DisjunctiveCheck? {
      CompositePhrased(false, p.disjuncts, sub, desired, init, negated, exercise);
    } else {
      var e := Evaluate(p, sub, desired, init, Phrasing(true, negated)).value;
      assert e == EvaluateAtom(p, sub, desired, init).value;
      assert Preorder(p, negated) == [Slot(p, negated)];
    }
  }

  /** The explanation of a composite at a given parity of negations. */
  lemma CompositeExplanationShown(isAnd: bool, ps: seq<Pred>, exercise: string, desired: bool, outcome: bool, negated: bool)
    ensures CompositeExplanation(isAnd, desired, outcome, negated)
         == Explanation(HeaderOperator(NodeCaption(Composite(isAnd, ps), exercise, !negated)), desired != negated, outcome != negated)
  {
    HeadersAnnounce();
    DescribeIgnoresCounter(Composite(isAnd, ps), exercise, !negated, 0, 0);
  }

  lemma {:induction false} CompositePhrased(isAnd: bool, ps: seq<Pred>, sub: Submission, desired: bool, init: int,
                                            negated: bool, exercise: string)
    requires Evaluate(Composite(isAnd, ps), sub, desired, init, Phrasing(true, negated)).Success?
    ensures PhrasedAll(Evaluate(Composite(isAnd, ps), sub, desired, init, Phrasing(true, negated)).value.components,
                       Preorder(Composite(isAnd, ps), negated), init, exercise, desired != negated)
    decreases Composite(isAnd, ps), 0
  {
    var p := Composite(isAnd, ps);
    var ph := Phrasing(true, negated);
    var run := EvaluateOperands(ps, sub, desired, isAnd, isAnd, init + 1, ph).value;
    var c := Report(init, run.outcome, desired, CompositeExplanation(isAnd, desired, run.outcome, negated));
    CompositeEvaluation(isAnd, ps, sub, desired, init, ph);
    assert ForOperands(ph) == ph;
    OperandsPhrased(ps, sub, desired, isAnd, isAnd, init + 1, negated, exercise);
    OwnComponentPhrased(isAnd, ps, desired, init, run.outcome, negated, exercise);
    PhrasedAppend([c], [Slot(p, negated)], run.components, PreorderAll(ps, negated), init, exercise, desired != negated);
    CompositePreorder(isAnd, ps, negated);
  }

  /** The component a composite emits for itself is phrased as its
      instructions show it. */
  lemma OwnComponentPhrased(isAnd: bool, ps: seq<Pred>, desired: bool, init: int, outcome: bool,
                            negated: bool, exercise: string)
    ensures PhrasedAll([Report(init, outcome, desired, CompositeExplanation(isAnd, desired, outcome, negated))],
                       [Slot(Composite(isAnd, ps), negated)], init, exercise, desired != negated)
  {
    var c := Report(init, outcome, desired, CompositeExplanation(isAnd, desired, outcome, negated));
    CompositeExplanationShown(isAnd, ps, exercise, desired, outcome, negated);
    assert Phrased(c, Slot(Composite(isAnd, ps), negated), exercise, desired != negated);
  }

  lemma {:induction false} OperandsPhrased(ps: seq<Pred>, sub: Submission, desired: bool, isAnd: bool, running: bool,
                                           counter: int, negated: bool, exercise: string)
    requires EvaluateOperands(ps, sub, desired, isAnd, running, counter, Phrasing(true, negated)).Success?
    ensures PhrasedAll(EvaluateOperands(ps, sub, desired, isAnd, running, counter, Phrasing(true, negated)).value.components,
                       PreorderAll(ps, negated), counter, exercise, desired != negated)
    decreases ps
  {
    if ps == [] {
    } else if running == isAnd {
      EvaluatedOperandPhrased(ps, sub, desired, isAnd, running, counter, negated, exercise);
    } else {
      SkippedOperands(ps, sub, desired, isAnd, running, counter, Phrasing(true, negated));
    }
  }

  lemma {:induction false} EvaluatedOperandPhrased(ps: seq<Pred>, sub: Submission, desired: bool, isAnd: bool, running: bool,
                                                   counter: int, negated: bool, exercise: string)
    requires ps != [] && running == isAnd
    requires EvaluateOperands(ps, sub, desired, isAnd, running, counter, Phrasing(true, negated)).Success?
    ensures PhrasedAll(EvaluateOperands(ps, sub, desired, isAnd, running, counter, Phrasing(true, negated)).value.components,
                       PreorderAll(ps, negated), counter, exercise, desired != negated)
    decreases ps, 0
  {
    var ph := Phrasing(true, negated);
    EvaluatedOperandSplit(ps, sub, desired, isAnd, running, counter, ph);
    var e := Evaluate(ps[0], sub, desired, counter, ph).value;
    var r := EvaluateOperands(ps[1..], sub, desired, isAnd, e.outcome, e.next, ph).value;
    var s1 := Preorder(ps[0], negated);
    var s2 := PreorderAll(ps[1..], negated);
    assert e.next == counter + |s1|;
    ExplanationsFollowInstructions(ps[0], sub, desired, counter, negated, exercise);
    OperandsPhrased(ps[1..], sub, desired, isAnd, e.outcome, e.next, negated, exercise);
    PhrasedAppend(e.components, s1, r.components, s2, counter, exercise, desired != negated);
    assert PreorderAll(ps, negated) == s1 + s2;
  }

  /** What the source promises for the immediate operand of a negation,
      under either rule: when the negation hands it the flag, a conjunction
      or disjunction that misses explains itself with the operator the
      negation's instructions announce and with the negation's own desired
      outcome and outcome. */
  lemma NegationExplainsOperand(isAnd: bool, ps: seq<Pred>, sub: Submission, desired: bool, init: int,
                                ph: Phrasing, exercise: string)
    requires BelowNegation(ph).flipped
    requires Evaluate(Negation(Composite(isAnd, ps)), sub, desired, init, ph).Success?
    ensures var e := Evaluate(Negation(Composite(isAnd, ps)), sub, desired, init, ph).value;
            && (e.components[0].explanation.Some? <==> e.outcome != desired)
            && (e.components[0].explanation.Some? ==>
                  e.components[0].explanation.value
                  == Explanation(HeaderOperator(Instructions(Negation(Composite(isAnd, ps)), exercise, init).0.caption),
                                 desired, e.outcome))
  {
    var ch := BelowNegation(ph);
    var run := EvaluateOperands(ps, sub, !desired, isAnd, isAnd, init + 1, ForOperands(ch)).value;
    CompositeEvaluation(isAnd, ps, sub, !desired, init, ch);
    CompositeExplanationShown(isAnd, ps, exercise, !desired, run.outcome, true);
    CompositeTree(isAnd, ps, exercise, false, init);
  }

  /** The code as written hands the flag only to a negation's immediate
      operand. In `not (all of [any of [True]])` the inner disjunction is
      shown under the header "all of", wanted true, yet explains itself as
      "OR moest False leveren, leverde True"; with the flag propagated it
      reads "AND moest True leveren, leverde False". */
  lemma NestedExplanationAsWritten(sub: Submission, exercise: string)
    ensures var p := Negation(ConjunctiveCheck([DisjunctiveCheck([TrueCheck])]));
            && Instructions(p, exercise, 1).0.caption == AtLeastOneConjText
            && Instructions(p, exercise, 1).0.subtrees[0].caption == AllOfText
            && Evaluate(p, sub, true, 1, AsWritten).Success?
            && Evaluate(p, sub, true, 1, AsWritten).value.components[0].explanation == Some(OuterText)
            && Evaluate(p, sub, true, 1, AsWritten).value.components[1].explanation == Some(InnerAsWrittenText)
            && Evaluate(p, sub, true, 1, Intended).Success?
            && Evaluate(p, sub, true, 1, Intended).value.components[0].explanation == Some(OuterText)
            && Evaluate(p, sub, true, 1, Intended).value.components[1].explanation == Some(InnerIntendedText)
  {
    var d := DisjunctiveCheck([TrueCheck]);
    NestedInstructions(exercise);
    NestedConjunction(sub);
    assert Evaluate(Negation(ConjunctiveCheck([d])), sub, true, 1, AsWritten)
        == Success(Eval(false, [Report(1, true, false, OuterText), Report(2, true, false, InnerAsWrittenText), Report(3, true, false, TrueExplanation)], 4));
    assert Evaluate(Negation(ConjunctiveCheck([d])), sub, true, 1, Intended)
        == Success(Eval(false, [Report(1, true, false, OuterText), Report(2, true, false, InnerIntendedText), Report(3, true, false, TrueExplanation)], 4));
  }

  /** "OR moest True leveren, leverde False" */
  const OuterText := Explanation("OR", true, false)
  /** "OR moest False leveren, leverde True" */
  const InnerAsWrittenText := Explanation("OR", false, true)
  /** "AND moest True leveren, leverde False" */
  const InnerIntendedText := Explanation("AND", true, false)

  lemma NestedTexts()
    ensures CompositeExplanation(true, false, true, true) == OuterText
    ensures CompositeExplanation(false, false, true, false) == InnerAsWrittenText
    ensures CompositeExplanation(false, false, true, true) == InnerIntendedText
  {
  }

  lemma NestedInstructions(exercise: string)
    ensures var p := Negation(ConjunctiveCheck([DisjunctiveCheck([TrueCheck])]));
            && Instructions(p, exercise, 1).0.caption == AtLeastOneConjText
            && Instructions(p, exercise, 1).0.subtrees[0].caption == AllOfText
  {
    var d := DisjunctiveCheck([TrueCheck]);
    assert DescribeAll([TrueCheck], exercise, false, 3).0 == [Tree("False", [])];
    assert Describe(d, exercise, false, 2).0 == Tree(AllOfText, [Tree("False", [])]);
    assert DescribeAll([d], exercise, false, 2).0 == [Tree(AllOfText, [Tree("False", [])])];
  }

  /** The inner disjunction of the example, wanted false, in both modes. */
  lemma NestedDisjunction(sub: Submission)
    ensures Evaluate(DisjunctiveCheck([TrueCheck]), sub, false, 2, Phrasing(false, false))
         == Success(Eval(true, [Report(2, true, false, InnerAsWrittenText), Report(3, true, false, TrueExplanation)], 4))
    ensures Evaluate(DisjunctiveCheck([TrueCheck]), sub, false, 2, Phrasing(true, true))
         == Success(Eval(true, [Report(2, true, false, InnerIntendedText), Report(3, true, false, TrueExplanation)], 4))
  {
    var t := Report(3, true, false, TrueExplanation);
    NestedTexts();
    var w2 := Report(2, true, false, InnerAsWrittenText);
    var i2 := Report(2, true, false, InnerIntendedText);
    assert [TrueCheck][1..] == [];
    assert [t] + [] == [t];
    assert [w2] + [t] == [w2, t] && [i2] + [t] == [i2, t];
    assert EvaluateOperands([TrueCheck], sub, false, false, false, 3, Phrasing(false, false)) == Success(Eval(true, [t], 4));
    assert EvaluateOperands([TrueCheck], sub, false, false, false, 3, Phrasing(true, true)) == Success(Eval(true, [t], 4));
  }

  /** The conjunction below the negation, wanted false, in both modes. */
  lemma NestedConjunction(sub: Submission)
    ensures Evaluate(ConjunctiveCheck([DisjunctiveCheck([TrueCheck])]), sub, false, 1, Phrasing(false, true))
         == Success(Eval(true, [Report(1, true, false, OuterText), Report(2, true, false, InnerAsWrittenText), Report(3, true, false, TrueExplanation)], 4))
    ensures Evaluate(ConjunctiveCheck([DisjunctiveCheck([TrueCheck])]), sub, false, 1, Phrasing(true, true))
         == Success(Eval(true, [Report(1, true, false, OuterText), Report(2, true, false, InnerIntendedText), Report(3, true, false, TrueExplanation)], 4))
  {
    var d := DisjunctiveCheck([TrueCheck]);
    var t := Report(3, true, false, TrueExplanation);
    var w2 := Report(2, true, false, InnerAsWrittenText);
    var i2 := Report(2, true, false, InnerIntendedText);
    var c1 := Report(1, true, false, OuterText);
    NestedTexts();
    NestedDisjunction(sub);
    assert [d][1..] == [];
    assert [w2, t] + [] == [w2, t] && [i2, t] + [] == [i2, t];
    assert [c1] + [w2, t] == [c1, w2, t] && [c1] + [i2, t] == [c1, i2, t];
    assert EvaluateOperands([d], sub, false, true, true, 2, Phrasing(false, false)) == Success(Eval(true, [w2, t], 4));
    assert EvaluateOperands([d], sub, false, true, true, 2, Phrasing(true, true)) == Success(Eval(true, [i2, t], 4));
  }
}
