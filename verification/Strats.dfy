/** The checking-predicate engine: a closed algebra of predicates over a
    student's submission, the natural-language instruction trees generated
    from it, the evaluation that produces numbered outcome components, and
    the strategy that classifies a submission as refused, accepted or
    undecided.

    Every generator threads an explicit component counter. Instruction
    generation only uses the counter to learn how many numbers a predicate
    consumes; evaluation numbers its components with it, and charges skipped
    (short-circuited) children their full width by asking their instructions
    for it. */
module Strats {
  import opened Wrappers
  import opened Faults
  import opened Text
  import opened MultipleChoiceParser
  import opened MultipleChoiceChecker

  datatype Pred =
    | TrueCheck
    | Negation(negated: Pred)
    | ConjunctiveCheck(conjuncts: seq<Pred>)
    | DisjunctiveCheck(disjuncts: seq<Pred>)
    | FileExistsCheck(name: Option<string>, extension: Option<string>)
    | MultipleChoiceFormatCheck
    | MultipleChoiceAnswerCheck(mcData: seq<Question>)

  /** The number of component numbers a predicate consumes: one per node,
      except that a negation is absorbed into its operand. */
  function Width(p: Pred): nat
    decreases p
  {
    match p
    case Negation(q) => Width(q)
    case ConjunctiveCheck(ps) => 1 + WidthSum(ps)
    case DisjunctiveCheck(ps) => 1 + WidthSum(ps)
    case _ => 1
  }

  function WidthSum(ps: seq<Pred>): nat
    decreases ps
  {
    if ps == [] then 0 else Width(ps[0]) + WidthSum(ps[1..])
  }

  // ---------------------------------------------------------------------
  // Instruction trees

  /** An instruction tree: a caption and the trees of the operands. An atom's
      instructions are a tree without subtrees. */
  datatype Tree = Tree(caption: string, subtrees: seq<Tree>)

  /** The number of captions in a tree. */
  function Size(t: Tree): nat
    decreases t
  {
    1 + SizeSum(t.subtrees)
  }

  function SizeSum(ts: seq<Tree>): nat
    decreases ts
  {
    if ts == [] then 0 else Size(ts[0]) + SizeSum(ts[1..])
  }

  /** The captions of a tree in pre-order. */
  function Labels(t: Tree): (r: seq<string>)
    decreases t
  {
    [t.caption] + LabelsAll(t.subtrees)
  }

  function LabelsAll(ts: seq<Tree>): seq<string>
    decreases ts
  {
    if ts == [] then [] else Labels(ts[0]) + LabelsAll(ts[1..])
  }

  /** Two trees branch identically (captions aside). */
  predicate SameShape(a: Tree, b: Tree)
    decreases a
  {
    && |a.subtrees| == |b.subtrees|
    && forall i :: 0 <= i < |a.subtrees| ==> SameShape(a.subtrees[i], b.subtrees[i])
  }

  const AllOfText := "Aan al volgende voorwaarden is voldaan:"
  /** The header of a conjunction's negative instructions. */
  const AtLeastOneConjText := "Aan minstens één van volgende voorwaarden is voldaan:"
  /** The header of a disjunction's instructions; spelled without accents,
      unlike the conjunction's negative header. */
  const AtLeastOneDisjText := "Aan minstens een van volgende voorwaarden is voldaan:"

  /** Python truthiness of an optional string. */
  predicate Truthy(s: Option<string>)
  {
    s.Some? && s.value != ""
  }

  /** `FileExistsCheck.entry`: the expected file name. */
  function Entry(name: Option<string>, extension: Option<string>, exercise: string): string
  {
    (if Truthy(name) then name.value else exercise)
    + (if Truthy(extension) then "." + extension.value else "")
  }

  /** `instructions` (positive) and `negative_instructions` (not positive) of
      a predicate, numbered from `init`: the tree and the next free number.
      A negation generates its operand's instructions of the opposite
      polarity, which is how De Morgan's laws are pushed to the leaves. */
  function Describe(p: Pred, exercise: string, positive: bool, init: int): (r: (Tree, int))
    ensures r.1 == init + Width(p)
    ensures Size(r.0) == Width(p)
    decreases p
  {
    match p
    case Negation(q) =>
      Describe(q, exercise, !positive, init)
    case ConjunctiveCheck(ps) =>
      var (subtrees, next) := DescribeAll(ps, exercise, positive, init + 1);
      (Tree(if positive then AllOfText else AtLeastOneConjText, subtrees), next)
    case DisjunctiveCheck(ps) =>
      var (subtrees, next) := DescribeAll(ps, exercise, positive, init + 1);
      (Tree(if positive then AtLeastOneDisjText else AllOfText, subtrees), next)
    case _ =>
      (Tree(AtomCaption(p, exercise, positive), []), init + 1)
  }

  /** The one instruction an atom generates, in either polarity. */
  function AtomCaption(p: Pred, exercise: string, positive: bool): string
    requires IsAtom(p)
  {
    match p
    case TrueCheck =>
      if positive then "True" else "False"
    case FileExistsCheck(name, extension) =>
      (if positive then FileText else NoFileText) + Entry(name, extension, exercise)
    case MultipleChoiceFormatCheck =>
      if positive then FormatText else NoFormatText
    case MultipleChoiceAnswerCheck(_) =>
      if positive then AnswersText else NoAnswersText
  }

  const FileText := "Je hebt een bestand met naam "
  const NoFileText := "Je hebt geen bestand met naam "
  const FormatText := "Je multiple choice bestand volgt <HET AFGESPROKEN FORMAAT>."
  const NoFormatText := "Je multiple choice bestand volgt <HET AFGESPROKEN FORMAAT> niet."
  const AnswersText := "Je hebt alle correcte antwoorden per vraag aangeduid."
  const NoAnswersText := "Je hebt niet alle correcte antwoorden per vraag aangeduid."

  /** The operands' instructions, left to right, each numbered from where
      the previous one stopped. */
  function DescribeAll(ps: seq<Pred>, exercise: string, positive: bool, init: int): (r: (seq<Tree>, int))
    ensures |r.0| == |ps|
    ensures r.1 == init + WidthSum(ps)
    ensures SizeSum(r.0) == WidthSum(ps)
    decreases ps
  {
    if ps == [] then ([], init)
    else
      var (t, next) := Describe(ps[0], exercise, positive, init);
      var (ts, last) := DescribeAll(ps[1..], exercise, positive, next);
      ([t] + ts, last)
  }

  /** `instructions`: one caption per node, numbered from `init`. */
  function Instructions(p: Pred, exercise: string, init: int): (r: (Tree, int))
    ensures r.1 == init + Width(p)
    ensures Size(r.0) == Width(p)
  {
    Describe(p, exercise, true, init)
  }

  /** `negative_instructions`: one caption per node, numbered from `init`. */
  function NegativeInstructions(p: Pred, exercise: string, init: int): (r: (Tree, int))
    ensures r.1 == init + Width(p)
    ensures Size(r.0) == Width(p)
  {
    Describe(p, exercise, false, init)
  }

  // ---------------------------------------------------------------------
  // Submissions and evaluation

  /** What reading a file of the submission yields: the tokens its content
      lexes to, and the `qa` groups ANTLR's error recovery builds from them,
      which are only consulted when the tokens contain a syntax error. */
  datatype Source = Source(tokens: seq<Token>, recovered: seq<Qa>)

  /** The submission as the engine sees it: the exercise it answers and the
      files at the top level of its working copy. */
  datatype Submission = Submission(exercise: string, files: map<string, Source>)

  function McPath(exercise: string): string
  {
    exercise + ".mc"
  }

  /** Opening the exercise's `.mc` file. */
  function ReadMc(sub: Submission): Result<Source, Fault>
  {
    var path := McPath(sub.exercise);
    if path in sub.files then Success(sub.files[path]) else Failure(MissingFile(path))
  }

  /** The parse tree the answer checker walks. */
  function ParseTree(source: Source): seq<Qa>
  {
    match Multiplechoice(source.tokens)
    case Some(qas) => qas
    case None => source.recovered
  }

  /** One evaluated node's record. */
  datatype Component = Component(
    number: int,
    outcome: bool,
    desired: bool,
    renderer: Option<string>,
    explanation: Option<string>)

  /** A component that carries the explanation (in the "text" renderer)
      only when the outcome differs from the desired one. */
  function Report(number: int, outcome: bool, desired: bool, explanation: string): (c: Component)
    ensures c.number == number && c.outcome == outcome && c.desired == desired
    ensures c.renderer == (if outcome != desired then Some("text") else None)
    ensures c.explanation.Some? <==> outcome != desired
  {
    if outcome == desired then Component(number, outcome, desired, None, None)
    else Component(number, outcome, desired, Some("text"), Some(explanation))
  }

  /** The result of evaluating a predicate (or a run of operands): its
      outcome, its components in evaluation order, and the next free number. */
  datatype Eval = Eval(outcome: bool, components: seq<Component>, next: int)

  /** How a conjunction or disjunction phrases its explanation. `flipped`
      is the flag the node was handed: when set, the explanation names the
      other operator and the negated outcomes, as the node appears in
      instructions where a negation was pushed inwards. `propagate` selects
      the rule by which the flag is handed down: as written, a negation sets
      it for its immediate child and a composite clears it for its operands;
      propagated, each negation toggles it and operands inherit it, so it
      records the parity of the negations above the node. */
  datatype Phrasing = Phrasing(propagate: bool, flipped: bool)

  /** The phrasing at the root of a check, for the code as written and for
      the intended behaviour that the rest of the model uses. */
  const AsWritten := Phrasing(false, false)
  const Intended := Phrasing(true, false)

  function BelowNegation(ph: Phrasing): Phrasing
  {
    if ph.propagate then Phrasing(true, !ph.flipped) else Phrasing(false, true)
  }

  function ForOperands(ph: Phrasing): Phrasing
  {
    if ph.propagate then ph else Phrasing(false, false)
  }

  /** `check_submission` of a predicate, numbering components from `init`.
      `Failure` is an exception propagating out of the predicate tree. */
  function Evaluate(p: Pred, sub: Submission, desired: bool, init: int, ph: Phrasing): (r: Result<Eval, Fault>)
    ensures r.Success? ==> r.value.next == init + Width(p)
    ensures r.Success? ==> |r.value.components| >= 1 && r.value.components[0].number == init
    decreases p
  {
    match p
    case Negation(q) =>
      var e :- Evaluate(q, sub, !desired, init, BelowNegation(ph));
      Success(Eval(!e.outcome, e.components, e.next))
    case ConjunctiveCheck(ps) =>
      var run :- EvaluateOperands(ps, sub, desired, true, true, init + 1, ForOperands(ph));
      var own := Report(init, run.outcome, desired, CompositeExplanation(true, desired, run.outcome, ph.flipped));
      Success(Eval(run.outcome, [own] + run.components, run.next))
    case DisjunctiveCheck(ps) =>
      var run :- EvaluateOperands(ps, sub, desired, false, false, init + 1, ForOperands(ph));
      var own := Report(init, run.outcome, desired, CompositeExplanation(false, desired, run.outcome, ph.flipped));
      Success(Eval(run.outcome, [own] + run.components, run.next))
    case _ =>
      EvaluateAtom(p, sub, desired, init)
  }

  /** The explanation of a conjunction (`isAnd`) or disjunction whose outcome
      is not the desired one. When `flipped`, it is phrased for the operator
      and the outcome as the student saw them in the instructions, where a
      negation was pushed inwards. */
  function CompositeExplanation(isAnd: bool, desired: bool, outcome: bool, flipped: bool): string
  {
    if !flipped then Explanation(if isAnd then "AND" else "OR", desired, outcome)
    else Explanation(if isAnd then "OR" else "AND", !desired, !outcome)
  }

  /** "`operator` moest `desired` leveren, leverde `outcome`". */
  function Explanation(operator: string, desired: bool, outcome: bool): string
  {
    operator + " moest " + BoolText(desired) + " leveren, leverde " + BoolText(outcome)
  }

  predicate IsAtom(p: Pred)
  {
    !p.Negation? && !p.ConjunctiveCheck? && !p.DisjunctiveCheck?
  }

  /** `check_submission` of an atom: one observation, one component. */
  function EvaluateAtom(p: Pred, sub: Submission, desired: bool, init: int): (r: Result<Eval, Fault>)
    requires IsAtom(p)
    ensures r.Success? ==> r.value.next == init + 1
    ensures r.Success? ==> |r.value.components| == 1 && r.value.components[0].number == init
  {
    var (outcome, explanation) :- Observe(p, sub);
    Success(Eval(outcome, [Report(init, outcome, desired, explanation)], init + 1))
  }

  /** The single observation an atom makes, with the explanation its
      component carries should the outcome not be the desired one. */
  function Observe(p: Pred, sub: Submission): (r: Result<(bool, string), Fault>)
    requires IsAtom(p)
    ensures r.Failure? ==> p.MultipleChoiceFormatCheck? || p.MultipleChoiceAnswerCheck?
    ensures p.TrueCheck? ==> r.Success? && r.value.0
  {
    match p
    case TrueCheck =>
      Success((true, TrueExplanation))
    case FileExistsCheck(name, extension) =>
      var entry := Entry(name, extension, sub.exercise);
      var outcome := entry in sub.files;
      Success((outcome, entry + if outcome then FileFoundText else FileMissingText))
    case MultipleChoiceFormatCheck =>
      var source :- ReadMc(sub);
      var outcome := Accepts(source.tokens);
      Success((outcome, if outcome then FormatFollowedText else FormatBrokenText))
    case MultipleChoiceAnswerCheck(mc) =>
      var source :- ReadMc(sub);
      var errors :- Walk(mc, ParseTree(source));
      var outcome := |errors| == 0;
      Success((outcome, if outcome then NoErrorsText
                        else ErrorListText(errors)))
  }

  const TrueExplanation := "aan false kan nooit voldaan zijn"
  const FileFoundText := " mag niet bestaan en bestaat toch"
  const FileMissingText := " moet bestaan, maar bestaat niet"
  const FormatFollowedText := "Je multiple choice bestand volgt het afgesproken formaat en dat mag niet"
  const FormatBrokenText := "Je multiple choice bestand volgt het afgesproken formaat niet en dat moet juist wel"
  const NoErrorsText := "Je hebt geen enkel fout antwoord aangeduid."
  const ErrorsHeader := "Je hebt volgende fouten:"

  /** The answer check's explanation: the header line, then one line per
      mistake. */
  function ErrorListText(errors: seq<McError>): string
  {
    Join("\n", [ErrorsHeader] + Messages(errors))
  }

  function Messages(errors: seq<McError>): seq<string>
  {
    seq(|errors|, i requires 0 <= i < |errors| => Message(errors[i]))
  }

  /** The loop over a conjunction's (`isAnd`) or disjunction's operands.
      `running` is the exit code so far; it starts at `isAnd`, and operands
      are evaluated while it still equals `isAnd` (a conjunction goes on while
      everything held, a disjunction while nothing held), after which it
      becomes the operand's outcome. Once it has flipped, each remaining
      operand is skipped and only charged the width its instructions take. */
  function EvaluateOperands(ps: seq<Pred>, sub: Submission, desired: bool, isAnd: bool, running: bool, counter: int,
                            ph: Phrasing)
    : (r: Result<Eval, Fault>)
    ensures r.Success? ==> r.value.next == counter + WidthSum(ps)
    decreases ps
  {
    if ps == [] then Success(Eval(running, [], counter))
    else if running == isAnd then
      var e :- Evaluate(ps[0], sub, desired, counter, ph);
      var rest :- EvaluateOperands(ps[1..], sub, desired, isAnd, e.outcome, e.next, ph);
      Success(Eval(rest.outcome, e.components + rest.components, rest.next))
    else
      var (_, next) := Instructions(ps[0], sub.exercise, counter);
      EvaluateOperands(ps[1..], sub, desired, isAnd, running, next, ph)
  }

  // ---------------------------------------------------------------------
  // Reference semantics

  /** The plain truth value of a predicate on a submission. An atom whose
      observation would raise is taken to be false; this never matters for a
      successful evaluation, which only observes atoms that do not raise. */
  predicate Sat(p: Pred, sub: Submission)
    decreases p
  {
    match p
    case TrueCheck => true
    case Negation(q) => !Sat(q, sub)
    case ConjunctiveCheck(ps) => forall i :: 0 <= i < |ps| ==> Sat(ps[i], sub)
    case DisjunctiveCheck(ps) => exists i :: 0 <= i < |ps| && Sat(ps[i], sub)
    case FileExistsCheck(name, extension) => Entry(name, extension, sub.exercise) in sub.files
    case MultipleChoiceFormatCheck =>
      McPath(sub.exercise) in sub.files && Accepts(sub.files[McPath(sub.exercise)].tokens)
    case MultipleChoiceAnswerCheck(mc) =>
      McPath(sub.exercise) in sub.files && Walk(mc, ParseTree(sub.files[McPath(sub.exercise)])) == Success([])
  }

  /** No atom of the predicate would raise when observed. */
  predicate NoFault(p: Pred, sub: Submission)
    decreases p
  {
    match p
    case Negation(q) => NoFault(q, sub)
    case ConjunctiveCheck(ps) => forall i :: 0 <= i < |ps| ==> NoFault(ps[i], sub)
    case DisjunctiveCheck(ps) => forall i :: 0 <= i < |ps| ==> NoFault(ps[i], sub)
    case MultipleChoiceFormatCheck => McPath(sub.exercise) in sub.files
    case MultipleChoiceAnswerCheck(mc) =>
      McPath(sub.exercise) in sub.files && Walk(mc, ParseTree(sub.files[McPath(sub.exercise)])).Success?
    case _ => true
  }

  /** A numbered node: the predicate at that number and whether an odd number
      of negations lies above it. */
  datatype Slot = Slot(node: Pred, negated: bool)

  /** The nodes that receive numbers, in pre-order; negations receive none and
      flip the parity of what lies below them. */
  function Preorder(p: Pred, negated: bool): (r: seq<Slot>)
    ensures |r| == Width(p)
    decreases p
  {
    match p
    case Negation(q) => Preorder(q, !negated)
    case ConjunctiveCheck(ps) => [Slot(p, negated)] + PreorderAll(ps, negated)
    case DisjunctiveCheck(ps) => [Slot(p, negated)] + PreorderAll(ps, negated)
    case _ => [Slot(p, negated)]
  }

  function PreorderAll(ps: seq<Pred>, negated: bool): (r: seq<Slot>)
    ensures |r| == WidthSum(ps)
    decreases ps
  {
    if ps == [] then [] else Preorder(ps[0], negated) + PreorderAll(ps[1..], negated)
  }

  // ---------------------------------------------------------------------
  // Strategy

  datatype Strategy = Strategy(refusing: Pred, accepting: Pred)

  /** The strategy used when none is given: never refuse, never accept. */
  const DefaultStrategy: Strategy := Strategy(Negation(TrueCheck), Negation(TrueCheck))

  /** `Strategy.instructions`: the refusing tree numbered from 1 and the
      accepting tree numbered on from where the refusing one stopped. */
  function StrategyInstructions(s: Strategy, exercise: string): (r: (Tree, Tree))
    ensures Size(r.0) == Width(s.refusing)
    ensures Size(r.1) == Width(s.accepting)
  {
    var (refusing, counter) := Instructions(s.refusing, exercise, 1);
    var (accepting, _) := Instructions(s.accepting, exercise, counter);
    (refusing, accepting)
  }

  datatype Classification = Refused | Accepted | Undecided

  /** An entry of the returned analysis: a numbered component, or the
      unnumbered notice (rendered as text) that heads an undecided analysis. */
  datatype Row = Numbered(component: Component) | Notice(text: string)

  datatype Verdict = Verdict(state: Classification, rows: seq<Row>)

  function Rows(cs: seq<Component>): (r: seq<Row>)
    ensures |r| == |cs|
    ensures forall i :: 0 <= i < |r| ==> r[i] == Numbered(cs[i])
  {
    seq(|cs|, i requires 0 <= i < |cs| => Numbered(cs[i]))
  }

  /** `str()` of an outcome that is `None` until its check has returned. */
  function OutcomeText(o: Option<bool>): string
  {
    match o
    case None => "None"
    case Some(b) => BoolText(b)
  }

  /** The opening of the notice that heads an undecided analysis. */
  const UndecidedText := "Het systeem kan niet automatisch bepalen of je inzending klopt. De lector wordt verwittigd. "

  function UndecidedVerdict(refusing: Option<bool>, accepting: Option<bool>,
                            refusingComponents: seq<Component>, acceptingComponents: seq<Component>): Verdict
  {
    var notice := UndecidedText + "Weigering was " + OutcomeText(refusing) + " en aanvaarding was " + OutcomeText(accepting);
    Verdict(Undecided, [Notice(notice)] + Rows(refusingComponents) + Rows(acceptingComponents))
  }

  /** `Strategy.check_submission`: the only place where a fault is caught. */
  function CheckSubmission(s: Strategy, sub: Submission): (v: Verdict)
    ensures v.state == Undecided <==> |v.rows| > 0 && v.rows[0].Notice?
    ensures forall i :: 0 < i < |v.rows| ==> v.rows[i].Numbered?
  {
    match Evaluate(s.refusing, sub, false, 1, Intended)
    case Failure(_) => UndecidedVerdict(None, None, [], [])
    case Success(r) =>
      if r.outcome then Verdict(Refused, Rows(r.components))
      else CheckAccepting(s.accepting, sub, r)
  }

  /** The second half of `Strategy.check_submission`, reached when the
      refusing check, evaluated to `refusal`, did not hold. */
  function CheckAccepting(accepting: Pred, sub: Submission, refusal: Eval): (v: Verdict)
    ensures v.state != Refused
    ensures v.state == Undecided <==> |v.rows| > 0 && v.rows[0].Notice?
    ensures forall i :: 0 < i < |v.rows| ==> v.rows[i].Numbered?
  {
    match Evaluate(accepting, sub, true, refusal.next, Intended)
    case Failure(_) => UndecidedVerdict(Some(false), None, refusal.components, [])
    case Success(a) =>
      if a.outcome then Verdict(Accepted, Rows(a.components))
      else UndecidedVerdict(Some(false), Some(false), refusal.components, a.components)
  }
}
