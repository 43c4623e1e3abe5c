# xchk_core checking engine in Dafny

This project models the part of xchk_core that judges a student submission
and explains the verdict. It covers five pieces of the repository:

- **The predicate engine** (`strats.py`). A strategy holds a *refusing* check
  and an *accepting* check. Each check is a tree of predicates:
  `TrueCheck`, `Negation`, `ConjunctiveCheck`, `DisjunctiveCheck`,
  `FileExistsCheck`, `MultipleChoiceFormatCheck` and
  `MultipleChoiceAnswerCheck`.
  - `instructions` / `negative_instructions` turn a tree into an instruction
    tree of captions. Every non-negation node takes one number. A negation
    swaps the polarity of what lies below it, which is how De Morgan's laws
    are pushed down to the leaves.
  - `check_submission` evaluates a tree into an outcome and a list of
    *components*. A component is the tuple (number, outcome, desired outcome,
    renderer, explanation). Conjunctions and disjunctions short-circuit, and
    a skipped operand is still charged the numbers its instructions take.
  - `Strategy.check_submission` classifies a submission as refused, accepted
    or undecided. It is the only place where an exception is caught.
- **The multiple-choice grammar** (`MultipleChoiceParser.py`), as a
  recogniser of the rules `multiplechoice : qa+` and `qa : INT LETTER+` over
  the lexer's tokens.
- **The multiple-choice checker** (`MultipleChoiceChecker.py`). Its
  `enterQa` listener is modelled as one step of a left fold over the `qa`
  groups.
- **The instruction template tags** (`templatetags/xchk_instructions.py`):
  - `_node_instructions_2_ul`, with its `_aux` and `_folded`;
  - `_mc_2_ul`;
  - `_nested_conditional_escape`;
  - the two filters.

  Their HTML output is modelled as a sequence of pieces (tags and text runs),
  together with a reader that parses the emitted text back.
- **The admonition renderer** (`renderers.py`), which turns an admonition
  name into a Bootstrap alert class.

Modules:

- `Wrappers`, `Faults`, `Text`, `Html`: helpers. They cover results and
  exceptions, Python's `str()` of ints and booleans, `str.join`, HTML pieces,
  a lexer for tags, and Django 2.2 escaping.
- `Strats`: the data model and the operations of the predicate engine.
  - `StratsLemmas`: properties of instructions and evaluation.
  - `StrategyLemmas`: properties of the classification.
- `MultipleChoiceParser`, `MultipleChoiceChecker`: the grammar and the
  answer checker, each with its properties.
- `XchkInstructions`: the template tags.
  - `XchkInstructionsLemmas`: numbering and escaping, and the link between
    the rendered anchors and the strategy's numbering.
- `XchkReading`, `McReading`: readers for the emitted HTML, with their
  round-trip lemmas.
- `Renderers`: the admonition mapping.

How the model relates to the code:

- The file system and the ANTLR runtime are replaced by data.
  - A `Submission` maps file names to their contents.
  - A file's content is given as the token stream the lexer produces, plus
    the `qa` groups that ANTLR's error recovery would build from it.
  - A missing `.mc` file, or an answer letter beyond the model's answers,
    raises an exception in the source. Here it is a `Failure(Fault)` that
    travels up to `CheckSubmission`.
- Python's `SubmissionState` values are replaced by `Classification`.
- A component becomes `Component(number, outcome, desired, renderer,
  explanation)`.
- The undecided notice, which has no number, becomes a `Notice` row.
- Composite explanations are phrased with the negation flag toggled at
  every negation and passed on to operands (`Intended`). The code's own
  rule is kept as `AsWritten`, and the two are compared under Findings.

Behaviour of the code the model keeps:

- Numbering is not gap-free under short-circuiting. Skipped operands take
  their numbers but yield no component. The components carry strictly
  increasing numbers aligned with the nodes, and `Reached` says exactly
  which numbers appear.
- Composite nodes always emit their own component, also when the outcome is
  the desired one.
- A fault gives the undecided classification, headed by the notice row.
  There is no separate classification for faults.
- The template links items to `#explanation-N`. The repository's tests
  expect `<span id="instruction-N">`, which belongs to another revision of
  the template.
- Escaping is that of Django 2.2: `'` becomes `&#39;`.

## Model

| member | source | states |
|---|---|---|
| Strats.Describe | xchk_core/strats.py:86-102 | Instructions numbered from `init` return `init` plus the predicate's width as the next number, and the tree holds exactly that many captions. |
| Strats.Instructions | xchk_core/strats.py:86-92 | `instructions` numbered from `init` hands on `init` plus the predicate's width and holds one caption per numbered node. Its partner `StratsLemmas.CaptionsFollowPreorder` says which caption stands at each position. |
| Strats.NegativeInstructions | xchk_core/strats.py:94-102 | `negative_instructions` takes the same numbers as `instructions` and holds one caption per numbered node. Its partner `StratsLemmas.InstructionsMirrorNegativeInstructions` shows that both trees have the same shape. |
| Strats.DescribeAll | xchk_core/strats.py:259-264 | The operand loop yields one tree per operand and advances the counter by the operands' total width. |
| Strats.Evaluate | xchk_core/strats.py:107-129 | A successful evaluation from `init` gives its first component the number `init`, and returns `init` plus the predicate's width as the next number. Its `Phrasing` argument only selects the wording of composite explanations (see Findings). Its partners `StratsLemmas.EvaluateAligned` and `StratsLemmas.EvaluateReaches` say which components it emits. |
| Strats.EvaluateOperands | xchk_core/strats.py:110-120 | The operand loop advances the counter by the operands' total width, whether each operand is evaluated or skipped by short-circuiting. |
| Strats.EvaluateAtom | xchk_core/strats.py:149-166 | An atom yields exactly one component, numbered `init`, and the next number is `init + 1`. |
| Strats.Observe | xchk_core/strats.py:149-248 | Only the two multiple-choice checks can raise, because only they read the `.mc` file. `TrueCheck` always holds. Its partner `StratsLemmas.ObserveIsSat` gives each atom's truth value. `StratsLemmas.AtomExplanations` gives the explanation texts. |
| Strats.Report | xchk_core/strats.py:121-128 | A component has the "text" renderer and an explanation exactly when its outcome differs from the desired one. |
| Strats.Preorder | xchk_core/strats.py:340 | There are exactly as many slots as numbers the predicate takes from the counter. |
| Strats.StrategyInstructions | xchk_core/strats.py:333-336 | The refusing tree holds one caption per refusing node and the accepting tree one per accepting node. Its partner `StrategyLemmas.StrategyInstructionsFollowSlots` puts them in number order. |
| Strats.CheckSubmission | xchk_core/strats.py:338-358 | An analysis starts with the unnumbered notice exactly when it is undecided. Every later row is a numbered component. Its partners `StrategyLemmas.ClassificationIsSat` and `StrategyLemmas.VerdictReaches` give the classification and the rows. `StrategyLemmas.UndecidedNotice` gives the notice text. |
| Strats.CheckAccepting | xchk_core/strats.py:351-358 | Once the refusing check has not held, the verdict is never a refusal. The notice heads the analysis exactly when it is undecided, and every later row is numbered. `StrategyLemmas.UndecidedNotice` gives the notice text. |
| StratsLemmas.InstructionsMirrorNegativeInstructions | xchk_core/strats.py:94-102 | The instructions and negative instructions of any predicate have the same shape and the same next number. Both hold as many captions as the predicate's width. |
| StratsLemmas.NegationsSelectPolarity | xchk_core/strats.py:58-62 | Any stack of `k` negations selects the instructions (`k` even) or the negative instructions (`k` odd) of the predicate below it. |
| StratsLemmas.DoubleNegation | xchk_core/strats.py:58-62 | A double negation generates exactly the predicate's own instructions. A single negation swaps the two polarities. |
| StratsLemmas.DescribeNegateAll | xchk_core/strats.py:266-274 | Negating every operand gives the operand trees of the opposite polarity, with the same numbering. |
| StratsLemmas.DeMorganDisjunction | xchk_core/strats.py:266-274 | A negated disjunction's instructions equal those of the conjunction of the negated operands (De Morgan). |
| StratsLemmas.DeMorganConjunction | xchk_core/strats.py:94-102 | A negated conjunction has the same operand trees and numbering as the disjunction of the negated operands. Its header is spelled differently ("één" against "een"), so the two trees differ. |
| StratsLemmas.InstructionExamples | xchk_core/tests.py:14-56 | The instruction trees the repository's tests expect for `TrueCheck`, file checks, and negated and plain conjunctions and disjunctions. |
| StratsLemmas.EntryExamples | xchk_core/strats.py:137-138 | The expected file name is the check's name when truthy, else the exercise. A dot and the extension follow only when the extension is truthy. |
| StratsLemmas.EntryParts | xchk_core/strats.py:137-138 | For every name, extension and exercise, the file name starts with the check's name, or with the exercise when the name is absent or empty. It goes on past that stem exactly when the extension is non-empty, and then with a dot and the extension. |
| StratsLemmas.FileExistsInstructions | xchk_core/strats.py:143-147 | The file check's instructions of both polarities name the expected file and take one number. |
| StratsLemmas.SkippedOperands | xchk_core/strats.py:117-120 | Once the exit code has flipped, the remaining operands add no component and keep the outcome. They advance the counter by their width. |
| StratsLemmas.EvaluateIsSat | xchk_core/strats.py:71-76 | A successful evaluation's outcome is the predicate's plain truth value. Evaluation cannot fail when no atom would raise. |
| StratsLemmas.ObserveIsSat | xchk_core/strats.py:149-248 | A successful observation of an atom reports its truth value: the file exists, the `.mc` file parses without syntax error, or its walk reports no mistake. An atom that cannot raise is always observed. |
| StratsLemmas.AtomExplanations | xchk_core/strats.py:149-166 | When an atom misses its desired outcome, its explanation depends on which way it missed. An existing file that must not exist gives the entry plus " mag niet bestaan en bestaat toch". A missing file that must exist gives the entry plus " moet bestaan, maar bestaat niet". The format check gives its two fixed sentences. The answer check wanted false gives "Je hebt geen enkel fout antwoord aangeduid.". Wanted true, it gives "Je hebt volgende fouten:" joined by newlines with one message per mistake of a successful, non-empty `Walk`, as at strats.py:238-241. |
| StratsLemmas.OperandsAreSat | xchk_core/strats.py:112-116 | A conjunction's loop yields "all operands hold" and a disjunction's loop yields "some operand holds". |
| StratsLemmas.ShortCircuit | xchk_core/strats.py:112-120 | Nothing after the first deciding operand is observed: replacing it by any operands of the same total width leaves the evaluation unchanged, components and numbers included. |
| StratsLemmas.EvaluateAligned | xchk_core/strats.py:127-129 | The components carry strictly increasing numbers. The one numbered `n` reports the truth value and desired outcome of the node in slot `n`, with an explanation exactly when they differ. |
| StratsLemmas.OperandsAligned | xchk_core/strats.py:112-116 | The same alignment holds for the components of an operand run against the operands' slots. Together with `StratsLemmas.OperandsReach`, the run emits one component for each node it reaches and none for the others. |
| StratsLemmas.EvaluateReaches | xchk_core/strats.py:107-129 | The numbers of a successful evaluation's components are exactly `Reached`: every node the evaluation reaches, in pre-order, each once. `Reached` is defined from the nodes' truth values alone, without components. |
| StratsLemmas.OperandsReach | xchk_core/strats.py:110-120 | An operand run emits components for exactly the operands it reaches before the exit code flips, and within each for exactly its reached nodes. A run that starts flipped emits none. |
| StratsLemmas.EvaluationNumberingMatchesInstructions | xchk_core/strats.py:110-120 | Evaluation hands on the same next number as `instructions` and `negative_instructions` from the same start, so a check's components and its instruction tree draw on the same numbers. |
| StratsLemmas.ExplanationsFollowInstructions | xchk_core/strats.py:121-126 | With the negation flag propagated, every composite explanation names the operator that the node's instruction header announces. It gives the outcome wanted and the outcome obtained in the polarity the instructions show. |
| StratsLemmas.NegationExplainsOperand | xchk_core/strats.py:71-76 | The immediate operand of a negation explains itself exactly when the negation misses its desired outcome, under either rule. The text names the operator the negation's instructions announce, with the negation's own desired outcome and outcome. |
| StratsLemmas.NestedExplanationAsWritten | xchk_core/strats.py:121-126 | As written, the inner disjunction of `Negation(ConjunctiveCheck([DisjunctiveCheck([TrueCheck()])]))` is shown under "Aan al volgende voorwaarden is voldaan:" yet explains "OR moest False leveren, leverde True". With the flag propagated it explains "AND moest True leveren, leverde False". |
| StratsLemmas.CaptionsFollowPreorder | xchk_core/strats.py:86-92 | The instruction tree lists, in pre-order, the caption of each numbered node, in the polarity its negations give it. |
| StrategyLemmas.StrategyInstructionsFollowSlots | xchk_core/strats.py:333-336 | The two trees of `Strategy.instructions`, read one after the other, list the captions of the strategy's numbered nodes in number order. |
| StrategyLemmas.ClassificationIsSat | xchk_core/strats.py:338-358 | A refusal means the refusing check holds. An acceptance means it does not while the accepting check holds. When no atom raises these are equivalences, and "undecided" means neither check holds. A fault in the refusing check leaves only the notice. |
| StrategyLemmas.UndecidedNotice | xchk_core/strats.py:338-358 | An undecided analysis opens with the notice "Het systeem kan niet automatisch bepalen … Weigering was R en aanvaarding was A". R is the refusing check's truth value, `None` if it raised. A is the accepting check's truth value, `None` if either check raised. The refusing outcome comes first, and any reported outcome is `False`. |
| StrategyLemmas.VerdictRowsAligned | xchk_core/strats.py:338-358 | An undecided analysis starts with its notice. All other rows are numbered, with strictly increasing numbers, and each row reports on the strategy node with its number. A refusal reports only refusing nodes and an acceptance only accepting nodes. |
| StrategyLemmas.RefusalIgnoresAccepting | xchk_core/strats.py:348-350 | When the refusing check holds or raises, the accepting check is never evaluated: any other accepting check gives the same verdict. |
| StrategyLemmas.AcceptingNumberingMatchesInstructions | xchk_core/strats.py:348-351 | The accepting check is numbered from where the refusing check's instructions stop, as in `Strategy.instructions`. |
| StrategyLemmas.DefaultStrategyUndecided | xchk_core/strats.py:323-325 | The default strategy never decides. Its analysis is the notice reporting both outcomes as False, followed by one component from each check. |
| StrategyLemmas.ExplicitChecksExample | xchk_core/tests.py:60-67 | The strategy instructions the repository's test expects for a conjunction and its negation. |
| StrategyLemmas.ComponentsOfRows | xchk_core/strats.py:358 | The numbered rows of an analysis hold exactly its components, in order. |
| StrategyLemmas.VerdictReaches | xchk_core/strats.py:338-358 | A refusal's rows are the components of exactly the refusing nodes reached. An acceptance's rows are those of the accepting nodes reached, numbered from where the refusing instructions stop. An undecided analysis without faults holds both, refusing first. |
| StrategyLemmas.AcceptingReaches | xchk_core/strats.py:351-358 | After a refusing check that did not hold, an acceptance reports exactly the accepting nodes reached. An undecided analysis lists the refusal's components and then those nodes. |
| MultipleChoiceParser.Letters | xchk_core/MultipleChoiceParser.py:152-161 | The `LETTER+` loop consumes a prefix of letters and stops at the end or at an INT. |
| MultipleChoiceParser.Multiplechoice | xchk_core/MultipleChoiceParser.py:85-111 | A successful parse yields at least one group, each with at least one letter, whose tokens are exactly the input. |
| MultipleChoiceParser.AcceptedLanguage | xchk_core/MultipleChoiceParser.py:85-111 | The parser reports no syntax error exactly on the token streams of the form (INT LETTER+)+. |
| MultipleChoiceParser.ParseIsInverseOfTokens | xchk_core/MultipleChoiceParser.py:142-170 | A stream parses to the groups `qas` exactly when it is their token sequence. |
| MultipleChoiceChecker.Correct | xchk_core/MultipleChoiceChecker.py:23 | The model indexes are exactly the 1-based positions of the correct answers. Their order is stated by `MultipleChoiceChecker.CorrectAscending`. |
| MultipleChoiceChecker.CorrectAscending | xchk_core/MultipleChoiceChecker.py:23 | The model indexes are strictly ascending, so without repeats, as the comprehension over `enumerate` yields them. It is proved by induction on the answers, through `CorrectFromAscending`. |
| MultipleChoiceChecker.MissingAnswers | xchk_core/MultipleChoiceChecker.py:25-28 | The first loop adds only hints. It adds none exactly when every correct answer that was not chosen has no hint. Its partner `MultipleChoiceChecker.MissingAnswersAreOwed` gives the exact list. |
| MultipleChoiceChecker.WrongAnswers | xchk_core/MultipleChoiceChecker.py:30-32 | The second loop adds only hints. It raises exactly when some chosen index lies beyond the answers, and adds nothing exactly when every chosen answer is correct or has no hint. Its partner `MultipleChoiceChecker.WrongAnswersAreOwed` gives the exact list. |
| MultipleChoiceChecker.MissingAnswersAreOwed | xchk_core/MultipleChoiceChecker.py:25-28 | The first loop's hints are, one for one, those of the correct answers that were not chosen and have a hint, in the order of the index list. For `Correct`'s list that order is ascending (`CorrectAscending`). The reference list is `Select`, a plain filter over the correct indexes. |
| MultipleChoiceChecker.WrongAnswersAreOwed | xchk_core/MultipleChoiceChecker.py:30-32 | When the second loop does not raise, its hints are, one for one and in order, those of the chosen answers that are not correct and have a hint. A letter given twice yields its hint twice. |
| MultipleChoiceChecker.EnterQa | xchk_core/MultipleChoiceChecker.py:13-34 | `enterQa` only appends to the error list. It sets the expected number to the group's number plus one, and adds one ordering mistake exactly when the number was unexpected. It raises exactly when a chosen answer of a valid question lies beyond the model. Its partner `MultipleChoiceChecker.EnterQaAppends` gives the exact appended list. |
| MultipleChoiceChecker.EnterQaAppends | xchk_core/MultipleChoiceChecker.py:13-32 | For a question of the model, the appended list is, in order: the ordering mistake if the number is unexpected, then one hint per hinted correct answer not chosen (index order), then one hint per hinted chosen answer not correct (letter order, repeats kept). Both hint lists are given against the `Select` reference lists. |
| MultipleChoiceChecker.EnterQaAddsNothing | xchk_core/MultipleChoiceChecker.py:13-34 | A group adds no mistake exactly when its number is the expected one and names a model question, and every disagreeing answer has no hint. |
| MultipleChoiceChecker.WalkPasses | xchk_core/strats.py:231-234 | The answer check passes exactly when the groups are numbered 1, 2, 3, ... within the model and every group is clean. |
| MultipleChoiceChecker.Walk | xchk_core/MultipleChoiceChecker.py:15-17 | A walk that does not raise holds one ordering mistake per group whose number is not one more than the previous group's. The expected number is reset after every group. |
| MultipleChoiceChecker.Fold | xchk_core/MultipleChoiceChecker.py:13-18 | The listener only appends to the error list, and after the last group it expects that group's number plus one. |
| MultipleChoiceChecker.JumpIsOneOrderingError | xchk_core/MultipleChoiceChecker.py:15-17 | A single jump in otherwise consecutive numbering gives exactly one ordering mistake. |
| MultipleChoiceChecker.OutOfRangeQuestion | xchk_core/MultipleChoiceChecker.py:33-34 | A number that is not a model question adds one invalid-index mistake, after the ordering mistake if any, and no hints. |
| MultipleChoiceChecker.RightAnswersAddNothing | xchk_core/MultipleChoiceChecker.py:22-32 | Choosing exactly the correct answers, under the expected number, adds no mistake whatever the hints. |
| MultipleChoiceChecker.AnswerIndexIgnoresCase | xchk_core/MultipleChoiceChecker.py:22 | Two letters name the same answer exactly when they agree up to case. The index is the letter's position in the alphabet. |
| MultipleChoiceChecker.ExampleWrongFirstAnswer | xchk_core/MultipleChoiceChecker.py:25-32 | A wrong first answer reports the missing correct answer's hint first, then the wrong answer's hint. |
| MultipleChoiceChecker.ExampleAllCorrect | xchk_core/MultipleChoiceChecker.py:13-32 | A file whose groups choose exactly the correct answers yields no mistake. |
| XchkInstructions.Aux | xchk_core/templatetags/xchk_instructions.py:21-28 | `_aux` gives its own counter to the item's anchor, and the next counter is the counter plus the number of rendered items. |
| XchkInstructions.FoldTail | xchk_core/templatetags/xchk_instructions.py:17-20 | `_folded` over a list's tail renders one item per element and advances the counter by the number of items rendered. |
| XchkInstructionsLemmas.AuxNumbersConsecutively | xchk_core/templatetags/xchk_instructions.py:21-28 | The anchors of a rendered item are the consecutive numbers from the given counter to the returned one, in document order. |
| XchkInstructionsLemmas.EncodeRenders | xchk_core/templatetags/xchk_instructions.py:21-28 | The list form of an instruction tree renders without fault. It uses one number per caption, with the captions as labels in pre-order, and a caption-only tree becomes a plain item. |
| XchkInstructionsLemmas.NestedListExample | xchk_core/tests.py:118-145 | The nested list of the repository's test numbers the refusing items 1 to 5 in pre-order, and the accepting item is numbered 6. |
| XchkInstructionsLemmas.MalformedExamples | xchk_core/templatetags/xchk_instructions.py:24-28 | The inputs the model refuses. An empty list is the `IndexError` on `lst_or_str[0]`, also when nested. A list in label position is refused as `ListAsLabel`, where Python would print its repr instead; the `XchkInstructions.Aux` line under "## Left out" records this. |
| XchkInstructionsLemmas.EscapeCommutesWithAux | xchk_core/templatetags/xchk_instructions.py:43-47 | Escaping the nested value before rendering gives the same items, numbers and faults, with only the labels escaped. |
| XchkInstructions.EscapeItem | xchk_core/templatetags/xchk_instructions.py:43-47 | `_nested_conditional_escape` keeps the nesting: a string stays a string, and a list stays a list of the same length. Its partner `XchkInstructionsLemmas.EscapeCommutesWithAux` shows that rendering commutes with it. |
| XchkInstructionsLemmas.FilterAgreesOnFaults | xchk_core/templatetags/xchk_instructions.py:49-55 | The `node_instructions_2_ul` filter (`XchkInstructions.NodeInstructionsFilter`) fails exactly when `_node_instructions_2_ul` (`XchkInstructions.NodeInstructionsToUl`) fails on the unescaped value. It fails with the same fault, whether or not it escapes. |
| XchkInstructionsLemmas.FilterRoundTrip | xchk_core/templatetags/xchk_instructions.py:49-55 | With autoescaping on, the HTML `NodeInstructionsFilter` emits reads back as the rendered items with escaped labels, and unescaping those gives the items. |
| XchkInstructionsLemmas.StrategyItems | xchk_core/templatetags/xchk_instructions.py:29-30 | The strategy's two trees render from counters 1 and 1 + the refusing width. Their anchors together are 1, 2, ..., and their labels are the captions of the numbered nodes. |
| XchkInstructionsLemmas.StrategyPageLinksComponents | xchk_core/templatetags/xchk_instructions.py:29-34 | The rendered page of a strategy's instructions reads back with anchors 1, 2, ... in document order. The unescaped labels are the captions of the numbered nodes, which are the nodes whose components carry those numbers. |
| XchkInstructionsLemmas.UnescapeEscapeLi | xchk_core/templatetags/xchk_instructions.py:43-47 | Unescaping an escaped rendering gives the rendering back. |
| XchkReading.PageRoundTrip | xchk_core/templatetags/xchk_instructions.py:31-34 | The page `NodeInstructionsToUl` renders reads back as the refusing and accepting items it was built from, when their labels contain no angle brackets. |
| XchkReading.ReadLisPieces | xchk_core/templatetags/xchk_instructions.py:27-28 | The nested list of items reads back item by item, with whatever follows left unread. |
| XchkReading.ReadAnchorTag | xchk_core/templatetags/xchk_instructions.py:23 | The link tag of explanation `n` reads back as `n`, for every integer `n`. |
| Text.ParseIntOfIntText | xchk_core/templatetags/xchk_instructions.py:23 | Reading back the decimal text of any integer gives the integer. |
| McReading.McRoundTrip | xchk_core/templatetags/xchk_instructions.py:38-41 | The list text of `_mc_2_ul` (`XchkInstructions.McToOl`) reads back as each question's text with its answers' texts, in order, when no text holds an angle bracket. |
| McReading.McFilterRoundTrip | xchk_core/templatetags/xchk_instructions.py:57-63 | With autoescaping on, the list of the `mc_2_ul` filter (`XchkInstructions.McFilter`) reads back as the escaped texts, and unescaping each gives the question's and answers' own texts. |
| Html.LexRender | xchk_core/templatetags/xchk_instructions.py:31-34 | Rendering pieces to text and lexing the text gives the pieces back, when tags hold no angle brackets and no two text runs touch. |
| Html.UnescapeEscape | xchk_core/templatetags/xchk_instructions.py:2 | Decoding Django's escaping gives the original string. |
| Html.EscapeNoAngle | xchk_core/templatetags/xchk_instructions.py:2 | An escaped string holds no angle bracket. |
| Renderers.MapName | xchk_core/renderers.py:5-10 | The class is "info" exactly for tip, hint, note (and info itself), and "primary" exactly for important (and primary itself). Every other name is kept. |
| Renderers.AdmonitionRoundTrip | xchk_core/renderers.py:11 | An alert made by `admonition` (`Renderers.Admonition`) reads back as the mapped name and the text it wraps, when the name holds no single quote. |
| Renderers.AdmonitionExamples | xchk_core/renderers.py:4-11 | tip becomes `alert-info`, important becomes `alert-primary`, and warning stays `alert-warning`. |

## Left out

- File I/O and the ANTLR runtime. Observations are taken from the
  `Submission` data. `os.path.exists` becomes a key lookup. The parse tree of
  a file with syntax errors, as built by ANTLR's error recovery, is taken as
  given; the recovery itself is not modelled.
- Logging and `print` in `Strategy.check_submission`. They have no effect on
  the result.
- `mentioned_files`, `component_checks`, `__eq__`, `BatchType` and
  `batch_types`. They play no part in instructions or evaluation.
- `SubmissionState`. `strats.py` returns `SubmissionState.NEW_REFUSED` and
  `SubmissionState.PENDING`, but `models.py` defines neither. The model uses
  the intended classification: refused, accepted or undecided.
- The exception object caught in `Strategy.check_submission`. The source
  logs it and still returns the undecided notice, with `None` for the
  outcomes not yet known and the analyses gathered so far. The model returns
  the same notice and rows, but the logged exception itself is not kept.
- Django's `SafeString` and `mark_safe`. Every string reaching the filters
  is taken to be a plain string, so `conditional_escape` always escapes.
- Items that are neither strings nor iterables (kept as-is by
  `_nested_conditional_escape`). Only strings and nested lists are
  modelled, plus the truth flags of the multiple-choice data.
- Strats.CheckSubmission / Strats.CheckAccepting: explanations use
  `Intended`, the corrected phrasing of the Findings row. Under a
  composite inside a negation, the source's text names the operator and
  outcomes in the unnegated polarity (`AsWritten`), and these functions do
  not reproduce that text.
- XchkInstructions.Aux: a label position that holds a list is reported as
  `ListAsLabel`. Python would instead print the list's representation into
  the HTML.
- mistune's own parsing of admonition blocks. The admonition text is taken
  as an already rendered string.
- The Markdown content views, courses, forms, views, consumers and tasks.
  They sit outside the checking core.
- The lexer's whitespace and comment skipping. The parser is modelled on the
  token stream the lexer produces.

## Findings

| source | as written | input that shows it | evidently intended | confidence | as-written member | corrected member |
|---|---|---|---|---|---|---|
| xchk_core/strats.py:71-76 | A negation passes `parent_is_negation=True` to its immediate operand only. A conjunction or disjunction calls its operands with the default `False`, and a negation under a negation sets the flag again instead of toggling it. | `Negation(ConjunctiveCheck([DisjunctiveCheck([TrueCheck()])]))`: the inner disjunction is shown under "Aan al volgende voorwaarden is voldaan:" but explains "OR moest False leveren, leverde True". | Each composite explains a mismatch in the terms its instructions show: the flag toggles at every negation and is passed on to operands. | medium; not executed | StratsLemmas.NestedExplanationAsWritten | StratsLemmas.ExplanationsFollowInstructions |
