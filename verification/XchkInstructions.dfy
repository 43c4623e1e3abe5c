/** The `xchk_instructions` template tags: the strategy's instruction trees
    rendered as nested lists whose items link to the explanation of the
    component with the same number, the multiple-choice data rendered as an
    ordered list, and the escaping applied to both. */
module XchkInstructions {
  import opened Wrappers
  import opened Text
  import opened Html
  import opened MultipleChoiceChecker
  import opened Strats

  /** A value handed to the filters: a string, or a (nested) list. */
  datatype Item = Str(s: string) | List(items: seq<Item>)

  /** The Python list form of an instruction tree, as `instructions` returns
      it: the caption followed by the operands' trees. */
  function Encode(t: Tree): Item
    decreases t, 1
  {
    List([Str(t.caption)] + EncodeAll(t.subtrees))
  }

  function EncodeAll(ts: seq<Tree>): (r: seq<Item>)
    ensures |r| == |ts|
    decreases ts, 0
  {
    if ts == [] then [] else [Encode(ts[0])] + EncodeAll(ts[1..])
  }

  /** The inputs on which `_aux` raises or prints a list's representation:
      an empty list (indexing `[0]`), or a list in the label position. */
  datatype Malformed = EmptyList | ListAsLabel

  /** A rendered list item: its anchor number and its label, and for a list
      of two or more elements the nested items. */
  datatype Li = Leaf(anchor: int, text: string) | Branch(anchor: int, text: string, nested: seq<Li>)

  /** The number of items in an item's rendering. */
  function LiSize(li: Li): nat
    decreases li
  {
    match li
    case Leaf(_, _) => 1
    case Branch(_, _, lis) => 1 + LisSize(lis)
  }

  function LisSize(lis: seq<Li>): nat
    decreases lis
  {
    if lis == [] then 0 else LiSize(lis[0]) + LisSize(lis[1..])
  }

  /** `_aux`: the item rendered from counter `counter`, and the next free
      counter. A string takes the counter; a one-element list is its element;
      a longer list's head takes the counter and its tail is folded from the
      counter after it. */
  function Aux(item: Item, counter: int): (r: Result<(Li, int), Malformed>)
    ensures r.Success? ==> r.value.0.anchor == counter && r.value.1 == counter + LiSize(r.value.0)
    decreases item, 1
  {
    match item
    case Str(s) => Success((Leaf(counter, s), counter + 1))
    case List(items) =>
      if |items| == 1 then Aux(items[0], counter)
      else if |items| == 0 then Failure(EmptyList)
      else
        var (lis, next) :- FoldTail(items, 1, counter + 1);
        if items[0].List? then Failure(ListAsLabel)
        else Success((Branch(counter, items[0].s, lis), next))
  }

  /** `functools.reduce(_folded, items[start:], ("", counter))`. */
  function FoldTail(items: seq<Item>, start: nat, counter: int): (r: Result<(seq<Li>, int), Malformed>)
    requires start <= |items|
    ensures r.Success? ==> |r.value.0| == |items| - start && r.value.1 == counter + LisSize(r.value.0)
    decreases items, |items| - start
  {
    if start == |items| then Success(([], counter))
    else
      var (li, next) :- Aux(items[start], counter);
      var (lis, last) :- FoldTail(items, start + 1, next);
      Success(([li] + lis, last))
  }

  /** The anchors of an item's rendering, in document order. */
  function Anchors(li: Li): seq<int>
    decreases li
  {
    match li
    case Leaf(anchor, _) => [anchor]
    case Branch(anchor, _, lis) => [anchor] + AnchorsAll(lis)
  }

  function AnchorsAll(lis: seq<Li>): seq<int>
    decreases lis
  {
    if lis == [] then [] else Anchors(lis[0]) + AnchorsAll(lis[1..])
  }

  /** The labels of an item's rendering, in document order. */
  function LiLabels(li: Li): seq<string>
    decreases li
  {
    match li
    case Leaf(_, text) => [text]
    case Branch(_, text, lis) => [text] + LiLabelsAll(lis)
  }

  function LiLabelsAll(lis: seq<Li>): seq<string>
    decreases lis
  {
    if lis == [] then [] else LiLabels(lis[0]) + LiLabelsAll(lis[1..])
  }

  /** The consecutive numbers `lo .. hi - 1`. */
  function Range(lo: int, hi: int): (r: seq<int>)
    requires lo <= hi
    ensures |r| == hi - lo
    ensures forall i :: 0 <= i < |r| ==> r[i] == lo + i
    decreases hi - lo
  {
    if lo == hi then [] else [lo] + Range(lo + 1, hi)
  }

  // ---------------------------------------------------------------------
  // HTML of the instruction lists

  const AnchorPrefix := "a href=\"#explanation-"

  /** The opening tag of the link to explanation `n`. */
  function AnchorTag(n: int): string
  {
    AnchorPrefix + IntText(n) + "\""
  }

  /** `<li><a href="#explanation-n">label</a></li>`, with
      `<ul>...</ul>` holding the nested items before `</li>` for a list. */
  function LiPieces(li: Li): seq<Piece>
    decreases li, 2
  {
    LiHead(li) + LiTail(li)
  }

  /** The item's opening and its link. */
  function LiHead(li: Li): seq<Piece>
  {
    [Open("li"), Open(AnchorTag(li.anchor))] + TextPieces(li.text) + [Close("a")]
  }

  /** The nested list, if any, and the item's closing. */
  function LiTail(li: Li): seq<Piece>
    decreases li, 1
  {
    match li
    case Leaf(_, _) => [Close("li")]
    case Branch(_, _, lis) => [Open("ul")] + LisPieces(lis) + [Close("ul"), Close("li")]
  }

  function LisPieces(lis: seq<Li>): seq<Piece>
    decreases lis
  {
    if lis == [] then [] else LiPieces(lis[0]) + LisPieces(lis[1..])
  }

  const RefusingHeader := "Je oefening wordt geweigerd als:"
  const AcceptingHeader := "Je oefening wordt aanvaard als:"
  /** The template's line break and indentation before each `<li>`. */
  const ItemIndent := "\n                 "
  /** The template's line break and indentation before the closing `</ul>`. */
  const CloseIndent := "\n               "

  /** The template around the two items: before the refusing item, between
      the two, and after the accepting item. */
  const PageHead := [Open("ul"), Text(ItemIndent), Open("li"), Text(RefusingHeader), Open("ul")]
  const PageMiddle := [Close("ul"), Close("li"), Text(ItemIndent), Open("li"), Text(AcceptingHeader), Open("ul")]
  const PageTail := [Close("ul"), Close("li"), Text(CloseIndent), Close("ul")]

  /** The page the template builds around the refusing and accepting item. */
  function PagePieces(refusing: Li, accepting: Li): seq<Piece>
  {
    PageHead + LiPieces(refusing) + PageMiddle + LiPieces(accepting) + PageTail
  }

  /** `_node_instructions_2_ul` of the pair (refusing, accepting): the
      refusing tree numbered from 1, the accepting tree from where it
      stopped. */
  function NodeInstructionsToUl(refusing: Item, accepting: Item): Result<string, Malformed>
  {
    var (r, counter) :- Aux(refusing, 1);
    var (a, _) :- Aux(accepting, counter);
    Success(Render(PagePieces(r, a)))
  }

  // ---------------------------------------------------------------------
  // Escaping

  /** `_nested_conditional_escape`: every string escaped, the nesting kept. */
  function EscapeItem(item: Item): (r: Item)
    ensures r.Str? <==> item.Str?
    ensures r.List? ==> |r.items| == |item.items|
    decreases item, 1
  {
    match item
    case Str(s) => Str(Escape(s))
    case List(items) => List(EscapeItems(items))
  }

  function EscapeItems(items: seq<Item>): (r: seq<Item>)
    ensures |r| == |items|
    decreases items, 0
  {
    seq(|items|, i requires 0 <= i < |items| => EscapeItem(items[i]))
  }

  /** The `node_instructions_2_ul` filter. */
  function NodeInstructionsFilter(refusing: Item, accepting: Item, autoescape: bool): Result<string, Malformed>
  {
    if autoescape then NodeInstructionsToUl(EscapeItem(refusing), EscapeItem(accepting))
    else NodeInstructionsToUl(refusing, accepting)
  }

  // ---------------------------------------------------------------------
  // Multiple-choice data

  const McListTag := "ol class=\"multiple-choice\""

  /** `_render_mc_item`: the question text, then an ordered list of the
      answers' texts. */
  function QuestionPieces(q: Question): seq<Piece>
  {
    [Open("li")] + TextPieces(q.text) + [Open("ol")] + AnswersPieces(q.answers) + [Close("ol"), Close("li")]
  }

  function AnswerPieces(answer: Answer): seq<Piece>
  {
    [Open("li")] + TextPieces(answer.text) + [Close("li")]
  }

  function AnswersPieces(answers: seq<Answer>): seq<Piece>
    decreases answers
  {
    if answers == [] then [] else AnswerPieces(answers[0]) + AnswersPieces(answers[1..])
  }

  function QuestionsPieces(mc: seq<Question>): seq<Piece>
    decreases mc
  {
    if mc == [] then [] else QuestionPieces(mc[0]) + QuestionsPieces(mc[1..])
  }

  function McPieces(mc: seq<Question>): seq<Piece>
  {
    [Open(McListTag)] + QuestionsPieces(mc) + [Close("ol")]
  }

  /** `_mc_2_ul`. */
  function McToOl(mc: seq<Question>): string
  {
    Render(McPieces(mc))
  }

  /** `_nested_conditional_escape` of the multiple-choice data: question,
      answer and hint texts escaped; the truth flags are not strings and are
      kept. */
  function EscapeQuestion(q: Question): Question
  {
    Question(Escape(q.text), seq(|q.answers|, i requires 0 <= i < |q.answers| =>
      Answer(Escape(q.answers[i].text), q.answers[i].correct, Escape(q.answers[i].hint))))
  }

  function EscapeMc(mc: seq<Question>): (r: seq<Question>)
    ensures |r| == |mc|
  {
    seq(|mc|, i requires 0 <= i < |mc| => EscapeQuestion(mc[i]))
  }

  /** The `mc_2_ul` filter. */
  function McFilter(mc: seq<Question>, autoescape: bool): string
  {
    if autoescape then McToOl(EscapeMc(mc)) else McToOl(mc)
  }
}
