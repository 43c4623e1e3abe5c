/** Properties of the instruction-list and multiple-choice renderings: the
    pre-order numbering of the anchors, its agreement with the strategy's
    numbering, escaping, and reading the emitted HTML back. */
module XchkInstructionsLemmas {
  import opened Wrappers
  import opened Text
  import opened Html
  import opened MultipleChoiceChecker
  import opened Strats
  import opened StrategyLemmas
  import opened XchkInstructions
  import opened XchkReading

  // ---------------------------------------------------------------------
  // Numbering

  lemma {:induction false} RangeAppend(a: int, b: int, c: int)
    requires a <= b <= c
    ensures Range(a, b) + Range(b, c) == Range(a, c)
    decreases b - a
  {
    if a < b {
      RangeAppend(a + 1, b, c);
      assert Range(a, b) + Range(b, c) == [a] + (Range(a + 1, b) + Range(b, c));
    }
  }

  /** Pre-order numbering: the anchors of a rendered item are exactly the
      consecutive numbers from the counter it was given up to the counter it
      returns, in document order. */
  lemma {:induction false} AuxNumbersConsecutively(item: Item, counter: int)
    requires Aux(item, counter).Success?
    ensures Anchors(Aux(item, counter).value.0) == Range(counter, Aux(item, counter).value.1)
    decreases item, 1
  {
    match item
    case Str(_) =>
    case List(items) =>
      if |items| == 1 {
        AuxNumbersConsecutively(items[0], counter);
      } else {
        FoldTailNumbersConsecutively(items, 1, counter + 1);
        var next := FoldTail(items, 1, counter + 1).value.1;
        assert Range(counter, next) == [counter] + Range(counter + 1, next);
      }
  }

  lemma {:induction false} FoldTailNumbersConsecutively(items: seq<Item>, start: nat, counter: int)
    requires start <= |items|
    requires FoldTail(items, start, counter).Success?
    ensures AnchorsAll(FoldTail(items, start, counter).value.0) == Range(counter, FoldTail(items, start, counter).value.1)
    decreases items, |items| - start
  {
    if start < |items| {
      var (li, next) := Aux(items[start], counter).value;
      var (lis, last) := FoldTail(items, start + 1, next).value;
      AuxNumbersConsecutively(items[start], counter);
      FoldTailNumbersConsecutively(items, start + 1, next);
      assert FoldTail(items, start, counter).value == ([li] + lis, last);
      assert ([li] + lis)[1..] == lis;
      RangeAppend(counter, next, last);
    }
  }

  /** The Python list form of an instruction tree renders without fault,
      consuming one number per caption, with the captions as labels in
      pre-order. A caption-only tree is a one-element list and renders as a
      plain item. */
  lemma {:induction false} EncodeRenders(t: Tree, counter: int)
    ensures Aux(Encode(t), counter).Success?
    ensures Aux(Encode(t), counter).value.1 == counter + Size(t)
    ensures LiLabels(Aux(Encode(t), counter).value.0) == Labels(t)
    ensures Aux(Encode(t), counter).value.0.Leaf? <==> t.subtrees == []
    decreases t, 1
  {
    var items := [Str(t.caption)] + EncodeAll(t.subtrees);
    assert Encode(t) == List(items);
    if t.subtrees == [] {
      assert items == [Str(t.caption)];
    } else {
      assert items[1..] == EncodeAll(t.subtrees);
      FoldTailEncodedRenders(items, 1, t.subtrees, counter + 1);
    }
  }

  lemma {:induction false} FoldTailEncodedRenders(items: seq<Item>, start: nat, ts: seq<Tree>, counter: int)
    requires start <= |items| && items[start..] == EncodeAll(ts)
    ensures FoldTail(items, start, counter).Success?
    ensures FoldTail(items, start, counter).value.1 == counter + SizeSum(ts)
    ensures LiLabelsAll(FoldTail(items, start, counter).value.0) == LabelsAll(ts)
    decreases ts, 0
  {
    if ts != [] {
      assert items[start] == Encode(ts[0]);
      assert items[start + 1..] == EncodeAll(ts[1..]);
      EncodeRenders(ts[0], counter);
      var (li, next) := Aux(items[start], counter).value;
      FoldTailEncodedRenders(items, start + 1, ts[1..], next);
      var (lis, last) := FoldTail(items, start + 1, next).value;
      assert FoldTail(items, start, counter).value == ([li] + lis, last);
      assert ([li] + lis)[1..] == lis;
    }
  }

  /** The nested list of the repository's tests: the refusing list is
      numbered 1 to 5 in pre-order and the accepting one continues at 6. */
  lemma NestedListExample()
    ensures Aux(List([Str(AllOfText), Str("True"), List([Str(AtLeastOneDisjText), Str("False"), Str("True")])]), 1)
         == Success((Branch(1, AllOfText, [Leaf(2, "True"), Branch(3, AtLeastOneDisjText, [Leaf(4, "False"), Leaf(5, "True")])]), 6))
    ensures Aux(List([Str("True")]), 6) == Success((Leaf(6, "True"), 7))
  {
    var inner := [Str(AtLeastOneDisjText), Str("False"), Str("True")];
    var l4, l5 := Leaf(4, "False"), Leaf(5, "True");
    assert FoldTail(inner, 3, 6) == Success(([], 6));
    assert Aux(inner[2], 5) == Success((l5, 6));
    assert [l5] + [] == [l5];
    assert FoldTail(inner, 2, 5) == Success(([l5], 6));
    assert Aux(inner[1], 4) == Success((l4, 5));
    assert [l4] + [l5] == [l4, l5];
    assert FoldTail(inner, 1, 4) == Success(([l4, l5], 6));
    var sub := Branch(3, AtLeastOneDisjText, [l4, l5]);
    assert Aux(List(inner), 3) == Success((sub, 6));
    var outer := [Str(AllOfText), Str("True"), List(inner)];
    var l2 := Leaf(2, "True");
    assert FoldTail(outer, 3, 6) == Success(([], 6));
    assert Aux(outer[2], 3) == Success((sub, 6));
    assert [sub] + [] == [sub];
    assert FoldTail(outer, 2, 3) == Success(([sub], 6));
    assert Aux(outer[1], 2) == Success((l2, 3));
    assert [l2] + [sub] == [l2, sub];
    assert FoldTail(outer, 1, 2) == Success(([l2, sub], 6));
  }

  /** The inputs the model refuses: an empty list, which `_aux` cannot
      index, and a list where a label belongs, which the model reports
      rather than printing its representation. */
  lemma MalformedExamples(counter: int)
    ensures Aux(List([]), counter) == Failure(EmptyList)
    ensures Aux(List([List([Str("a"), Str("b")]), Str("c")]), counter) == Failure(ListAsLabel)
    ensures Aux(List([Str("a"), List([])]), counter) == Failure(EmptyList)
  {
    var bad := [List([Str("a"), Str("b")]), Str("c")];
    var ab := [Str("a"), Str("b")];
    assert FoldTail(ab, 2, counter + 2) == Success(([], counter + 2));
    assert Aux(ab[1], counter + 1) == Success((Leaf(counter + 1, "b"), counter + 2));
    assert FoldTail(ab, 1, counter + 1).Success?;
    assert FoldTail(bad, 2, counter + 1) == Success(([], counter + 1));
    assert FoldTail(bad, 1, counter + 1).Success?;
  }

  // ---------------------------------------------------------------------
  // Escaping

  /** An item with its labels escaped. */
  function EscapeLi(li: Li): Li
    decreases li, 1
  {
    match li
    case Leaf(n, t) => Leaf(n, Escape(t))
    case Branch(n, t, lis) => Branch(n, Escape(t), EscapeLis(lis))
  }

  function EscapeLis(lis: seq<Li>): (r: seq<Li>)
    ensures |r| == |lis|
    decreases lis, 0
  {
    seq(|lis|, i requires 0 <= i < |lis| => EscapeLi(lis[i]))
  }

  /** An item with its labels unescaped. */
  function UnescapeLi(li: Li): Li
    decreases li
  {
    match li
    case Leaf(n, t) => Leaf(n, Unescape(t))
    case Branch(n, t, lis) => Branch(n, Unescape(t), seq(|lis|, i requires 0 <= i < |lis| => UnescapeLi(lis[i])))
  }

  lemma {:induction false} UnescapeEscapeLi(li: Li)
    ensures UnescapeLi(EscapeLi(li)) == li
    decreases li
  {
    UnescapeEscape(li.text);
    if li.Branch? {
      forall i | 0 <= i < |li.nested| ensures UnescapeLi(EscapeLi(li.nested[i])) == li.nested[i] {
        UnescapeEscapeLi(li.nested[i]);
      }
    }
  }

  /** Rendering's result for an escaped value, in terms of the result for
      the value: the same fault, or the same numbering with escaped labels. */
  function EscapedAux(r: Result<(Li, int), Malformed>): Result<(Li, int), Malformed>
  {
    match r
    case Failure(f) => Failure(f)
    case Success((li, next)) => Success((EscapeLi(li), next))
  }

  function EscapedFold(r: Result<(seq<Li>, int), Malformed>): Result<(seq<Li>, int), Malformed>
  {
    match r
    case Failure(f) => Failure(f)
    case Success((lis, next)) => Success((EscapeLis(lis), next))
  }

  /** Escaping commutes with rendering: the escaped value renders to the
      same items with the same numbers and the same faults, with only the
      labels escaped. */
  lemma {:induction false} EscapeCommutesWithAux(item: Item, counter: int)
    ensures Aux(EscapeItem(item), counter) == EscapedAux(Aux(item, counter))
    decreases item, 1
  {
    match item
    case Str(_) =>
    case List(items) =>
      var e := EscapeItems(items);
      assert EscapeItem(item) == List(e);
      if |items| == 1 {
        EscapeCommutesWithAux(items[0], counter);
      } else if |items| >= 2 {
        EscapeCommutesWithFoldTail(items, 1, counter + 1);
        assert e[0].List? <==> items[0].List?;
        if items[0].Str? {
          assert e[0].s == Escape(items[0].s);
        }
      }
  }

  lemma EscapeLisCons(li: Li, lis: seq<Li>)
    ensures EscapeLis([li] + lis) == [EscapeLi(li)] + EscapeLis(lis)
  {
  }

  lemma {:induction false} EscapeCommutesWithFoldTail(items: seq<Item>, start: nat, counter: int)
    requires start <= |items|
    ensures FoldTail(EscapeItems(items), start, counter) == EscapedFold(FoldTail(items, start, counter))
    decreases items, |items| - start
  {
    var e := EscapeItems(items);
    if start < |items| {
      assert e[start] == EscapeItem(items[start]);
      EscapeCommutesWithAux(items[start], counter);
      if Aux(items[start], counter).Success? {
        var (li, next) := Aux(items[start], counter).value;
        EscapeCommutesWithFoldTail(items, start + 1, next);
        if FoldTail(items, start + 1, next).Success? {
          EscapeLisCons(li, FoldTail(items, start + 1, next).value.0);
        }
      }
    }
  }

  /** Escaped labels cannot be mistaken for markup. */
  lemma {:induction false} EscapedReadable(li: Li)
    ensures Readable(EscapeLi(li))
    decreases li
  {
    EscapeNoAngle(li.text);
    if li.Branch? {
      forall i | 0 <= i < |li.nested| ensures Readable(EscapeLi(li.nested[i])) {
        EscapedReadable(li.nested[i]);
      }
    }
  }

  lemma {:induction false} EscapeKeepsAnchors(li: Li)
    ensures Anchors(EscapeLi(li)) == Anchors(li)
    decreases li, 1
  {
    if li.Branch? {
      EscapeKeepsAnchorsAll(li.nested);
    }
  }

  lemma {:induction false} EscapeKeepsAnchorsAll(lis: seq<Li>)
    ensures AnchorsAll(EscapeLis(lis)) == AnchorsAll(lis)
    decreases lis, 0
  {
    if lis != [] {
      EscapeKeepsAnchors(lis[0]);
      EscapeKeepsAnchorsAll(lis[1..]);
      assert EscapeLis(lis)[1..] == EscapeLis(lis[1..]);
    }
  }

  // ---------------------------------------------------------------------
  // The filter's output read back

  /** The filter fails exactly when the unescaped rendering fails, with the
      same fault. */
  lemma FilterAgreesOnFaults(refusing: Item, accepting: Item, autoescape: bool)
    ensures NodeInstructionsFilter(refusing, accepting, autoescape).Success? <==> NodeInstructionsToUl(refusing, accepting).Success?
    ensures NodeInstructionsToUl(refusing, accepting).Failure? ==>
              NodeInstructionsFilter(refusing, accepting, autoescape) == NodeInstructionsToUl(refusing, accepting)
  {
    EscapeCommutesWithAux(refusing, 1);
    if Aux(refusing, 1).Success? {
      EscapeCommutesWithAux(accepting, Aux(refusing, 1).value.1);
    }
  }

  /** With autoescaping on, the emitted HTML reads back as the rendered
      items with escaped labels, and unescaping those gives the items. */
  lemma FilterRoundTrip(refusing: Item, accepting: Item)
    requires NodeInstructionsToUl(refusing, accepting).Success?
    ensures NodeInstructionsFilter(refusing, accepting, true).Success?
    ensures var (r, counter) := Aux(refusing, 1).value;
            var (a, _) := Aux(accepting, counter).value;
            && ReadPage(Lex(NodeInstructionsFilter(refusing, accepting, true).value)) == Some((EscapeLi(r), EscapeLi(a)))
            && UnescapeLi(EscapeLi(r)) == r && UnescapeLi(EscapeLi(a)) == a
  {
    var (r, counter) := Aux(refusing, 1).value;
    var (a, _) := Aux(accepting, counter).value;
    EscapeCommutesWithAux(refusing, 1);
    EscapeCommutesWithAux(accepting, counter);
    EscapedReadable(r);
    EscapedReadable(a);
    PageRoundTrip(EscapeLi(r), EscapeLi(a));
    UnescapeEscapeLi(r);
    UnescapeEscapeLi(a);
  }

  /** The strategy's instruction trees, rendered by the template: the
      refusing tree from 1, the accepting tree from where it stopped. */
  lemma StrategyItems(s: Strategy, exercise: string)
    ensures var (rt, at) := StrategyInstructions(s, exercise);
            && Aux(Encode(rt), 1).Success?
            && Aux(Encode(rt), 1).value.1 == 1 + Width(s.refusing)
            && Aux(Encode(at), 1 + Width(s.refusing)).Success?
            && Aux(Encode(at), 1 + Width(s.refusing)).value.1 == 1 + Width(s.refusing) + Width(s.accepting)
            && Anchors(Aux(Encode(rt), 1).value.0) + Anchors(Aux(Encode(at), 1 + Width(s.refusing)).value.0)
               == Range(1, 1 + |StrategySlots(s)|)
            && LiLabels(Aux(Encode(rt), 1).value.0) + LiLabels(Aux(Encode(at), 1 + Width(s.refusing)).value.0)
               == StrategyCaptions(s, exercise)
  {
    var (rt, at) := StrategyInstructions(s, exercise);
    var c := 1 + Width(s.refusing);
    StrategyInstructionsFollowSlots(s, exercise);
    EncodeRenders(rt, 1);
    EncodeRenders(at, c);
    AuxNumbersConsecutively(Encode(rt), 1);
    AuxNumbersConsecutively(Encode(at), c);
    RangeAppend(1, c, c + Width(s.accepting));
  }

  /** The rendered instructions link item `n` to explanation `n`: reading
      the filter's output back gives the anchors 1, 2, ... in document order,
      and the labels, unescaped, are the captions of the strategy's numbered
      nodes in the same order, which are the nodes the components of its
      analysis report on under the same numbers. */
  lemma StrategyPageLinksComponents(s: Strategy, exercise: string)
    ensures var (rt, at) := StrategyInstructions(s, exercise);
            var out := NodeInstructionsFilter(Encode(rt), Encode(at), true);
            && out.Success?
            && ReadPage(Lex(out.value)).Some?
            && var (x, y) := ReadPage(Lex(out.value)).value;
               && Anchors(x) + Anchors(y) == Range(1, 1 + |StrategySlots(s)|)
               && LiLabels(UnescapeLi(x)) + LiLabels(UnescapeLi(y)) == StrategyCaptions(s, exercise)
  {
    var (rt, at) := StrategyInstructions(s, exercise);
    StrategyItems(s, exercise);
    var (r, c) := Aux(Encode(rt), 1).value;
    var (a, _) := Aux(Encode(at), c).value;
    FilterRoundTrip(Encode(rt), Encode(at));
    EscapeKeepsAnchors(r);
    EscapeKeepsAnchors(a);
  }
}
