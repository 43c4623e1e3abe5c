/** Reading the emitted instruction and multiple-choice lists back into the
    structures they were rendered from. */
module XchkReading {
  import opened Wrappers
  import opened Text
  import opened Html
  import opened MultipleChoiceChecker
  import opened XchkInstructions

  /** The number a link tag points to. */
  function ReadAnchor(tag: string): Option<int>
  {
    var p := |AnchorPrefix|;
    if |tag| >= p + 1 && tag[..p] == AnchorPrefix && tag[|tag| - 1] == '"'
    then ParseInt(tag[p..|tag| - 1])
    else None
  }

  /** One list item and the pieces after it. */
  function ReadLi(ps: seq<Piece>): (r: Option<(Li, seq<Piece>)>)
    ensures r.Some? ==> |r.value.1| < |ps|
    decreases |ps|, 0
  {
    if |ps| < 2 || ps[0] != Open("li") || !ps[1].Open? then None
    else match ReadAnchor(ps[1].tag)
    case None => None
    case Some(n) =>
      var k := if |ps| > 2 && ps[2].Text? then 3 else 2;
      var text := if k == 3 then ps[2].text else "";
      if |ps| <= k || ps[k] != Close("a") then None
      else ReadItemBody(n, text, ps[k + 1..])
  }

  /** The rest of an item after its link: either it closes at once, or a
      nested list follows. */
  function ReadItemBody(n: int, text: string, rest: seq<Piece>): (r: Option<(Li, seq<Piece>)>)
    ensures r.Some? ==> |r.value.1| < |rest|
    decreases |rest|, 0
  {
    if rest != [] && rest[0] == Close("li") then Some((Leaf(n, text), rest[1..]))
    else if rest != [] && rest[0] == Open("ul") then
      match ReadLis(rest[1..])
      case None => None
      case Some((lis, more)) =>
        if |more| >= 2 && more[0] == Close("ul") && more[1] == Close("li") then Some((Branch(n, text, lis), more[2..]))
        else None
    else None
  }

  /** List items for as long as the next piece opens one. */
  function ReadLis(ps: seq<Piece>): (r: Option<(seq<Li>, seq<Piece>)>)
    ensures r.Some? ==> |r.value.1| <= |ps|
    decreases |ps|, 1
  {
    if ps != [] && ps[0] == Open("li") then
      match ReadLi(ps)
      case None => None
      case Some((li, rest)) =>
        match ReadLis(rest)
        case None => None
        case Some((lis, more)) => Some(([li] + lis, more))
    else Some(([], ps))
  }

  /** The refusing and accepting item of a whole page. */
  function ReadPage(ps: seq<Piece>): Option<(Li, Li)>
  {
    if |ps| < |PageHead| || ps[..|PageHead|] != PageHead then None
    else match ReadLi(ps[|PageHead|..])
    case None => None
    case Some((r, rest)) => ReadAccepting(r, rest)
  }

  /** The rest of a page after its refusing item. */
  function ReadAccepting(refusing: Li, ps: seq<Piece>): Option<(Li, Li)>
  {
    if |ps| < |PageMiddle| || ps[..|PageMiddle|] != PageMiddle then None
    else match ReadLi(ps[|PageMiddle|..])
    case None => None
    case Some((a, tail)) => if tail == PageTail then Some((refusing, a)) else None
  }

  /** Items that survive the round trip: labels that cannot be mistaken for
      markup. */
  predicate Readable(li: Li)
    decreases li
  {
    && NoAngle(li.text)
    && (li.Branch? ==> forall i :: 0 <= i < |li.nested| ==> Readable(li.nested[i]))
  }

  /** Pieces that can be concatenated without two text runs meeting. */
  predicate Bounded(ps: seq<Piece>)
  {
    Lexable(ps) && (ps != [] ==> !ps[0].Text? && !ps[|ps| - 1].Text?)
  }

  /** Two lexable runs concatenate to one when no text run meets another
      at the seam. */
  lemma LexableAppend(a: seq<Piece>, b: seq<Piece>)
    requires Lexable(a) && Lexable(b)
    requires a != [] && b != [] ==> !(a[|a| - 1].Text? && b[0].Text?)
    ensures Lexable(a + b)
  {
    var c := a + b;
    forall i | 0 <= i < |c| ensures ValidPiece(c[i]) {
      if i < |a| { assert c[i] == a[i]; } else { assert c[i] == b[i - |a|]; }
    }
    forall i | 0 <= i < |c| - 1 ensures !(c[i].Text? && c[i + 1].Text?) {
      if i + 1 < |a| {
        assert c[i] == a[i] && c[i + 1] == a[i + 1];
      } else if i + 1 == |a| {
        assert c[i] == a[|a| - 1] && c[i + 1] == b[0];
      } else {
        assert c[i] == b[i - |a|] && c[i + 1] == b[i + 1 - |a|];
      }
    }
  }

  lemma BoundedAppend(a: seq<Piece>, b: seq<Piece>)
    requires Bounded(a) && Bounded(b)
    ensures Bounded(a + b)
  {
    LexableAppend(a, b);
    if a != [] { assert (a + b)[0] == a[0]; }
    if b != [] { assert (a + b)[|a + b| - 1] == b[|b| - 1]; }
    if a == [] { assert a + b == b; }
    if b == [] { assert a + b == a; }
  }

  lemma AnchorTagValid(n: int)
    ensures ValidPiece(Open(AnchorTag(n)))
  {
    var d := IntText(n);
    var tag := AnchorTag(n);
    assert tag == AnchorPrefix + d + "\"";
    assert NoAngle(d) by {
      if n < 0 {
        forall i | 0 <= i < |d| ensures d[i] != '<' && d[i] != '>' {
          if i > 0 { assert d[i] == Decimal(-n)[i - 1]; }
        }
      }
    }
    forall i | 0 <= i < |tag| ensures tag[i] != '<' && tag[i] != '>' {
      if i < |AnchorPrefix| {
        assert tag[i] == AnchorPrefix[i];
      } else if i < |AnchorPrefix| + |d| {
        assert tag[i] == d[i - |AnchorPrefix|];
      }
    }
    assert tag[0] == 'a';
  }

  /** The link of item `n` reads back as `n`. */
  lemma ReadAnchorTag(n: int)
    ensures ReadAnchor(AnchorTag(n)) == Some(n)
  {
    var d := IntText(n);
    var tag := AnchorTag(n);
    var p := |AnchorPrefix|;
    assert tag == AnchorPrefix + d + "\"";
    assert tag[..p] == AnchorPrefix;
    assert tag[p..|tag| - 1] == d;
    ParseIntOfIntText(n);
  }

  lemma LiHeadBounded(li: Li)
    requires NoAngle(li.text)
    ensures Bounded(LiHead(li))
  {
    AnchorTagValid(li.anchor);
    var h := LiHead(li);
    if li.text == "" {
      assert h == [Open("li"), Open(AnchorTag(li.anchor)), Close("a")];
    } else {
      assert h == [Open("li"), Open(AnchorTag(li.anchor)), Text(li.text), Close("a")];
      assert ValidPiece(Text(li.text));
    }
  }

  lemma {:induction false} LiBounded(li: Li)
    requires Readable(li)
    ensures Bounded(LiPieces(li))
    decreases li, 2
  {
    LiHeadBounded(li);
    LiTailBounded(li);
    BoundedAppend(LiHead(li), LiTail(li));
  }

  lemma {:induction false} LiTailBounded(li: Li)
    requires Readable(li)
    ensures Bounded(LiTail(li))
    decreases li, 1
  {
    match li
    case Leaf(_, _) =>
    case Branch(_, _, lis) =>
      LisBounded(lis);
      BoundedAppend([Open("ul")], LisPieces(lis));
      BoundedAppend([Open("ul")] + LisPieces(lis), [Close("ul"), Close("li")]);
  }

  lemma {:induction false} LisBounded(lis: seq<Li>)
    requires forall i :: 0 <= i < |lis| ==> Readable(lis[i])
    ensures Bounded(LisPieces(lis))
    decreases lis, 0
  {
    if lis != [] {
      LiBounded(lis[0]);
      LisBounded(lis[1..]);
      BoundedAppend(LiPieces(lis[0]), LisPieces(lis[1..]));
    }
  }

  /** `ReadLi` once the item's opening and link have been recognised. */
  lemma ReadLiAt(ps: seq<Piece>, n: int, text: string, k: nat)
    requires k == 2 || k == 3
    requires |ps| > k && ps[0] == Open("li") && ps[1].Open? && ReadAnchor(ps[1].tag) == Some(n)
    requires k == 3 ==> ps[2] == Text(text)
    requires k == 2 ==> text == "" && !ps[2].Text?
    requires ps[k] == Close("a")
    ensures ReadLi(ps) == ReadItemBody(n, text, ps[k + 1..])
  {
  }

  lemma ReadLiHead(li: Li, rest: seq<Piece>)
    requires NoAngle(li.text)
    ensures ReadLi(LiHead(li) + rest) == ReadItemBody(li.anchor, li.text, rest)
  {
    var ps := LiHead(li) + rest;
    ReadAnchorTag(li.anchor);
    var tag := Open(AnchorTag(li.anchor));
    if li.text == "" {
      assert LiHead(li) == [Open("li"), tag, Close("a")];
      assert ps[0] == Open("li") && ps[1] == tag && ps[2] == Close("a");
      assert ps[3..] == rest;
      ReadLiAt(ps, li.anchor, li.text, 2);
    } else {
      assert LiHead(li) == [Open("li"), tag, Text(li.text), Close("a")];
      assert ps[0] == Open("li") && ps[1] == tag && ps[2] == Text(li.text) && ps[3] == Close("a");
      assert ps[4..] == rest;
      ReadLiAt(ps, li.anchor, li.text, 3);
    }
  }

  lemma BranchPieces(li: Li, rest: seq<Piece>)
    requires li.Branch?
    ensures LiPieces(li) + rest == LiHead(li) + ([Open("ul")] + (LisPieces(li.nested) + ([Close("ul"), Close("li")] + rest)))
  {
    var x := LisPieces(li.nested);
    var t := [Close("ul"), Close("li")];
    assert LiTail(li) == [Open("ul")] + x + t;
    AppendAssoc(LiHead(li), LiTail(li), rest);
    AppendAssoc([Open("ul")] + x, t, rest);
    AppendAssoc([Open("ul")], x, t + rest);
  }

  lemma ReadBranchBody(n: int, text: string, lis: seq<Li>, rest: seq<Piece>)
    requires ReadLis(LisPieces(lis) + ([Close("ul"), Close("li")] + rest)) == Some((lis, [Close("ul"), Close("li")] + rest))
    ensures ReadItemBody(n, text, [Open("ul")] + (LisPieces(lis) + ([Close("ul"), Close("li")] + rest))) == Some((Branch(n, text, lis), rest))
  {
    var tail := [Close("ul"), Close("li")] + rest;
    var body := [Open("ul")] + (LisPieces(lis) + tail);
    assert body[1..] == LisPieces(lis) + tail;
    assert tail[2..] == rest;
  }

  lemma {:induction false} ReadBranch(li: Li, rest: seq<Piece>)
    requires li.Branch? && Readable(li)
    ensures ReadLi(LiPieces(li) + rest) == Some((li, rest))
    decreases li, 0
  {
    var tail := [Close("ul"), Close("li")] + rest;
    var body := [Open("ul")] + (LisPieces(li.nested) + tail);
    BranchPieces(li, rest);
    ReadLiHead(li, body);
    ReadLisPieces(li.nested, tail);
    ReadBranchBody(li.anchor, li.text, li.nested, rest);
  }

  lemma {:induction false} ReadLiPieces(li: Li, rest: seq<Piece>)
    requires Readable(li)
    ensures ReadLi(LiPieces(li) + rest) == Some((li, rest))
    decreases li, 1
  {
    if li.Leaf? {
      assert LiTail(li) == [Close("li")];
      AppendAssoc(LiHead(li), LiTail(li), rest);
      ReadLiHead(li, [Close("li")] + rest);
      assert ([Close("li")] + rest)[1..] == rest;
    } else {
      ReadBranch(li, rest);
    }
  }

  lemma LiPiecesOpens(li: Li)
    ensures LiPieces(li) != [] && LiPieces(li)[0] == Open("li")
  {
    assert LiHead(li)[0] == Open("li");
  }

  lemma ReadLisStep(li: Li, rest: seq<Piece>, lis: seq<Li>, more: seq<Piece>)
    requires ReadLi(LiPieces(li) + rest) == Some((li, rest)) && ReadLis(rest) == Some((lis, more))
    ensures ReadLis(LiPieces(li) + rest) == Some(([li] + lis, more))
  {
    LiPiecesOpens(li);
  }

  lemma LisPiecesCons(lis: seq<Li>, rest: seq<Piece>)
    requires lis != []
    ensures LisPieces(lis) + rest == LiPieces(lis[0]) + (LisPieces(lis[1..]) + rest)
  {
    assert LisPieces(lis) == LiPieces(lis[0]) + LisPieces(lis[1..]);
    AppendAssoc(LiPieces(lis[0]), LisPieces(lis[1..]), rest);
  }


  lemma ReadLisStops(rest: seq<Piece>)
    requires rest == [] || rest[0] != Open("li")
    ensures ReadLis(rest) == Some(([], rest))
  {
  }

  lemma ReadLisCons(lis: seq<Li>, rest: seq<Piece>)
    requires lis != []
    requires ReadLi(LiPieces(lis[0]) + (LisPieces(lis[1..]) + rest)) == Some((lis[0], LisPieces(lis[1..]) + rest))
    requires ReadLis(LisPieces(lis[1..]) + rest) == Some((lis[1..], rest))
    ensures ReadLis(LisPieces(lis) + rest) == Some((lis, rest))
  {
    ReadLisStep(lis[0], LisPieces(lis[1..]) + rest, lis[1..], rest);
    LisPiecesCons(lis, rest);
    HeadTail(lis);
  }

  lemma ReadLisNil(lis: seq<Li>, rest: seq<Piece>)
    requires lis == []
    requires rest == [] || rest[0] != Open("li")
    ensures ReadLis(LisPieces(lis) + rest) == Some((lis, rest))
  {
    assert LisPieces(lis) + rest == rest;
    ReadLisStops(rest);
  }

  /** Reading back a rendered run of items gives the items. */
  lemma {:induction false} ReadLisPieces(lis: seq<Li>, rest: seq<Piece>)
    requires forall i :: 0 <= i < |lis| ==> Readable(lis[i])
    requires rest == [] || rest[0] != Open("li")
    ensures ReadLis(LisPieces(lis) + rest) == Some((lis, rest))
    decreases lis, 2
  {
    if lis == [] {
      ReadLisNil(lis, rest);
    } else {
      ReadLiPieces(lis[0], LisPieces(lis[1..]) + rest);
      ReadLisPieces(lis[1..], rest);
      ReadLisCons(lis, rest);
    }
  }

  lemma PageFramesBounded()
    ensures Bounded(PageHead) && Bounded(PageMiddle) && Bounded(PageTail)
  {
    PageHeadBounded();
    PageMiddleBounded();
    assert ValidPiece(Text(CloseIndent));
  }

  lemma PageHeadBounded()
    ensures Bounded(PageHead)
  {
    assert ValidPiece(Text(ItemIndent)) && ValidPiece(Text(RefusingHeader));
  }

  lemma PageMiddleBounded()
    ensures Bounded(PageMiddle)
  {
    assert ValidPiece(Text(ItemIndent)) && ValidPiece(Text(AcceptingHeader));
  }

  /** A page of readable items is lexable. */
  lemma PageLexable(refusing: Li, accepting: Li)
    requires Readable(refusing) && Readable(accepting)
    ensures Lexable(PagePieces(refusing, accepting))
  {
    PageFramesBounded();
    LiBounded(refusing);
    LiBounded(accepting);
    var a := PageHead + LiPieces(refusing);
    BoundedAppend(PageHead, LiPieces(refusing));
    BoundedAppend(a, PageMiddle);
    BoundedAppend(a + PageMiddle, LiPieces(accepting));
    BoundedAppend(a + PageMiddle + LiPieces(accepting), PageTail);
  }

  lemma ReadPageHead(refusing: Li, rest: seq<Piece>)
    requires ReadLi(LiPieces(refusing) + rest) == Some((refusing, rest))
    ensures ReadPage(PageHead + (LiPieces(refusing) + rest)) == ReadAccepting(refusing, rest)
  {
    var ps := PageHead + (LiPieces(refusing) + rest);
    assert ps[..|PageHead|] == PageHead;
    assert ps[|PageHead|..] == LiPieces(refusing) + rest;
  }

  lemma ReadPageMiddle(refusing: Li, accepting: Li)
    requires ReadLi(LiPieces(accepting) + PageTail) == Some((accepting, PageTail))
    ensures ReadAccepting(refusing, PageMiddle + (LiPieces(accepting) + PageTail)) == Some((refusing, accepting))
  {
    var ps := PageMiddle + (LiPieces(accepting) + PageTail);
    assert ps[..|PageMiddle|] == PageMiddle;
    assert ps[|PageMiddle|..] == LiPieces(accepting) + PageTail;
  }

  lemma PagePiecesSplit(refusing: Li, accepting: Li)
    ensures PagePieces(refusing, accepting)
         == PageHead + (LiPieces(refusing) + (PageMiddle + (LiPieces(accepting) + PageTail)))
  {
    var r := LiPieces(refusing);
    var a := LiPieces(accepting);
    AppendAssoc(PageHead + r + PageMiddle, a, PageTail);
    AppendAssoc(PageHead + r, PageMiddle, a + PageTail);
    AppendAssoc(PageHead, r, PageMiddle + (a + PageTail));
  }

  lemma ReadPagePieces(refusing: Li, accepting: Li)
    requires Readable(refusing) && Readable(accepting)
    ensures ReadPage(PagePieces(refusing, accepting)) == Some((refusing, accepting))
  {
    var rest := PageMiddle + (LiPieces(accepting) + PageTail);
    PagePiecesSplit(refusing, accepting);
    ReadLiPieces(refusing, rest);
    ReadPageHead(refusing, rest);
    ReadLiPieces(accepting, PageTail);
    ReadPageMiddle(refusing, accepting);
  }

  /** The page's text reads back as the two items it was rendered from. */
  lemma PageRoundTrip(refusing: Li, accepting: Li)
    requires Readable(refusing) && Readable(accepting)
    ensures ReadPage(Lex(Render(PagePieces(refusing, accepting)))) == Some((refusing, accepting))
  {
    PageLexable(refusing, accepting);
    LexRender(PagePieces(refusing, accepting));
    ReadPagePieces(refusing, accepting);
  }
}
