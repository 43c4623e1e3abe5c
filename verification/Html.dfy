/** The HTML the template filters emit, as a sequence of pieces (tags and
    text runs) that concatenate to the emitted string, together with the
    escaping Django applies to strings and a reading of the string back into
    pieces. */
module Html {

  datatype Piece = Open(tag: string) | Close(tag: string) | Text(text: string)

  function PieceText(p: Piece): string
  {
    match p
    case Open(t) => "<" + t + ">"
    case Close(t) => "</" + t + ">"
    case Text(s) => s
  }

  /** The emitted string: the pieces' texts, concatenated. */
  function Render(ps: seq<Piece>): string
    decreases ps
  {
    if ps == [] then "" else PieceText(ps[0]) + Render(ps[1..])
  }

  lemma {:induction false} RenderAppend(a: seq<Piece>, b: seq<Piece>)
    ensures Render(a + b) == Render(a) + Render(b)
    decreases a
  {
    if a != [] {
      assert (a + b)[0] == a[0];
      assert (a + b)[1..] == a[1..] + b;
      RenderAppend(a[1..], b);
      assert Render(a + b) == PieceText(a[0]) + Render(a[1..] + b);
    } else {
      assert a + b == b;
    }
  }

  lemma AppendAssoc<T>(a: seq<T>, b: seq<T>, c: seq<T>)
    ensures (a + b) + c == a + (b + c)
  {
  }

  lemma HeadTail<T>(s: seq<T>)
    requires s != []
    ensures [s[0]] + s[1..] == s
  {
  }

  /** An interpolated string: no piece at all when it is empty. */
  function TextPieces(s: string): (r: seq<Piece>)
    ensures Render(r) == s
  {
    if s == "" then [] else [Text(s)]
  }

  /** Neither angle bracket occurs in `s`. */
  predicate NoAngle(s: string)
  {
    forall i :: 0 <= i < |s| ==> s[i] != '<' && s[i] != '>'
  }

  predicate ValidPiece(p: Piece)
  {
    match p
    case Open(t) => NoAngle(t) && (t == [] || t[0] != '/')
    case Close(t) => NoAngle(t)
    case Text(s) => s != [] && forall i :: 0 <= i < |s| ==> s[i] != '<'
  }

  /** Pieces that can be read back from their rendering: each piece is
      valid and no two text runs are adjacent (they would merge). */
  predicate Lexable(ps: seq<Piece>)
  {
    && (forall i :: 0 <= i < |ps| ==> ValidPiece(ps[i]))
    && (forall i :: 0 <= i < |ps| - 1 ==> !(ps[i].Text? && ps[i + 1].Text?))
  }

  /** The index of the first `c` in `s`, or `|s|` when there is none. */
  function Find(s: string, c: char): (k: nat)
    ensures k <= |s|
    ensures forall i :: 0 <= i < k ==> s[i] != c
    ensures k < |s| ==> s[k] == c
    decreases |s|
  {
    if s == [] then 0 else if s[0] == c then 0 else 1 + Find(s[1..], c)
  }

  /** Reads a string as pieces: a tag runs from `<` to the next `>`, a text
      run up to the next `<`. An unterminated tag is read as text. */
  function Lex(s: string): seq<Piece>
    decreases |s|
  {
    if s == [] then []
    else if s[0] == '<' then
      var k := Find(s, '>');
      if k == |s| then [Text(s)]
      else
        var inner := s[1..k];
        (if inner != [] && inner[0] == '/' then [Close(inner[1..])] else [Open(inner)]) + Lex(s[k + 1..])
    else
      var k := Find(s, '<');
      [Text(s[..k])] + Lex(s[k..])
  }

  lemma RenderStartsWithTag(ps: seq<Piece>)
    requires ps != [] && !ps[0].Text?
    ensures Render(ps) != [] && Render(ps)[0] == '<'
  {
  }

  /** A bracketed run without brackets inside reads as one tag. */
  lemma LexBracketed(inner: string, rest: string)
    requires NoAngle(inner)
    ensures Lex("<" + inner + ">" + rest)
         == (if inner != [] && inner[0] == '/' then [Close(inner[1..])] else [Open(inner)]) + Lex(rest)
  {
    var s := "<" + inner + ">" + rest;
    var n := |inner|;
    assert s[0] == '<';
    forall i | 0 <= i < n + 1 ensures s[i] != '>' {
      if i > 0 { assert s[i] == inner[i - 1]; }
    }
    assert s[n + 1] == '>';
    assert Find(s, '>') == n + 1;
    assert s[1..n + 1] == inner;
    assert s[n + 2..] == rest;
  }

  lemma LexTag(p: Piece, rest: string)
    requires !p.Text? && ValidPiece(p)
    ensures Lex(PieceText(p) + rest) == [p] + Lex(rest)
  {
    if p.Open? {
      LexBracketed(p.tag, rest);
    } else {
      LexClose(p.tag, rest);
    }
  }

  lemma LexClose(tag: string, rest: string)
    requires NoAngle(tag)
    ensures Lex(PieceText(Close(tag)) + rest) == [Close(tag)] + Lex(rest)
  {
    var inner := "/" + tag;
    SlashNoAngle(tag);
    assert inner[1..] == tag;
    LexBracketed(inner, rest);
    assert PieceText(Close(tag)) + rest == "<" + inner + ">" + rest;
  }

  lemma SlashNoAngle(tag: string)
    requires NoAngle(tag)
    ensures NoAngle("/" + tag)
  {
    var inner := "/" + tag;
    forall i | 0 <= i < |inner| ensures inner[i] != '<' && inner[i] != '>' {
      if i > 0 { assert inner[i] == tag[i - 1]; }
    }
  }

  lemma LexText(x: string, rest: string)
    requires x != [] && forall i :: 0 <= i < |x| ==> x[i] != '<'
    requires rest == [] || rest[0] == '<'
    ensures Lex(x + rest) == [Text(x)] + Lex(rest)
  {
    var s := x + rest;
    assert s[0] == x[0];
    assert Find(s, '<') == |x| by {
      assert forall i :: 0 <= i < |x| ==> s[i] != '<' by {
        forall i | 0 <= i < |x| ensures s[i] != '<' { assert s[i] == x[i]; }
      }
      if rest != [] { assert s[|x|] == rest[0]; }
    }
    assert s[..|x|] == x;
    assert s[|x|..] == rest;
  }

  /** Reading back a rendering gives the pieces it was rendered from. */
  lemma {:induction false} LexRender(ps: seq<Piece>)
    requires Lexable(ps)
    ensures Lex(Render(ps)) == ps
    decreases ps
  {
    if ps != [] {
      assert ValidPiece(ps[0]);
      assert Lexable(ps[1..]) by {
        forall i | 0 <= i < |ps[1..]| ensures ValidPiece(ps[1..][i]) { assert ps[1..][i] == ps[i + 1]; }
        forall i | 0 <= i < |ps[1..]| - 1 ensures !(ps[1..][i].Text? && ps[1..][i + 1].Text?) {
          assert ps[1..][i] == ps[i + 1] && ps[1..][i + 1] == ps[i + 2];
        }
      }
      LexRender(ps[1..]);
      if ps[0].Text? {
        if ps[1..] != [] {
          assert !ps[1].Text?;
          RenderStartsWithTag(ps[1..]);
        }
        LexText(ps[0].text, Render(ps[1..]));
      } else {
        LexTag(ps[0], Render(ps[1..]));
      }
    }
  }

  // ---------------------------------------------------------------------
  // Escaping

  /** `django.utils.html.escape` of one character, as in Django 2.2. */
  function EscapeChar(c: char): string
  {
    if c == '&' then "&amp;"
    else if c == '<' then "&lt;"
    else if c == '>' then "&gt;"
    else if c == '"' then "&quot;"
    else if c == '\'' then "&#39;"
    else [c]
  }

  /** `conditional_escape` of a plain (not already safe) string. */
  function Escape(s: string): string
    decreases s
  {
    if s == [] then [] else EscapeChar(s[0]) + Escape(s[1..])
  }

  /** Decodes the five entities `Escape` produces; every other character
      stands for itself. */
  function Unescape(s: string): string
    decreases |s|
  {
    if s == [] then []
    else if |s| >= 5 && s[..5] == "&amp;" then "&" + Unescape(s[5..])
    else if |s| >= 4 && s[..4] == "&lt;" then "<" + Unescape(s[4..])
    else if |s| >= 4 && s[..4] == "&gt;" then ">" + Unescape(s[4..])
    else if |s| >= 6 && s[..6] == "&quot;" then "\"" + Unescape(s[6..])
    else if |s| >= 5 && s[..5] == "&#39;" then "'" + Unescape(s[5..])
    else [s[0]] + Unescape(s[1..])
  }

  lemma UnescapeEscapeChar(c: char, rest: string)
    ensures Unescape(EscapeChar(c) + rest) == [c] + Unescape(rest)
  {
    if c == '&' {
      UnescapeAmp(rest);
    } else if c == '<' {
      UnescapeAngle("&lt;", c, rest);
    } else if c == '>' {
      UnescapeAngle("&gt;", c, rest);
    } else if c == '"' {
      UnescapeQuot(rest);
    } else if c == '\'' {
      UnescapeApos(rest);
    } else {
      var s := [c] + rest;
      assert s[0] == c && s[1..] == rest;
    }
  }

  lemma UnescapeAmp(rest: string)
    ensures Unescape("&amp;" + rest) == "&" + Unescape(rest)
  {
    var s := "&amp;" + rest;
    assert s[..5] == "&amp;" && s[5..] == rest;
  }

  /** The two four-character entities, `&lt;` and `&gt;`, each decode to
      their one character. */
  lemma UnescapeAngle(entity: string, c: char, rest: string)
    requires (entity, c) == ("&lt;", '<') || (entity, c) == ("&gt;", '>')
    ensures Unescape(entity + rest) == [c] + Unescape(rest)
  {
    var s := entity + rest;
    assert s[1] == entity[1];
    assert s[..4] == entity && s[4..] == rest;
  }

  lemma UnescapeQuot(rest: string)
    ensures Unescape("&quot;" + rest) == "\"" + Unescape(rest)
  {
    var s := "&quot;" + rest;
    assert s[1] == 'q';
    assert s[..6] == "&quot;" && s[6..] == rest;
  }

  lemma UnescapeApos(rest: string)
    ensures Unescape("&#39;" + rest) == "'" + Unescape(rest)
  {
    var s := "&#39;" + rest;
    assert s[1] == '#';
    assert s[..5] == "&#39;" && s[5..] == rest;
  }

  /** Escaping loses nothing: unescaping recovers the original string. */
  lemma {:induction false} UnescapeEscape(s: string)
    ensures Unescape(Escape(s)) == s
    decreases s
  {
    if s != [] {
      UnescapeEscape(s[1..]);
      UnescapeEscapeChar(s[0], Escape(s[1..]));
      assert [s[0]] + s[1..] == s;
    }
  }

  /** An escaped string holds no angle bracket, so it cannot open or close a
      tag; it is empty exactly when the original is. */
  lemma {:induction false} EscapeNoAngle(s: string)
    ensures NoAngle(Escape(s))
    ensures Escape(s) == [] <==> s == []
    decreases s
  {
    if s != [] {
      EscapeNoAngle(s[1..]);
      var e := EscapeChar(s[0]);
      assert NoAngle(e);
      assert forall i :: 0 <= i < |Escape(s)| ==> Escape(s)[i] == if i < |e| then e[i] else Escape(s[1..])[i - |e|];
    }
  }
}
