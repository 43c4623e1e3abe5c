/** The rule structure of the multiple-choice grammar:

      multiplechoice : qa+ ;
      qa             : INT LETTER+ ;

    over the two token kinds the lexer produces (whitespace and line comments
    are skipped by the lexer and never reach the parser). The ANTLR runtime
    itself, with its error recovery, is not modelled: the recogniser answers
    whether the token stream is free of syntax errors and, if so, which
    `qa` groups it contains. */
module MultipleChoiceParser {
  import opened Wrappers

  /** An ASCII letter, the only text a LETTER token can carry. */
  type Letter = c: char | 'a' <= c <= 'z' || 'A' <= c <= 'Z' witness 'a'

  datatype Token = INT(value: nat) | LETTER(letter: Letter)

  /** A parsed `qa` group: its single INT and its LETTERs in order. */
  datatype Qa = Qa(number: nat, letters: seq<Letter>)

  function LetterTokens(ls: seq<Letter>): (ts: seq<Token>)
    ensures |ts| == |ls|
    ensures forall i :: 0 <= i < |ts| ==> ts[i] == LETTER(ls[i])
  {
    seq(|ls|, i requires 0 <= i < |ls| => LETTER(ls[i]))
  }

  /** The tokens a `qa` group is made of. */
  function QaTokens(qa: Qa): seq<Token>
  {
    [INT(qa.number)] + LetterTokens(qa.letters)
  }

  /** The tokens of a sequence of `qa` groups, in order. */
  function Tokens(qas: seq<Qa>): seq<Token>
    decreases |qas|
  {
    if qas == [] then [] else QaTokens(qas[0]) + Tokens(qas[1..])
  }

  /** What a successful parse can produce: at least one group, and every group
      with at least one letter. */
  predicate WellFormed(qas: seq<Qa>)
  {
    |qas| >= 1 && forall i :: 0 <= i < |qas| ==> |qas[i].letters| >= 1
  }

  /** The inner `LETTER+` loop: consumes letters while the next token is a
      LETTER and returns them with the remaining tokens. */
  function Letters(ts: seq<Token>): (r: (seq<Letter>, seq<Token>))
    ensures LetterTokens(r.0) + r.1 == ts
    ensures r.1 == [] || r.1[0].INT?
    decreases |ts|
  {
    if ts != [] && ts[0].LETTER? then
      var (ls, rest) := Letters(ts[1..]);
      ([ts[0].letter] + ls, rest)
    else
      ([], ts)
  }

  /** The `multiplechoice` rule. A `qa` group is parsed before the loop test
      (so at least one group is required), and the outer loop goes on while
      the next token is an INT. `None` means the parser reports a syntax
      error. */
  function Multiplechoice(ts: seq<Token>): (r: Option<seq<Qa>>)
    ensures r.Some? ==> WellFormed(r.value) && Tokens(r.value) == ts
    decreases |ts|
  {
    if ts == [] || !ts[0].INT? then None
    else
      var (ls, rest) := Letters(ts[1..]);
      if ls == [] then None
      else if rest == [] then Some([Qa(ts[0].value, ls)])
      else
        match Multiplechoice(rest)
        case None => None
        case Some(qas) => Some([Qa(ts[0].value, ls)] + qas)
  }

  /** True when the parser reports no syntax error. */
  predicate Accepts(ts: seq<Token>)
  {
    Multiplechoice(ts).Some?
  }

  /** The regular language (INT LETTER+)+ stated directly on the token stream:
      it starts with an INT, ends with a LETTER, and no INT follows an INT. */
  predicate InLanguage(ts: seq<Token>)
  {
    && |ts| >= 2
    && ts[0].INT?
    && ts[|ts| - 1].LETTER?
    && forall i :: 0 <= i < |ts| - 1 ==> !(ts[i].INT? && ts[i + 1].INT?)
  }

  lemma LettersOfLetterTokens(ls: seq<Letter>, rest: seq<Token>)
    requires rest == [] || rest[0].INT?
    ensures Letters(LetterTokens(ls) + rest) == (ls, rest)
    decreases |ls|
  {
    if ls != [] {
      var ts := LetterTokens(ls) + rest;
      assert ts[0] == LETTER(ls[0]);
      assert ts[1..] == LetterTokens(ls[1..]) + rest;
      LettersOfLetterTokens(ls[1..], rest);
      assert [ls[0]] + ls[1..] == ls;
    } else {
      assert LetterTokens(ls) + rest == rest;
    }
  }

  /** Parsing the tokens of well-formed groups gives those groups back. */
  lemma {:induction false} ParseTokens(qas: seq<Qa>)
    requires WellFormed(qas)
    ensures Multiplechoice(Tokens(qas)) == Some(qas)
    decreases |qas|
  {
    var qa := qas[0];
    var ts := Tokens(qas);
    var rest := Tokens(qas[1..]);
    assert ts == [INT(qa.number)] + (LetterTokens(qa.letters) + rest);
    assert ts[1..] == LetterTokens(qa.letters) + rest;
    assert ts[0] == INT(qa.number);
    assert |qa.letters| >= 1;
    if |qas| == 1 {
      assert qas[1..] == [];
      assert rest == [];
      LettersOfLetterTokens(qa.letters, rest);
      assert Letters(ts[1..]) == (qa.letters, []);
      assert qas == [Qa(qa.number, qa.letters)];
    } else {
      assert WellFormed(qas[1..]) by {
        forall i | 0 <= i < |qas[1..]|
          ensures |qas[1..][i].letters| >= 1
        {
          assert qas[1..][i] == qas[i + 1];
        }
      }
      assert rest == QaTokens(qas[1]) + Tokens(qas[2..]);
      LettersOfLetterTokens(qa.letters, rest);
      ParseTokens(qas[1..]);
      assert [qa] + qas[1..] == qas;
    }
  }

  lemma {:induction false} TokensInLanguage(qas: seq<Qa>)
    requires WellFormed(qas)
    ensures InLanguage(Tokens(qas))
    decreases |qas|
  {
    var qa := qas[0];
    var head := QaTokens(qa);
    var rest := Tokens(qas[1..]);
    assert Tokens(qas) == head + rest;
    assert head[|head| - 1].LETTER?;
    if |qas| > 1 {
      assert WellFormed(qas[1..]) by {
        forall i | 0 <= i < |qas[1..]|
          ensures |qas[1..][i].letters| >= 1
        {
          assert qas[1..][i] == qas[i + 1];
        }
      }
      TokensInLanguage(qas[1..]);
      var ts := head + rest;
      forall i | 0 <= i < |ts| - 1
        ensures !(ts[i].INT? && ts[i + 1].INT?)
      {
        if i + 1 < |head| {
          assert ts[i + 1] == head[i + 1];
        } else if i + 1 > |head| {
          assert ts[i] == rest[i - |head|];
          assert ts[i + 1] == rest[i + 1 - |head|];
        } else {
          assert ts[i] == head[|head| - 1];
        }
      }
    } else {
      assert rest == [];
      assert Tokens(qas) == head;
    }
  }

  lemma {:induction false} InLanguageParses(ts: seq<Token>)
    requires InLanguage(ts)
    ensures Accepts(ts)
    decreases |ts|
  {
    var (ls, rest) := Letters(ts[1..]);
    assert ts[1].LETTER?;
    assert ts[1..][0] == ts[1];
    assert ls != [];
    if rest != [] {
      var k := 1 + |ls|;
      assert ts[1..] == LetterTokens(ls) + rest;
      assert rest == ts[k..] by {
        assert ts == [ts[0]] + ts[1..];
      }
      assert rest[|rest| - 1] == ts[|ts| - 1];
      assert InLanguage(rest) by {
        forall i | 0 <= i < |rest| - 1
          ensures !(rest[i].INT? && rest[i + 1].INT?)
        {
          assert rest[i] == ts[k + i] && rest[i + 1] == ts[k + i + 1];
        }
      }
      InLanguageParses(rest);
    }
  }

  /** The parser accepts exactly the token streams of the form (INT LETTER+)+. */
  lemma AcceptedLanguage(ts: seq<Token>)
    ensures Accepts(ts) <==> InLanguage(ts)
  {
    if Accepts(ts) {
      TokensInLanguage(Multiplechoice(ts).value);
    }
    if InLanguage(ts) {
      InLanguageParses(ts);
    }
  }

  /** The parser's output is an exact account of its input: a stream is
      accepted as the groups `qas` precisely when it is their token sequence. */
  lemma ParseIsInverseOfTokens(ts: seq<Token>, qas: seq<Qa>)
    ensures Multiplechoice(ts) == Some(qas) <==> WellFormed(qas) && Tokens(qas) == ts
  {
    if WellFormed(qas) && Tokens(qas) == ts {
      ParseTokens(qas);
    }
  }
}
