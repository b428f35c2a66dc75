/** The shell's tokenizer, which overwrites the line it reads: `_gettoken` and
    `gettoken` with one token of lookahead. */
module Tokenizer {
  import opened Wrappers

  predicate IsSpace(c: char) {
    c == ' ' || c == '\t' || c == '\r' || c == '\n'
  }

  predicate IsSymbol(c: char) {
    c == '<' || c == '|' || c == '>' || c == '&' || c == ';' || c == '(' || c == ')'
  }

  /** The strings the code searches with strchr, which does not find the final NUL. */
  const WHITESPACE := " \t\r\n"
  const SYMBOLS := "<|>&;()"

  lemma CharClasses()
    ensures forall c: char :: c in WHITESPACE <==> IsSpace(c)
    ensures forall c: char :: c in SYMBOLS <==> IsSymbol(c)
  {
    forall c: char
      ensures c in WHITESPACE <==> IsSpace(c)
      ensures c in SYMBOLS <==> IsSymbol(c)
    {
      assert IsSpace(c) ==> c in [WHITESPACE[0], WHITESPACE[1], WHITESPACE[2], WHITESPACE[3]];
      assert IsSymbol(c) ==>
          c in [SYMBOLS[0], SYMBOLS[1], SYMBOLS[2], SYMBOLS[3], SYMBOLS[4], SYMBOLS[5], SYMBOLS[6]];
      assert WHITESPACE == [WHITESPACE[0], WHITESPACE[1], WHITESPACE[2], WHITESPACE[3]];
      assert SYMBOLS == [SYMBOLS[0], SYMBOLS[1], SYMBOLS[2], SYMBOLS[3], SYMBOLS[4], SYMBOLS[5], SYMBOLS[6]];
    }
  }

  // ---------------------------------------------------------------- the tokens

  /** A symbol at a position, or the word text[at..end]. */
  datatype Token = Symbol(at: nat, c: char) | Word(at: nat, end: nat)

  function SkipSpace(text: string, i: nat): (j: nat)
    requires i <= |text|
    ensures i <= j <= |text| && (j < |text| ==> !IsSpace(text[j])) && forall k | i <= k < j :: IsSpace(text[k])
    decreases |text| - i
  {
    if i < |text| && IsSpace(text[i]) then SkipSpace(text, i + 1) else i
  }

  function WordEnd(text: string, i: nat): (j: nat)
    requires i <= |text|
    ensures i <= j <= |text| && (j < |text| ==> IsSpace(text[j]) || IsSymbol(text[j]))
    ensures forall k | i <= k < j :: !IsSpace(text[k]) && !IsSymbol(text[k])
    decreases |text| - i
  {
    if i < |text| && !IsSpace(text[i]) && !IsSymbol(text[i]) then WordEnd(text, i + 1) else i
  }

  /** The first token from i on, if there is one. */
  function TokenAt(text: string, i: nat): (t: Option<Token>)
    requires i <= |text|
    ensures t.Some? ==> i <= t.value.at < After(t.value) <= |text|
  {
    var j := SkipSpace(text, i);
    if j == |text| then None
    else if IsSymbol(text[j]) then Some(Symbol(j, text[j]))
    else Some(Word(j, WordEnd(text, j)))
  }

  /** Where a word can end. */
  predicate Stops(text: string, i: nat) {
    i < |text| ==> IsSpace(text[i]) || IsSymbol(text[i])
  }

  lemma NoWordWhereOneStops(text: string, i: nat)
    requires i <= |text| && Stops(text, i) && TokenAt(text, i).Some?
    ensures TokenAt(text, i).value.Symbol? || TokenAt(text, i).value.at > i
  {
  }

  function After(t: Token): nat {
    if t.Symbol? then t.at + 1 else t.end
  }

  function Tokens(text: string, i: nat): seq<Token>
    requires i <= |text|
    decreases |text| - i
  {
    match TokenAt(text, i)
    case None => []
    case Some(t) => [t] + Tokens(text, After(t))
  }

  predicate Covers(t: Token, k: nat) {
    t.at <= k < After(t)
  }

  /** A symbol is one symbol character; a word is a run of other characters that
      ends where the line, white space or a symbol begins. */
  predicate WellCut(text: string, t: Token) {
    match t
    case Symbol(at, c) => at < |text| && text[at] == c && IsSymbol(c)
    case Word(at, end) =>
      at < end <= |text| && Stops(text, end) && forall k | at <= k < end :: !IsSpace(text[k]) && !IsSymbol(text[k])
  }

  /** The tokens cut the line up: each is well cut, they come in order without
      overlap, and what they leave out is exactly the white space. */
  lemma {:induction false} TokensPartition(text: string, i: nat)
    requires i <= |text|
    ensures forall t <- Tokens(text, i) :: i <= t.at && WellCut(text, t)
    ensures forall j, k | 0 <= j < k < |Tokens(text, i)| :: After(Tokens(text, i)[j]) <= Tokens(text, i)[k].at
    ensures forall k | i <= k < |text| :: IsSpace(text[k]) <==> forall t <- Tokens(text, i) :: !Covers(t, k)
    decreases |text| - i
  {
    var t := TokenAt(text, i);
    if t.Some? {
      var rest := Tokens(text, After(t.value));
      TokensPartition(text, After(t.value));
      assert Tokens(text, i) == [t.value] + rest;
      forall k | i <= k < |text|
        ensures IsSpace(text[k]) <==> forall u <- Tokens(text, i) :: !Covers(u, k)
      {
        assert (forall u <- Tokens(text, i) :: !Covers(u, k)) <==>
               !Covers(t.value, k) && forall u <- rest :: !Covers(u, k);
      }
    }
  }

  /** What gettoken returns for a token; 0 for the end of the line. */
  function Code(t: Option<Token>): char {
    match t
    case None => '\0'
    case Some(Symbol(_, c)) => c
    case Some(Word(_, _)) => 'w'
  }

  // ---------------------------------------------------------------- in place

  class Lexer {
    const buf: array<char>
    var nc: char
    var c: char
    var np1: Option<nat>
    var np2: Option<nat>
    /** The line as it was, the tokens not returned yet, and the words returned. */
    ghost const text: string
    ghost var rest: seq<Token>
    ghost var words: seq<Token>

    /** The buffer from i to j is still the text. */
    ghost predicate Same(i: nat, j: nat)
      reads this, buf
    {
      j <= |text| < buf.Length && forall k | i <= k < j :: buf[k] == text[k]
    }

    ghost predicate Intact(i: nat)
      reads this, buf
    {
      i <= |text| && buf.Length == |text| + 1 && buf[|text|] == '\0' && '\0' !in text && Same(i, |text|)
    }

    /** Reading at the word's address gives the word and ends there. */
    ghost predicate ReadsBack(w: Token)
      reads this, buf
    {
      w.Word? && w.at < w.end <= |text| && |text| < buf.Length &&
      Same(w.at, w.end) && buf[w.end] == '\0'
    }

    /** The NUL after the word lies before everything still to be overwritten. */
    static ghost predicate Behind(w: Token, rest: seq<Token>) {
      w.Word? && (rest == [] || w.end < rest[0].at || (w.end == rest[0].at && rest[0].Symbol?))
    }

    /** The token ahead is the first of the rest, and the text after it is intact. */
    ghost predicate Ahead()
      reads this, buf
    {
      buf.Length == |text| + 1 && buf[|text|] == '\0' && '\0' !in text &&
      match np2
      case None => rest == [] && nc == '\0' && np1 == None
      case Some(i) =>
        Intact(i) && rest != [] && After(rest[0]) == i && rest[1..] == Tokens(text, i) &&
        np1 == Some(rest[0].at) && nc == Code(Some(rest[0])) &&
        (rest[0].Word? ==> rest[0].at < i && Same(rest[0].at, i) && Stops(text, i))
    }

    ghost predicate Valid()
      reads this, buf
    {
      Ahead() && forall w <- words :: ReadsBack(w) && Behind(w, rest)
    }

    constructor (buf: array<char>, ghost text: string)
      requires buf.Length == |text| + 1 && buf[..] == text + ['\0'] && '\0' !in text
      ensures this.buf == buf && this.text == text && words == [] && Intact(0)
    {
      this.buf, this.text := buf, text;
      words, rest := [], [];
      np1, np2, nc, c := None, None, '\0', '\0';
    }

    /** The first loop of _gettoken: white space becomes NUL. */
    method EatSpace(s: nat) returns (i: nat)
      requires Intact(s)
      modifies buf
      ensures i == SkipSpace(text, s) && Intact(i)
      ensures forall k | 0 <= k < s :: buf[k] == old(buf[k])
      ensures i > s ==> buf[s] == '\0'
    {
      CharClasses();
      i := s;
      while buf[i] in WHITESPACE
        invariant s <= i <= |text| && Intact(i)
        invariant SkipSpace(text, i) == SkipSpace(text, s)
        invariant forall k | 0 <= k < s :: buf[k] == old(buf[k])
        invariant i > s ==> buf[s] == '\0'
        decreases |text| - i
      {
        buf[i] := '\0';
        i := i + 1;
      }
    }

    /** _gettoken: finds the token from s on, overwriting white space and a symbol
        with NUL. A null s leaves the two pointers alone. */
    method GetTokenRaw(s: Option<nat>, q1: Option<nat>, q2: Option<nat>)
        returns (t: char, p1: Option<nat>, p2: Option<nat>)
      requires s.Some? ==> Intact(s.value)
      modifies buf
      ensures s.None? ==> t == '\0' && p1 == q1 && p2 == q2 && buf[..] == old(buf[..])
      ensures s.Some? ==>
        var tok := TokenAt(text, s.value);
        && t == Code(tok) && Intact(|text|)
        && (tok.None? ==> p1.None? && p2.None?)
        && (tok.Some? ==> p1 == Some(tok.value.at) && p2 == Some(After(tok.value)) && Intact(After(tok.value)))
        && (tok.Some? && tok.value.Word? ==> Same(tok.value.at, tok.value.end) && Stops(text, tok.value.end))
        && (forall k | 0 <= k < s.value :: buf[k] == old(buf[k]))
        && (tok.None? || tok.value.Symbol? || tok.value.at > s.value ==> buf[s.value] == '\0')
    {
      if s.None? {
        return '\0', q1, q2;
      }
      CharClasses();
      var i := EatSpace(s.value);
      if buf[i] == '\0' {
        return '\0', None, None;
      }
      if buf[i] in SYMBOLS {
        t, p1 := buf[i], Some(i);
        buf[i] := '\0';
        return t, p1, Some(i + 1);
      }
      p1 := Some(i);
      var j := i;
      while buf[j] != '\0' && buf[j] !in WHITESPACE + SYMBOLS
        invariant i <= j <= |text|
        invariant WordEnd(text, j) == WordEnd(text, i)
        decreases |text| - j
      {
        j := j + 1;
      }
      return 'w', p1, Some(j);
    }

    /** gettoken with a line: only scans ahead. */
    method GetTokenFirst() returns (r: char)
      requires Intact(0) && words == []
      modifies this, buf
      ensures r == '\0' && Valid() && rest == Tokens(text, 0) && words == []
    {
      nc, np1, np2 := GetTokenRaw(Some(0), np1, np2);
      rest := Tokens(text, 0);
      r := '\0';
    }

    /** The lookahead moves on by one token. What lies before the end of the old
        one stays, and an old word now ends in NUL. */
    method Advance()
      requires Ahead()
      modifies this`nc, this`np1, this`np2, this`rest, buf
      ensures Ahead()
      ensures old(rest) == [] ==> rest == [] && forall k | 0 <= k < buf.Length :: buf[k] == old(buf[k])
      ensures old(rest) != [] ==>
                rest == old(rest)[1..] && forall k | 0 <= k < After(old(rest)[0]) :: buf[k] == old(buf[k])
      ensures old(rest) != [] && old(rest)[0].Word? ==> ReadsBack(old(rest)[0]) && Behind(old(rest)[0], rest)
    {
      if np2.Some? {
        if rest[0].Word? && TokenAt(text, np2.value).Some? {
          NoWordWhereOneStops(text, np2.value);
        }
        rest := rest[1..];
      }
      hide SkipSpace, WordEnd, TokenAt, Tokens, IsSpace, IsSymbol, Stops;
      nc, np1, np2 := GetTokenRaw(np2, np1, np2);
    }

    /** gettoken without a line: the next token of the original text, or 0 for
        ever after the last. A returned word reads back, NUL-terminated, now and
        after every later call. */
    method GetToken() returns (r: char, p1: Option<nat>)
      requires Valid()
      modifies this, buf
      ensures Valid()
      ensures old(rest) == [] ==> r == '\0' && p1 == None && rest == [] && words == old(words)
      ensures old(rest) != [] ==> r == Code(Some(old(rest)[0])) && p1 == Some(old(rest)[0].at) && rest == old(rest)[1..]
      ensures old(rest) != [] ==> words == old(words) + if old(rest)[0].Word? then [old(rest)[0]] else []
      ensures forall w <- words :: ReadsBack(w)
    {
      c := nc;
      p1 := np1;
      ghost var tok := rest;
      Advance();
      forall w <- words ensures ReadsBack(w) && Behind(w, rest) {
        assert tok != [] ==> w.end < After(tok[0]);
      }
      if tok != [] && tok[0].Word? {
        words := words + [tok[0]];
      }
      r := c;
    }
  }
}
