/** `minify` of scripts/embed_config.py: a one-pass transducer that drops whitespace outside strings. */
module Minifier {
  import opened Common
  import opened JsonText

  /** The two flags the loop carries. */
  datatype Mode = Mode(quoted: bool, escaped: bool)

  const START := Mode(false, false)

  function Next(m: Mode, c: char): Mode {
    if m.escaped then m.(escaped := false)
    else if m.quoted && c == '\\' then m.(escaped := true)
    else if c == '"' then m.(quoted := !m.quoted)
    else m
  }

  predicate Kept(m: Mode, c: char) {
    m.quoted || !IsWhitespace(c)
  }

  /** What the loop appends from mode `m` on. */
  function Minified(t: string, m: Mode): string {
    if t == [] then []
    else (if Kept(m, t[0]) then [t[0]] else []) + Minified(t[1..], Next(m, t[0]))
  }

  lemma MinifiedStep(t: string, i: nat, m: Mode, done: string)
    requires i < |t|
    ensures done + Minified(t[i..], m) ==
            (if Kept(m, t[i]) then done + [t[i]] else done) + Minified(t[i + 1..], Next(m, t[i]))
  {
    assert t[i..][1..] == t[i + 1..];
  }

  method Minify(text: string) returns (result: string)
    ensures result == Minified(text, START)
  {
    result := [];
    var quoted, escaped := false, false;
    for i := 0 to |text|
      invariant Minified(text, START) == result + Minified(text[i..], Mode(quoted, escaped))
    {
      var c := text[i];
      MinifiedStep(text, i, Mode(quoted, escaped), result);
      if quoted || !IsWhitespace(c) {
        result := result + [c];
      }
      if escaped {
        escaped := false;
      } else if quoted && c == '\\' {
        escaped := true;
      } else if c == '"' {
        quoted := !quoted;
      }
    }
  }

  // ----- idempotence, for any text

  lemma {:induction false} MinifiedTwice(t: string, m: Mode)
    requires m.escaped ==> m.quoted
    ensures Minified(Minified(t, m), m) == Minified(t, m)
  {
    if t != [] {
      MinifiedTwice(t[1..], Next(m, t[0]));
      if Kept(m, t[0]) {
        assert Minified(t, m)[1..] == Minified(t[1..], Next(m, t[0]));
      } else {
        assert Minified(t, m) == Minified(t[1..], m);
      }
    }
  }

  lemma MinifyIsIdempotent(t: string)
    ensures Minified(Minified(t, START), START) == Minified(t, START)
  {
    MinifiedTwice(t, START);
  }

  // ----- meaning

  /** Inside a string everything up to the closing mark is copied, and the mode then returns to START. */
  lemma {:induction false} StringIsCopied(t: string, escaped: bool)
    requires BodyLength(t, escaped).Some?
    ensures var n := BodyLength(t, escaped).value;
            Minified(t, Mode(true, escaped)) == t[..n + 1] + Minified(t[n + 1..], START)
  {
    var m, n, rest := Mode(true, escaped), BodyLength(t, escaped).value, t[1..];
    assert Minified(t, m) == [t[0]] + Minified(rest, Next(m, t[0]));
    if !escaped && t[0] == '"' {
      assert t[..1] == [t[0]];
    } else {
      StringIsCopied(rest, !escaped && t[0] == '\\');
      assert rest[n..] == t[n + 1..];
      assert t[..n + 1] == [t[0]] + rest[..n];
    }
  }

  lemma {:induction false} OpenStringStaysOpen(t: string, escaped: bool)
    requires BodyLength(t, escaped).None?
    ensures BodyLength(Minified(t, Mode(true, escaped)), escaped).None?
  {
    if t != [] {
      OpenStringStaysOpen(t[1..], !escaped && t[0] == '\\');
    }
  }

  lemma {:induction false} BodyLengthLocal(t: string, u: string, escaped: bool)
    requires BodyLength(t, escaped).Some?
    requires BodyLength(t, escaped).value < |u| && t[..BodyLength(t, escaped).value + 1] <= u
    ensures BodyLength(u, escaped) == BodyLength(t, escaped)
  {
    assert u[0] == t[0];
    if escaped || t[0] != '"' {
      var n := BodyLength(t, escaped).value;
      assert t[1..][..n] == t[..n + 1][1..] <= u[1..];
      BodyLengthLocal(t[1..], u[1..], !escaped && t[0] == '\\');
    }
  }

  /** A run of word characters is copied. */
  lemma {:induction false} WordIsCopied(t: string, n: nat)
    requires n <= |t| && forall k :: 0 <= k < n ==> IsWordChar(t[k])
    ensures Minified(t, START) == t[..n] + Minified(t[n..], START)
  {
    if n > 0 {
      WordIsCopied(t[1..], n - 1);
      assert t[1..][n - 1..] == t[n..];
      assert t[..n] == [t[0]] + t[1..][..n - 1];
    } else {
      assert t[0..] == t;
    }
  }

  lemma {:induction false} WordLengthAppend(w: string, u: string)
    requires forall k :: 0 <= k < |w| ==> IsWordChar(w[k])
    ensures WordLength(w + u) == |w| + WordLength(u)
  {
    if w == [] {
      assert w + u == u;
    } else {
      assert (w + u)[1..] == w[1..] + u;
      WordLengthAppend(w[1..], u);
    }
  }

  // ----- the tokens of the minified text

  /** `x` before joined tokens: a word runs into the word that follows it. */
  function Glue(x: Token, ts: seq<Token>): seq<Token> {
    if x.Word? && ts != [] && ts[0].Word? then [Word(x.lexeme + ts[0].lexeme)] + ts[1..] else [x] + ts
  }

  /** The tokens with adjacent words run together. */
  function Joined(ts: seq<Token>): seq<Token> {
    if ts == [] then [] else Glue(ts[0], Joined(ts[1..]))
  }

  function JoinedTokens(ts: Option<seq<Token>>): Option<seq<Token>> {
    if ts.None? then None else Some(Joined(ts.value))
  }

  lemma JoinedPush(x: Token, ts: Option<seq<Token>>)
    ensures JoinedTokens(Push(x, ts)) == if ts.None? then None else Some(Glue(x, Joined(ts.value)))
  {
    if ts.Some? {
      assert ([x] + ts.value)[1..] == ts.value;
    }
  }

  predicate IsWord(w: string) {
    w != [] && forall k :: 0 <= k < |w| ==> IsWordChar(w[k])
  }

  /** A word before a text that does not begin with whitespace is a token of its own, or runs into the word
      the text begins with. */
  lemma LexBehindWord(w: string, u: string)
    requires IsWord(w) && (u == [] || !IsWhitespace(u[0]))
    ensures Lex(w + u) == if Lex(u).None? then None else Some(Glue(Word(w), Lex(u).value))
  {
    WordLengthAppend(w, u);
    var n, k := |w| + WordLength(u), WordLength(u);
    assert (w + u)[n..] == u[k..] && (w + u)[..n] == w + u[..k] && (w + u)[0] == w[0];
    assert Lex(w + u) == Push(Word(w + u[..k]), Lex(u[k..]));
    if k == 0 {
      assert w + u[..k] == w && u[k..] == u;
      NoWordFirst(u);
    } else {
      assert Lex(u) == Push(Word(u[..k]), Lex(u[k..]));
    }
  }

  lemma NoWordFirst(u: string)
    requires u == [] || (!IsWhitespace(u[0]) && !IsWordChar(u[0]))
    ensures Lex(u).Some? && Lex(u).value != [] ==> !Lex(u).value[0].Word?
  {
  }

  lemma {:induction false} MinifiedStart(t: string)
    ensures Minified(t, START) == [] || !IsWhitespace(Minified(t, START)[0])
  {
    if t != [] && IsWhitespace(t[0]) {
      MinifiedStart(t[1..]);
    }
  }

  /** Minifying a text runs its adjacent words together, and changes no other token. */
  lemma {:induction false} TokensJoined(t: string)
    ensures Lex(Minified(t, START)) == JoinedTokens(Lex(t))
    decreases |t|, 1
  {
    if t == [] {
    } else if IsWhitespace(t[0]) {
      TokensJoined(t[1..]);
      assert Minified(t, START) == Minified(t[1..], START);
    } else if IsPunct(t[0]) {
      TokensJoined(t[1..]);
      JoinedPush(Punct(t[0]), Lex(t[1..]));
      assert Minified(t, START)[1..] == Minified(t[1..], START);
    } else if t[0] == '"' {
      StringTokenJoined(t);
    } else {
      WordTokenJoined(t);
    }
  }

  lemma {:induction false} StringTokenJoined(t: string)
    requires t != [] && t[0] == '"'
    ensures Lex(Minified(t, START)) == JoinedTokens(Lex(t))
    decreases |t|, 0
  {
    var s, m := t[1..], Minified(t, START);
    assert m[0] == '"' && m[1..] == Minified(s, Mode(true, false));
    var n := BodyLength(s, false);
    if n.None? {
      OpenStringStaysOpen(s, false);
    } else {
      var rest := s[n.value + 1..];
      StringIsCopied(s, false);
      BodyLengthLocal(s, m[1..], false);
      assert m[1..][n.value + 1..] == Minified(rest, START);
      assert m[1..][..n.value] == s[..n.value];
      TokensJoined(rest);
      JoinedPush(Quoted(s[..n.value]), Lex(rest));
    }
  }

  lemma {:induction false} WordTokenJoined(t: string)
    requires t != [] && IsWordChar(t[0])
    ensures Lex(Minified(t, START)) == JoinedTokens(Lex(t))
    decreases |t|, 0
  {
    var n := WordLength(t);
    var rest := t[n..];
    WordIsCopied(t, n);
    TokensJoined(rest);
    JoinedPush(Word(t[..n]), Lex(rest));
    MinifiedStart(rest);
    LexBehindWord(t[..n], Minified(rest, START));
  }

  // ----- what that means for the value

  lemma {:induction false} ApartIsJoined(ts: seq<Token>)
    requires WordsApart(ts, 0, |ts|)
    ensures Joined(ts) == ts
  {
    if ts != [] {
      assert forall k :: 0 <= k < |ts| - 1 ==> ts[1..][k] == ts[k + 1];
      ApartIsJoined(ts[1..]);
      assert |ts| > 1 ==> !(ts[0].Word? && ts[0 + 1].Word?);
    }
  }

  /** The minified text has the same tokens, unless whitespace was all that kept two words apart. */
  lemma TokensKept(t: string)
    requires Lex(t).Some? && WordsApart(Lex(t).value, 0, |Lex(t).value|)
    ensures Lex(Minified(t, START)) == Lex(t)
  {
    TokensJoined(t);
    ApartIsJoined(Lex(t).value);
  }

  /** Any text at all then denotes what its joined tokens do. */
  lemma MinifiedValue(t: string)
    ensures Parse(Minified(t, START)) == if Lex(t).None? then None else ParseTokens(Joined(Lex(t).value))
  {
    TokensJoined(t);
  }

  /** Every JSON text keeps its value: numbers their lexemes, strings every character. */
  lemma MinifyPreservesMeaning(t: string)
    requires Parse(t).Some?
    ensures Parse(Minified(t, START)) == Parse(t)
  {
    ParseNeedsWordsApart(t);
    TokensKept(t);
  }

  /** A text that is not JSON stays rejected exactly when a string in it is not closed or its joined tokens
      are no JSON either, as they are when no two words have only whitespace between them. */
  lemma RejectedStaysRejected(t: string)
    requires Parse(t).None?
    ensures Parse(Minified(t, START)).None? <==> Lex(t).None? || ParseTokens(Joined(Lex(t).value)).None?
    ensures Lex(t).Some? && WordsApart(Lex(t).value, 0, |Lex(t).value|) ==> Parse(Minified(t, START)).None?
  {
    MinifiedValue(t);
    if Lex(t).Some? && WordsApart(Lex(t).value, 0, |Lex(t).value|) {
      TokensKept(t);
    }
  }

  /** Two words with whitespace between them are no JSON text, but one word once minified, which is a JSON text
      when their concatenation is a scalar, as `1 2` becomes the number `12`. */
  lemma WhitespaceCanHoldWordsApart(a: string, b: string, c: char)
    requires IsWord(a) && IsWord(b) && IsWhitespace(c)
    ensures Parse(a + [c] + b).None?
    ensures Parse(Minified(a + [c] + b, START)) == ScalarValue(a + b)
  {
    LexTwoWords(a, b, c);
    MinifiedValue(a + [c] + b);
    JoinTwoWords(a, b);
    OneWordValue(a + b);
  }

  lemma OneWordValue(w: string)
    ensures ParseTokens([Word(w)]) == ScalarValue(w)
  {
  }

  lemma JoinTwoWords(a: string, b: string)
    ensures Joined([Word(a), Word(b)]) == [Word(a + b)]
  {
    assert [Word(a), Word(b)][1..] == [Word(b)];
    assert Joined([Word(b)]) == [Word(b)];
  }

  lemma LexOneWord(w: string)
    requires IsWord(w)
    ensures Lex(w) == Some([Word(w)])
  {
    LexBehindWord(w, []);
    assert w + [] == w && [Word(w)] + [] == [Word(w)];
  }

  lemma LexTwoWords(a: string, b: string, c: char)
    requires IsWord(a) && IsWord(b) && IsWhitespace(c)
    ensures Lex(a + [c] + b) == Some([Word(a), Word(b)])
  {
    LexOneWord(b);
    var u := [c] + b;
    assert u[1..] == b && Lex(u) == Lex(b);
    WordLengthAppend(a, u);
    assert (a + u)[..|a|] == a && (a + u)[|a|..] == u && (a + u)[0] == a[0];
    assert a + [c] + b == a + u && [Word(a)] + [Word(b)] == [Word(a), Word(b)];
  }
}
