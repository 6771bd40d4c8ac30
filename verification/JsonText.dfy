/** JSON texts as RFC 8259 (sections 2 to 7) defines them: a lexer, a parser over tokens, and the value a
    text denotes.  A number keeps its lexeme, a string is decoded to code points with its escapes resolved,
    an object keeps its members in order. */
module JsonText {
  import opened Common

  datatype Json =
    | Null
    | Bool(b: bool)
    | Number(lexeme: string)
    | String(points: seq<int>)
    | Array(items: seq<Json>)
    | Object(members: seq<(seq<int>, Json)>)

  /** `Word` is a maximal run of characters that are neither whitespace, structural nor a quotation mark:
      a number, a literal name, or something invalid. `Quoted` holds the raw characters between the marks. */
  datatype Token =
    | Punct(c: char)
    | Quoted(body: string)
    | Word(lexeme: string)

  predicate IsWhitespace(c: char) {
    c == ' ' || c == '\t' || c == '\r' || c == '\n'
  }

  predicate IsPunct(c: char) {
    c == '{' || c == '}' || c == '[' || c == ']' || c == ':' || c == ','
  }

  predicate IsWordChar(c: char) {
    !IsWhitespace(c) && !IsPunct(c) && c != '"'
  }

  /** Length of the string body that starts at the head of `t`, up to its closing quotation mark. */
  function BodyLength(t: string, escaped: bool): (n: Option<nat>)
    ensures n.Some? ==> n.value < |t| && t[n.value] == '"'
  {
    if t == [] then None
    else if !escaped && t[0] == '"' then Some(0)
    else
      match BodyLength(t[1..], !escaped && t[0] == '\\')
      case None => None
      case Some(k) => Some(k + 1)
  }

  function WordLength(t: string): (n: nat)
    ensures n <= |t|
    ensures forall k :: 0 <= k < n ==> IsWordChar(t[k])
    ensures n < |t| ==> !IsWordChar(t[n])
  {
    if t == [] || !IsWordChar(t[0]) then 0 else 1 + WordLength(t[1..])
  }

  function Push<T>(x: T, xs: Option<seq<T>>): Option<seq<T>> {
    if xs.None? then None else Some([x] + xs.value)
  }

  /** The tokens of a text; `None` when a string is not closed. */
  function Lex(t: string): Option<seq<Token>>
    decreases |t|
  {
    if t == [] then Some([])
    else if IsWhitespace(t[0]) then Lex(t[1..])
    else if IsPunct(t[0]) then Push(Punct(t[0]), Lex(t[1..]))
    else if t[0] == '"' then
      var n := BodyLength(t[1..], false);
      if n.None? then None else Push(Quoted(t[1..][..n.value]), Lex(t[1..][n.value + 1..]))
    else
      var n := WordLength(t);
      Push(Word(t[..n]), Lex(t[n..]))
  }

  // ----- scalars

  function DigitsEnd(s: string, i: nat): (j: nat)
    requires i <= |s|
    ensures i <= j <= |s|
    decreases |s| - i
  {
    if i < |s| && IsDigit(s[i]) then DigitsEnd(s, i + 1) else i
  }

  /** `[ "-" ] int [ frac ] [ exp ]` of section 6. */
  predicate IsNumber(s: string) {
    var i := if |s| > 0 && s[0] == '-' then 1 else 0;
    var j := DigitsEnd(s, i);
    var k := if j < |s| && s[j] == '.' then DigitsEnd(s, j + 1) else j;
    var e := k < |s| && (s[k] == 'e' || s[k] == 'E');
    var x := if e && k + 1 < |s| && (s[k + 1] == '+' || s[k + 1] == '-') then k + 2
             else if e then k + 1 else k;
    var l := if e then DigitsEnd(s, x) else k;
    && i < j && (s[i] == '0' ==> j == i + 1)
    && (k != j ==> k > j + 1)
    && (e ==> l > x)
    && l == |s|
  }

  function ScalarValue(lexeme: string): Option<Json> {
    if lexeme == "null" then Some(Null)
    else if lexeme == "true" then Some(Bool(true))
    else if lexeme == "false" then Some(Bool(false))
    else if IsNumber(lexeme) then Some(Number(lexeme))
    else None
  }

  function HexDigit(c: char): Option<int> {
    if IsDigit(c) then Some(c as int - '0' as int)
    else if 'a' <= c <= 'f' then Some(c as int - 'a' as int + 10)
    else if 'A' <= c <= 'F' then Some(c as int - 'A' as int + 10)
    else None
  }

  function Hex4(s: string): Option<int>
    requires |s| == 4
  {
    var a, b, c, d := HexDigit(s[0]), HexDigit(s[1]), HexDigit(s[2]), HexDigit(s[3]);
    if a.Some? && b.Some? && c.Some? && d.Some?
    then Some(((a.value * 16 + b.value) * 16 + c.value) * 16 + d.value)
    else None
  }

  function SimpleEscape(c: char): Option<int> {
    if c == '"' || c == '\\' || c == '/' then Some(c as int)
    else if c == 'b' then Some(8)
    else if c == 'f' then Some(12)
    else if c == 'n' then Some(10)
    else if c == 'r' then Some(13)
    else if c == 't' then Some(9)
    else None
  }

  /** Code points of a string body before surrogate pairs are joined; `None` for a control character
      or an unknown escape. */
  function Unescape(body: string): Option<seq<int>>
    decreases |body|
  {
    if body == [] then Some([])
    else if body[0] == '\\' then
      if |body| < 2 then None
      else if body[1] == 'u' then
        if |body| < 6 || Hex4(body[2..6]).None? then None
        else Push(Hex4(body[2..6]).value, Unescape(body[6..]))
      else if SimpleEscape(body[1]).None? then None
      else Push(SimpleEscape(body[1]).value, Unescape(body[2..]))
    else if body[0] < ' ' then None
    else Push(body[0] as int, Unescape(body[1..]))
  }

  function JoinSurrogates(units: seq<int>): seq<int> {
    if |units| >= 2 && 0xD800 <= units[0] < 0xDC00 && 0xDC00 <= units[1] < 0xE000 then
      [0x10000 + (units[0] - 0xD800) * 0x400 + (units[1] - 0xDC00)] + JoinSurrogates(units[2..])
    else if units == [] then []
    else [units[0]] + JoinSurrogates(units[1..])
  }

  function StringValue(body: string): Option<seq<int>> {
    var units := Unescape(body);
    if units.None? then None else Some(JoinSurrogates(units.value))
  }

  // ----- grammar

  /** A parsed piece and the index of the first token after it. */
  datatype Parsed<+T> = Parsed(value: T, next: nat)

  predicate At(ts: seq<Token>, i: nat, c: char) {
    i < |ts| && ts[i] == Punct(c)
  }

  function ParseValue(ts: seq<Token>, i: nat): (r: Option<Parsed<Json>>)
    ensures r.Some? ==> i < r.value.next <= |ts|
    decreases |ts| - i, 0
  {
    if i >= |ts| then None
    else
      match ts[i]
      case Word(lexeme) =>
        var v := ScalarValue(lexeme);
        if v.None? then None else Some(Parsed(v.value, i + 1))
      case Quoted(body) =>
        var s := StringValue(body);
        if s.None? then None else Some(Parsed(String(s.value), i + 1))
      case Punct(c) =>
        if c == '[' then
          if At(ts, i + 1, ']') then Some(Parsed(Array([]), i + 2))
          else
            var r := ParseItems(ts, i + 1);
            if r.None? then None else Some(Parsed(Array(r.value.value), r.value.next))
        else if c == '{' then
          if At(ts, i + 1, '}') then Some(Parsed(Object([]), i + 2))
          else
            var r := ParseMembers(ts, i + 1);
            if r.None? then None else Some(Parsed(Object(r.value.value), r.value.next))
        else None
  }

  /** `value *( "," value ) "]"` */
  function ParseItems(ts: seq<Token>, i: nat): (r: Option<Parsed<seq<Json>>>)
    ensures r.Some? ==> i < r.value.next <= |ts|
    decreases |ts| - i, 1
  {
    var head := ParseValue(ts, i);
    if head.None? then None
    else
      var j := head.value.next;
      if At(ts, j, ']') then Some(Parsed([head.value.value], j + 1))
      else if At(ts, j, ',') then
        var tail := ParseItems(ts, j + 1);
        if tail.None? then None else Some(Parsed([head.value.value] + tail.value.value, tail.value.next))
      else None
  }

  /** `string ":" value *( "," string ":" value ) "}"` */
  function ParseMembers(ts: seq<Token>, i: nat): (r: Option<Parsed<seq<(seq<int>, Json)>>>)
    ensures r.Some? ==> i < r.value.next <= |ts|
    decreases |ts| - i, 1
  {
    if i >= |ts| || !ts[i].Quoted? || StringValue(ts[i].body).None? || !At(ts, i + 1, ':') then None
    else
      var head := ParseValue(ts, i + 2);
      if head.None? then None
      else
        var j, m := head.value.next, (StringValue(ts[i].body).value, head.value.value);
        if At(ts, j, '}') then Some(Parsed([m], j + 1))
        else if At(ts, j, ',') then
          var tail := ParseMembers(ts, j + 1);
          if tail.None? then None else Some(Parsed([m] + tail.value.value, tail.value.next))
        else None
  }

  /** The value of a whole token list. */
  function ParseTokens(ts: seq<Token>): Option<Json> {
    var r := ParseValue(ts, 0);
    if r.Some? && r.value.next == |ts| then Some(r.value.value) else None
  }

  /** The value a text denotes; `None` when it is not a JSON text. */
  function Parse(t: string): Option<Json> {
    if Lex(t).None? then None else ParseTokens(Lex(t).value)
  }

  // ----- no JSON text has two words side by side

  ghost predicate WordsApart(ts: seq<Token>, lo: int, hi: int)
    requires 0 <= lo && hi <= |ts|
  {
    forall k {:trigger ts[k]} :: lo <= k < hi - 1 ==> !(ts[k].Word? && ts[k + 1].Word?)
  }

  lemma {:induction false} ValueWordsApart(ts: seq<Token>, i: nat)
    requires ParseValue(ts, i).Some?
    ensures WordsApart(ts, i, ParseValue(ts, i).value.next)
    decreases |ts| - i, 0
  {
    if ts[i] == Punct('[') && !At(ts, i + 1, ']') {
      ItemsWordsApart(ts, i + 1);
    } else if ts[i] == Punct('{') && !At(ts, i + 1, '}') {
      MembersWordsApart(ts, i + 1);
    }
  }

  /** A token that is no word keeps what is before it and what is behind it apart. */
  lemma ApartAcross(ts: seq<Token>, lo: nat, mid: nat, hi: nat)
    requires lo <= mid < hi <= |ts| && !ts[mid].Word?
    requires WordsApart(ts, lo, mid) && WordsApart(ts, mid + 1, hi)
    ensures WordsApart(ts, lo, hi)
  {
  }

  lemma {:induction false} ItemsWordsApart(ts: seq<Token>, i: nat)
    requires ParseItems(ts, i).Some?
    ensures WordsApart(ts, i, ParseItems(ts, i).value.next)
    decreases |ts| - i, 1
  {
    ValueWordsApart(ts, i);
    var j := ParseValue(ts, i).value.next;
    if !At(ts, j, ']') {
      ItemsWordsApart(ts, j + 1);
    }
    ApartAcross(ts, i, j, ParseItems(ts, i).value.next);
  }

  lemma {:induction false} MembersWordsApart(ts: seq<Token>, i: nat)
    requires ParseMembers(ts, i).Some?
    ensures WordsApart(ts, i, ParseMembers(ts, i).value.next)
    decreases |ts| - i, 1
  {
    ValueWordsApart(ts, i + 2);
    var j, next := ParseValue(ts, i + 2).value.next, ParseMembers(ts, i).value.next;
    if !At(ts, j, '}') {
      MembersWordsApart(ts, j + 1);
    }
    ApartAcross(ts, i + 2, j, next);
    ApartAcross(ts, i, i + 1, next);
  }

  lemma ParseNeedsWordsApart(t: string)
    requires Parse(t).Some?
    ensures WordsApart(Lex(t).value, 0, |Lex(t).value|)
  {
    ValueWordsApart(Lex(t).value, 0);
  }
}
