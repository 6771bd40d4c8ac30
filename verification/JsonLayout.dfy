/** JSON texts from the grammar's side: trees written as tokens, tokens laid out with whitespace between them. What
    is laid out parses as the tree it was written from, and minifying it leaves the tokens and nothing else. */
module JsonLayout {
  import opened Common
  import opened JsonText
  import opened Minifier

  // ----- laying out tokens

  /** The characters of a string: any but the quotation mark and the backslash, or a backslash and another one. */
  predicate IsBody(s: string) {
    if s == "" then true
    else if s[0] == '\\' then |s| > 1 && IsBody(s[2..])
    else s[0] != '"' && IsBody(s[1..])
  }

  lemma {:induction false} BodyIsClosed(s: string)
    requires IsBody(s)
    ensures BodyLength(s + "\"", false) == Some(|s|)
  {
    var t := s + "\"";
    if s != "" && s[0] == '\\' {
      BodyIsClosed(s[2..]);
      assert t[1..][1..] == s[2..] + "\"";
    } else if s != "" {
      BodyIsClosed(s[1..]);
      assert t[1..] == s[1..] + "\"";
    }
  }

  predicate IsToken(t: Token) {
    match t
    case Word(lexeme) => IsWord(lexeme)
    case Quoted(body) => IsBody(body)
    case Punct(c) => IsPunct(c)
  }

  function TokenText(t: Token): string {
    match t
    case Word(lexeme) => lexeme
    case Quoted(body) => "\"" + body + "\""
    case Punct(c) => [c]
  }

  /** `ws` of RFC 8259, section 2. */
  predicate IsGap(g: string) {
    forall c :: c in g ==> c == ' ' || c == '\t' || c == '\n' || c == '\r'
  }

  /** The tokens with a gap before each and one behind the last. */
  function Laid(ts: seq<Token>, gaps: seq<string>): string
    requires |gaps| == |ts| + 1
  {
    if ts == [] then gaps[0] else gaps[0] + (TokenText(ts[0]) + Laid(ts[1..], gaps[1..]))
  }

  function Compact(ts: seq<Token>): string {
    if ts == [] then "" else TokenText(ts[0]) + Compact(ts[1..])
  }

  ghost predicate Layout(ts: seq<Token>, gaps: seq<string>) {
    && |gaps| == |ts| + 1
    && (forall t :: t in ts ==> IsToken(t))
    && (forall g :: g in gaps ==> IsGap(g))
  }

  lemma LayoutTail(ts: seq<Token>, gaps: seq<string>)
    requires Layout(ts, gaps) && ts != []
    ensures IsToken(ts[0]) && IsGap(gaps[0]) && Layout(ts[1..], gaps[1..])
  {
    assert ts[0] in ts && gaps[0] in gaps;
  }

  // ----- minifying what is laid out

  lemma {:induction false} GapIsDropped(g: string, rest: string)
    requires IsGap(g)
    ensures Minified(g + rest, START) == Minified(rest, START)
  {
    if g == "" {
      assert g + rest == rest;
    } else {
      assert g[0] in g && (forall c :: c in g[1..] ==> c in g) && (g + rest)[1..] == g[1..] + rest;
      GapIsDropped(g[1..], rest);
    }
  }

  lemma TokenIsCopied(t: Token, rest: string)
    requires IsToken(t)
    ensures Minified(TokenText(t) + rest, START) == TokenText(t) + Minified(rest, START)
  {
    match t
    case Punct(c) =>
      assert ([c] + rest)[1..] == rest;
    case Word(lexeme) =>
      WordIsCopied(lexeme + rest, |lexeme|);
      assert (lexeme + rest)[..|lexeme|] == lexeme && (lexeme + rest)[|lexeme|..] == rest;
    case Quoted(body) =>
      QuotedIsCopied(body, rest);
  }

  lemma QuotedIsCopied(body: string, rest: string)
    requires IsBody(body)
    ensures Minified("\"" + body + "\"" + rest, START) == "\"" + body + "\"" + Minified(rest, START)
  {
    var closed := body + "\"";
    var s := closed + rest;
    ClosedThere(body, rest);
    StringIsCopied(s, false);
    assert s[..|body| + 1] == closed && s[|body| + 1..] == rest;
    assert "\"" + body + "\"" + rest == "\"" + s && ("\"" + s)[1..] == s;
    assert "\"" + (closed + Minified(rest, START)) == "\"" + body + "\"" + Minified(rest, START);
  }

  lemma ClosedThere(body: string, rest: string)
    requires IsBody(body)
    ensures BodyLength(body + "\"" + rest, false) == Some(|body|)
  {
    var closed := body + "\"";
    BodyIsClosed(body);
    assert closed[..|body| + 1] == closed;
    BodyLengthLocal(closed, closed + rest, false);
  }

  /** Minifying leaves the tokens, one right behind the other. */
  lemma {:induction false} MinifiedIsCompact(ts: seq<Token>, gaps: seq<string>)
    requires Layout(ts, gaps)
    ensures Minified(Laid(ts, gaps), START) == Compact(ts)
  {
    if ts == [] {
      assert gaps[0] in gaps && gaps[0] + "" == gaps[0];
      GapIsDropped(gaps[0], "");
    } else {
      LayoutTail(ts, gaps);
      MinifiedIsCompact(ts[1..], gaps[1..]);
      var rest := Laid(ts[1..], gaps[1..]);
      GapIsDropped(gaps[0], TokenText(ts[0]) + rest);
      TokenIsCopied(ts[0], rest);
    }
  }

  // ----- every text with its strings closed is laid out

  lemma {:induction false} ClosedIsBody(t: string)
    requires BodyLength(t, false).Some?
    ensures IsBody(t[..BodyLength(t, false).value])
    decreases |t|
  {
    var n := BodyLength(t, false).value;
    if t[0] == '\\' {
      ClosedIsBody(t[1..][1..]);
      assert t[1..][1..] == t[2..] && t[..n][2..] == t[2..][..n - 2];
    } else if t[0] != '"' {
      ClosedIsBody(t[1..]);
      assert t[..n][1..] == t[1..][..n - 1];
    }
  }

  lemma FirstLaid(x: Token, ts: seq<Token>, gaps: seq<string>)
    requires Layout(ts, gaps) && IsToken(x)
    ensures Layout([x] + ts, [""] + gaps)
    ensures Laid([x] + ts, [""] + gaps) == TokenText(x) + Laid(ts, gaps)
  {
    assert ([x] + ts)[1..] == ts && ([""] + gaps)[1..] == gaps;
    assert "" + (TokenText(x) + Laid(ts, gaps)) == TokenText(x) + Laid(ts, gaps);
  }

  lemma GapGrows(c: char, ts: seq<Token>, gaps: seq<string>, grown: seq<string>)
    requires Layout(ts, gaps) && IsGap([c]) && grown == [[c] + gaps[0]] + gaps[1..]
    ensures Layout(ts, grown) && Laid(ts, grown) == [c] + Laid(ts, gaps)
  {
    assert gaps[0] in gaps && grown[1..] == gaps[1..];
    forall g | g in grown ensures IsGap(g) {
      assert g == [c] + gaps[0] || g in gaps;
      assert c in [c];
    }
    if ts != [] {
      var rest := TokenText(ts[0]) + Laid(ts[1..], gaps[1..]);
      assert [c] + gaps[0] + rest == [c] + (gaps[0] + rest);
    }
  }

  /** A text is its tokens with gaps between them. */
  lemma {:induction false} LexedIsLaid(t: string) returns (gaps: seq<string>)
    requires Lex(t).Some?
    ensures Layout(Lex(t).value, gaps) && Laid(Lex(t).value, gaps) == t
    decreases |t|
  {
    var ts := Lex(t).value;
    if t == "" {
      gaps := [""];
    } else if IsWhitespace(t[0]) {
      var later := LexedIsLaid(t[1..]);
      gaps := [[t[0]] + later[0]] + later[1..];
      GapGrows(t[0], ts, later, gaps);
      assert t == [t[0]] + t[1..];
    } else {
      var x, rest := FirstToken(t);
      var later := LexedIsLaid(rest);
      FirstLaid(x, Lex(rest).value, later);
      gaps := [""] + later;
    }
  }

  lemma QuotedFirst(t: string, n: nat)
    requires n + 1 < |t| && t[0] == t[n + 1] == '"'
    ensures t == "\"" + t[1..][..n] + "\"" + t[1..][n + 1..]
  {
  }

  lemma FirstToken(t: string) returns (x: Token, rest: string)
    requires Lex(t).Some? && t != "" && !IsWhitespace(t[0])
    ensures IsToken(x) && t == TokenText(x) + rest && |rest| < |t|
    ensures Lex(t) == Push(x, Lex(rest)) && Lex(rest).Some?
  {
    if IsPunct(t[0]) {
      x, rest := Punct(t[0]), t[1..];
    } else if t[0] == '"' {
      var n := BodyLength(t[1..], false).value;
      ClosedIsBody(t[1..]);
      x, rest := Quoted(t[1..][..n]), t[1..][n + 1..];
      QuotedFirst(t, n);
    } else {
      var n := WordLength(t);
      x, rest := Word(t[..n]), t[n..];
      assert n > 0;
    }
  }

  /** Minifying a text in which every string is closed takes out the gaps and nothing else. */
  lemma MinifyDropsGaps(t: string) returns (gaps: seq<string>)
    requires Lex(t).Some?
    ensures Layout(Lex(t).value, gaps) && Laid(Lex(t).value, gaps) == t
    ensures Minified(t, START) == Compact(Lex(t).value)
  {
    gaps := LexedIsLaid(t);
    MinifiedIsCompact(Lex(t).value, gaps);
  }

  // ----- lexing what is laid out

  /** Between two words there is whitespace. */
  predicate Spaced(ts: seq<Token>, gaps: seq<string>)
    requires |gaps| == |ts| + 1
  {
    forall i :: 0 < i < |ts| && ts[i - 1].Word? && ts[i].Word? ==> gaps[i] != ""
  }

  lemma {:induction false} GapIsSkipped(g: string, rest: string)
    requires IsGap(g)
    ensures Lex(g + rest) == Lex(rest)
  {
    if g == "" {
      assert g + rest == rest;
    } else {
      assert g[0] in g && (forall c :: c in g[1..] ==> c in g) && (g + rest)[1..] == g[1..] + rest;
      GapIsSkipped(g[1..], rest);
    }
  }

  lemma TokenIsRead(t: Token, rest: string)
    requires IsToken(t) && (t.Word? ==> rest == "" || !IsWordChar(rest[0]))
    ensures Lex(TokenText(t) + rest) == Push(t, Lex(rest))
  {
    match t
    case Punct(c) => PunctIsRead(c, rest);
    case Word(lexeme) => WordIsRead(lexeme, rest);
    case Quoted(body) => QuotedIsRead(body, rest);
  }

  lemma PunctIsRead(c: char, rest: string)
    requires IsPunct(c)
    ensures Lex([c] + rest) == Push(Punct(c), Lex(rest))
  {
    assert ([c] + rest)[1..] == rest;
  }

  lemma WordIsRead(lexeme: string, rest: string)
    requires IsWord(lexeme) && (rest == "" || !IsWordChar(rest[0]))
    ensures Lex(lexeme + rest) == Push(Word(lexeme), Lex(rest))
  {
    WordLengthAppend(lexeme, rest);
    var s := lexeme + rest;
    assert s[..|lexeme|] == lexeme && s[|lexeme|..] == rest && s[0] == lexeme[0];
  }

  lemma QuotedIsRead(body: string, rest: string)
    requires IsBody(body)
    ensures Lex("\"" + body + "\"" + rest) == Push(Quoted(body), Lex(rest))
  {
    ClosedThere(body, rest);
    var s, tail := "\"" + body + "\"" + rest, body + "\"" + rest;
    assert s[1..] == tail;
    assert tail[..|body|] == body && tail[|body| + 1..] == rest;
  }

  lemma NoWordAhead(ts: seq<Token>, gaps: seq<string>)
    requires Layout(ts, gaps) && (gaps[0] == "" ==> ts == [] || !ts[0].Word?)
    ensures var s := Laid(ts, gaps); s == "" || !IsWordChar(s[0])
  {
    assert gaps[0] in gaps;
    if gaps[0] != "" {
      assert gaps[0][0] in gaps[0] && Laid(ts, gaps)[0] == gaps[0][0];
    } else if ts != [] {
      assert ts[0] in ts && Laid(ts, gaps) == TokenText(ts[0]) + Laid(ts[1..], gaps[1..]);
      assert Laid(ts, gaps)[0] == TokenText(ts[0])[0];
    }
  }

  lemma {:induction false} LaidIsRead(ts: seq<Token>, gaps: seq<string>)
    requires Layout(ts, gaps) && Spaced(ts, gaps)
    ensures Lex(Laid(ts, gaps)) == Some(ts)
  {
    if ts == [] {
      assert gaps[0] in gaps && gaps[0] + "" == gaps[0];
      GapIsSkipped(gaps[0], "");
    } else {
      LayoutTail(ts, gaps);
      SpacedTail(ts, gaps);
      LaidIsRead(ts[1..], gaps[1..]);
      if ts[0].Word? {
        NoWordAhead(ts[1..], gaps[1..]);
      }
      GapAndToken(gaps[0], ts[0], Laid(ts[1..], gaps[1..]));
      HeadAndTail(ts);
    }
  }

  lemma GapAndToken(g: string, t: Token, rest: string)
    requires IsGap(g) && IsToken(t) && (t.Word? ==> rest == "" || !IsWordChar(rest[0]))
    ensures Lex(g + (TokenText(t) + rest)) == Push(t, Lex(rest))
  {
    GapIsSkipped(g, TokenText(t) + rest);
    TokenIsRead(t, rest);
  }

  lemma HeadAndTail<T>(s: seq<T>)
    requires s != []
    ensures [s[0]] + s[1..] == s
  {
  }

  lemma SpacedTail(ts: seq<Token>, gaps: seq<string>)
    requires |gaps| == |ts| + 1 && Spaced(ts, gaps) && ts != []
    ensures Spaced(ts[1..], gaps[1..])
    ensures ts[0].Word? && gaps[1..][0] == "" ==> ts[1..] == [] || !ts[1..][0].Word?
  {
    forall i | 0 < i < |ts[1..]| && ts[1..][i - 1].Word? && ts[1..][i].Word? ensures gaps[1..][i] != "" {
      assert ts[i].Word? && ts[i + 1].Word? && gaps[i + 1] != "";
    }
    if |ts| > 1 {
      assert ts[1 - 1] == ts[0] && gaps[1..][0] == gaps[1];
    }
  }

  // ----- trees and their tokens

  datatype Tree = Scalar(lexeme: string) | Text(body: string) | List(items: Items) | Table(members: Members)

  datatype Items = NoItem | Item(head: Tree, tail: Items)

  datatype Members = NoMember | Member(name: string, value: Tree, tail: Members)

  function TreeTokens(t: Tree): seq<Token> {
    match t
    case Scalar(lexeme) => [Word(lexeme)]
    case Text(body) => [Quoted(body)]
    case List(items) => [Punct('[')] + ItemTokens(items)
    case Table(members) => [Punct('{')] + MemberTokens(members)
  }

  /** The rest of an array, its closing bracket included. */
  function ItemTokens(items: Items): seq<Token> {
    match items
    case NoItem => [Punct(']')]
    case Item(head, tail) => TreeTokens(head) + (Comma(tail.Item?) + ItemTokens(tail))
  }

  function MemberTokens(members: Members): seq<Token> {
    match members
    case NoMember => [Punct('}')]
    case Member(name, value, tail) =>
      [Quoted(name)] + ([Punct(':')] + (TreeTokens(value) + (Comma(tail.Member?) + MemberTokens(tail))))
  }

  function Comma(more: bool): seq<Token> {
    if more then [Punct(',')] else []
  }

  /** How many tokens there are. */
  function Size(t: Tree): nat {
    match t
    case Scalar(_) => 1
    case Text(_) => 1
    case List(items) => 1 + ItemsSize(items)
    case Table(members) => 1 + MembersSize(members)
  }

  function ItemsSize(items: Items): nat {
    match items
    case NoItem => 1
    case Item(head, tail) => Size(head) + (if tail.Item? then 1 else 0) + ItemsSize(tail)
  }

  function MembersSize(members: Members): nat {
    match members
    case NoMember => 1
    case Member(_, value, tail) => 2 + Size(value) + (if tail.Member? then 1 else 0) + MembersSize(tail)
  }

  lemma {:induction false} SizeIs(t: Tree)
    ensures |TreeTokens(t)| == Size(t)
  {
    match t
    case Scalar(_) =>
    case Text(_) =>
    case List(items) => ItemsSizeIs(items);
    case Table(members) => MembersSizeIs(members);
  }

  lemma {:induction false} ItemsSizeIs(items: Items)
    ensures |ItemTokens(items)| == ItemsSize(items)
  {
    if items.Item? {
      SizeIs(items.head);
      ItemsSizeIs(items.tail);
    }
  }

  lemma {:induction false} MembersSizeIs(members: Members)
    ensures |MemberTokens(members)| == MembersSize(members)
  {
    if members.Member? {
      SizeIs(members.value);
      MembersSizeIs(members.tail);
    }
  }

  /** The value a tree denotes, if its scalars and its strings denote one. */
  function Meaning(t: Tree): Option<Json> {
    match t
    case Scalar(lexeme) => ScalarValue(lexeme)
    case Text(body) => if StringValue(body).None? then None else Some(String(StringValue(body).value))
    case List(items) => if ItemsMeaning(items).None? then None else Some(Array(ItemsMeaning(items).value))
    case Table(members) => if MembersMeaning(members).None? then None else Some(Object(MembersMeaning(members).value))
  }

  function ItemsMeaning(items: Items): Option<seq<Json>> {
    match items
    case NoItem => Some([])
    case Item(head, tail) => if Meaning(head).None? then None else Push(Meaning(head).value, ItemsMeaning(tail))
  }

  function MembersMeaning(members: Members): Option<seq<(seq<int>, Json)>> {
    match members
    case NoMember => Some([])
    case Member(name, value, tail) =>
      if StringValue(name).None? || Meaning(value).None? then None
      else Push((StringValue(name).value, Meaning(value).value), MembersMeaning(tail))
  }

  /** From `i` on the token list goes on with `part`. */
  predicate Follows(ts: seq<Token>, i: nat, part: seq<Token>)
    decreases |part|
  {
    part == [] || (i < |ts| && ts[i] == part[0] && Follows(ts, i + 1, part[1..]))
  }

  lemma {:induction false} FollowsParts(ts: seq<Token>, i: nat, a: seq<Token>, b: seq<Token>)
    ensures Follows(ts, i, a + b) <==> Follows(ts, i, a) && Follows(ts, i + |a|, b)
    decreases |a|
  {
    if a == [] {
      assert a + b == b;
    } else {
      assert (a + b)[1..] == a[1..] + b;
      FollowsParts(ts, i + 1, a[1..], b);
    }
  }

  lemma FollowsOne(ts: seq<Token>, i: nat, t: Token)
    ensures Follows(ts, i, [t]) <==> i < |ts| && ts[i] == t
  {
    assert [t][1..] == [];
  }

  lemma {:induction false} FollowsItself(ts: seq<Token>, i: nat)
    requires i <= |ts|
    ensures Follows(ts, i, ts[i..])
    decreases |ts| - i
  {
    if i < |ts| {
      FollowsItself(ts, i + 1);
      assert ts[i..][1..] == ts[i + 1..];
    }
  }

  lemma {:induction false} TreeIsParsed(ts: seq<Token>, i: nat, t: Tree)
    requires Follows(ts, i, TreeTokens(t)) && Meaning(t).Some?
    ensures ParseValue(ts, i) == Some(Parsed(Meaning(t).value, i + Size(t)))
    ensures !At(ts, i, ']') && !At(ts, i, '}')
    decreases t
  {
    match t
    case Scalar(_) =>
      ScalarIsParsed(ts, i, t);
    case Text(_) =>
      ScalarIsParsed(ts, i, t);
    case List(items) =>
      ListFollows(ts, i, items);
      if items.Item? {
        ItemsAreParsed(ts, i + 1, items);
      }
      ListIsParsed(ts, i, items);
    case Table(members) =>
      TableFollows(ts, i, members);
      if members.Member? {
        MembersAreParsed(ts, i + 1, members);
      }
      TableIsParsed(ts, i, members);
  }

  lemma ScalarIsParsed(ts: seq<Token>, i: nat, t: Tree)
    requires (t.Scalar? || t.Text?) && Follows(ts, i, TreeTokens(t)) && Meaning(t).Some?
    ensures ParseValue(ts, i) == Some(Parsed(Meaning(t).value, i + Size(t)))
    ensures !At(ts, i, ']') && !At(ts, i, '}')
  {
    match t
    case Scalar(lexeme) =>
      FollowsOne(ts, i, Word(lexeme));
    case Text(body) =>
      FollowsOne(ts, i, Quoted(body));
  }

  lemma ListFollows(ts: seq<Token>, i: nat, items: Items)
    requires Follows(ts, i, TreeTokens(List(items)))
    ensures At(ts, i, '[') && Follows(ts, i + 1, ItemTokens(items)) && (items.NoItem? ==> At(ts, i + 1, ']'))
  {
    FollowsParts(ts, i, [Punct('[')], ItemTokens(items));
    FollowsOne(ts, i, Punct('['));
    FollowsOne(ts, i + 1, Punct(']'));
  }

  lemma TableFollows(ts: seq<Token>, i: nat, members: Members)
    requires Follows(ts, i, TreeTokens(Table(members)))
    ensures At(ts, i, '{') && Follows(ts, i + 1, MemberTokens(members)) && (members.NoMember? ==> At(ts, i + 1, '}'))
  {
    FollowsParts(ts, i, [Punct('{')], MemberTokens(members));
    FollowsOne(ts, i, Punct('{'));
    FollowsOne(ts, i + 1, Punct('}'));
  }

  lemma ListIsParsed(ts: seq<Token>, i: nat, items: Items)
    requires i < |ts| && ts[i] == Punct('[') && ItemsMeaning(items).Some?
    requires At(ts, i + 1, ']') <==> items.NoItem?
    requires items.Item? ==>
               ParseItems(ts, i + 1) == Some(Parsed(ItemsMeaning(items).value, i + 1 + ItemsSize(items)))
    ensures ParseValue(ts, i) == Some(Parsed(Array(ItemsMeaning(items).value), i + 1 + ItemsSize(items)))
  {
  }

  lemma TableIsParsed(ts: seq<Token>, i: nat, members: Members)
    requires i < |ts| && ts[i] == Punct('{') && MembersMeaning(members).Some?
    requires At(ts, i + 1, '}') <==> members.NoMember?
    requires members.Member? ==>
               ParseMembers(ts, i + 1) == Some(Parsed(MembersMeaning(members).value, i + 1 + MembersSize(members)))
    ensures ParseValue(ts, i) == Some(Parsed(Object(MembersMeaning(members).value), i + 1 + MembersSize(members)))
  {
  }

  lemma {:induction false} ItemsAreParsed(ts: seq<Token>, i: nat, items: Items)
    requires items.Item? && ItemsMeaning(items).Some? && Follows(ts, i, ItemTokens(items))
    ensures !At(ts, i, ']') && ParseItems(ts, i) == Some(Parsed(ItemsMeaning(items).value, i + ItemsSize(items)))
    decreases items
  {
    var j := i + Size(items.head);
    ItemFollows(ts, i, items);
    ItemMeans(items);
    TreeIsParsed(ts, i, items.head);
    if items.tail.Item? {
      ItemsAreParsed(ts, j + 1, items.tail);
    }
    ItemTogether(ts, i, j, items);
  }

  lemma ItemFollows(ts: seq<Token>, i: nat, items: Items)
    requires items.Item? && Follows(ts, i, ItemTokens(items))
    ensures Follows(ts, i, TreeTokens(items.head))
    ensures var j := i + Size(items.head);
            && (items.tail.Item? ==> At(ts, j, ',') && Follows(ts, j + 1, ItemTokens(items.tail)))
            && (items.tail.NoItem? ==> At(ts, j, ']'))
  {
    var head, tail, j := items.head, items.tail, i + Size(items.head);
    SizeIs(head);
    FollowsParts(ts, i, TreeTokens(head), Comma(tail.Item?) + ItemTokens(tail));
    FollowsParts(ts, j, Comma(tail.Item?), ItemTokens(tail));
    if tail.Item? {
      FollowsOne(ts, j, Punct(','));
    } else {
      FollowsOne(ts, j, Punct(']'));
    }
  }

  lemma ItemMeans(items: Items)
    requires items.Item? && ItemsMeaning(items).Some?
    ensures Meaning(items.head).Some? && ItemsMeaning(items.tail).Some?
    ensures ItemsMeaning(items).value == [Meaning(items.head).value] + ItemsMeaning(items.tail).value
  {
  }

  lemma ItemTogether(ts: seq<Token>, i: nat, j: nat, items: Items)
    requires items.Item? && ItemsMeaning(items).Some? && j == i + Size(items.head)
    requires Meaning(items.head).Some? && ParseValue(ts, i) == Some(Parsed(Meaning(items.head).value, j))
    requires items.tail.Item? ==>
               && At(ts, j, ',') && ItemsMeaning(items.tail).Some?
               && ParseItems(ts, j + 1) == Some(Parsed(ItemsMeaning(items.tail).value, j + 1 + ItemsSize(items.tail)))
    requires items.tail.NoItem? ==> At(ts, j, ']')
    ensures ParseItems(ts, i) == Some(Parsed(ItemsMeaning(items).value, i + ItemsSize(items)))
  {
    ItemMeans(items);
    var v, vs := Meaning(items.head).value, ItemsMeaning(items.tail).value;
    if items.tail.Item? {
      NextItem(ts, i, j, v, vs, j + 1 + ItemsSize(items.tail));
    } else {
      LastItem(ts, i, j, v, vs);
    }
  }

  lemma NextItem(ts: seq<Token>, i: nat, j: nat, v: Json, vs: seq<Json>, k: nat)
    requires ParseValue(ts, i) == Some(Parsed(v, j)) && At(ts, j, ',') && ParseItems(ts, j + 1) == Some(Parsed(vs, k))
    ensures ParseItems(ts, i) == Some(Parsed([v] + vs, k))
  {
  }

  lemma LastItem(ts: seq<Token>, i: nat, j: nat, v: Json, none: seq<Json>)
    requires ParseValue(ts, i) == Some(Parsed(v, j)) && At(ts, j, ']') && none == []
    ensures ParseItems(ts, i) == Some(Parsed([v] + none, j + 1))
  {
    assert [v] + none == [v];
  }

  lemma {:induction false} MembersAreParsed(ts: seq<Token>, i: nat, members: Members)
    requires members.Member? && MembersMeaning(members).Some? && Follows(ts, i, MemberTokens(members))
    ensures !At(ts, i, '}')
    ensures ParseMembers(ts, i) == Some(Parsed(MembersMeaning(members).value, i + MembersSize(members)))
    decreases members
  {
    var j := i + 2 + Size(members.value);
    MemberFollows(ts, i, members);
    MemberMeans(members);
    TreeIsParsed(ts, i + 2, members.value);
    if members.tail.Member? {
      MembersAreParsed(ts, j + 1, members.tail);
    }
    MemberTogether(ts, i, j, members);
  }

  lemma MemberFollows(ts: seq<Token>, i: nat, members: Members)
    requires members.Member? && Follows(ts, i, MemberTokens(members))
    ensures i + 1 < |ts| && ts[i] == Quoted(members.name) && ts[i + 1] == Punct(':')
    ensures Follows(ts, i + 2, TreeTokens(members.value))
    ensures var j := i + 2 + Size(members.value);
            && (members.tail.Member? ==> At(ts, j, ',') && Follows(ts, j + 1, MemberTokens(members.tail)))
            && (members.tail.NoMember? ==> At(ts, j, '}'))
  {
    var value, tail := members.value, members.tail;
    var rest := Comma(tail.Member?) + MemberTokens(tail);
    SizeIs(value);
    MemberStarts(ts, i, members.name, TreeTokens(value) + rest);
    FollowsParts(ts, i + 2, TreeTokens(value), rest);
    BehindMember(ts, i + 2 + Size(value), tail);
  }

  lemma MemberStarts(ts: seq<Token>, i: nat, name: string, rest: seq<Token>)
    requires Follows(ts, i, [Quoted(name)] + ([Punct(':')] + rest))
    ensures i + 1 < |ts| && ts[i] == Quoted(name) && ts[i + 1] == Punct(':') && Follows(ts, i + 2, rest)
  {
    FollowsParts(ts, i, [Quoted(name)], [Punct(':')] + rest);
    FollowsOne(ts, i, Quoted(name));
    FollowsParts(ts, i + 1, [Punct(':')], rest);
    FollowsOne(ts, i + 1, Punct(':'));
  }

  lemma BehindMember(ts: seq<Token>, j: nat, tail: Members)
    requires Follows(ts, j, Comma(tail.Member?) + MemberTokens(tail))
    ensures tail.Member? ==> At(ts, j, ',') && Follows(ts, j + 1, MemberTokens(tail))
    ensures tail.NoMember? ==> At(ts, j, '}')
  {
    FollowsParts(ts, j, Comma(tail.Member?), MemberTokens(tail));
    if tail.Member? {
      FollowsOne(ts, j, Punct(','));
    } else {
      FollowsOne(ts, j, Punct('}'));
    }
  }

  lemma MemberMeans(members: Members)
    requires members.Member? && MembersMeaning(members).Some?
    ensures StringValue(members.name).Some? && Meaning(members.value).Some? && MembersMeaning(members.tail).Some?
    ensures MembersMeaning(members).value
            == [(StringValue(members.name).value, Meaning(members.value).value)] + MembersMeaning(members.tail).value
  {
  }

  lemma MemberTogether(ts: seq<Token>, i: nat, j: nat, members: Members)
    requires members.Member? && MembersMeaning(members).Some? && j == i + 2 + Size(members.value)
    requires i + 1 < |ts| && ts[i] == Quoted(members.name) && ts[i + 1] == Punct(':')
    requires Meaning(members.value).Some? && ParseValue(ts, i + 2) == Some(Parsed(Meaning(members.value).value, j))
    requires members.tail.Member? ==>
               && At(ts, j, ',') && MembersMeaning(members.tail).Some?
               && ParseMembers(ts, j + 1)
                  == Some(Parsed(MembersMeaning(members.tail).value, j + 1 + MembersSize(members.tail)))
    requires members.tail.NoMember? ==> At(ts, j, '}')
    ensures ParseMembers(ts, i) == Some(Parsed(MembersMeaning(members).value, i + MembersSize(members)))
  {
    MemberMeans(members);
    var m, ms := (StringValue(members.name).value, Meaning(members.value).value), MembersMeaning(members.tail).value;
    if members.tail.Member? {
      NextMember(ts, i, j, m, ms, j + 1 + MembersSize(members.tail));
    } else {
      LastMember(ts, i, j, m, ms);
    }
  }

  lemma NextMember(ts: seq<Token>, i: nat, j: nat, m: (seq<int>, Json), ms: seq<(seq<int>, Json)>, k: nat)
    requires i + 1 < |ts| && ts[i].Quoted? && StringValue(ts[i].body) == Some(m.0) && At(ts, i + 1, ':')
    requires ParseValue(ts, i + 2) == Some(Parsed(m.1, j))
    requires At(ts, j, ',') && ParseMembers(ts, j + 1) == Some(Parsed(ms, k))
    ensures ParseMembers(ts, i) == Some(Parsed([m] + ms, k))
  {
  }

  lemma LastMember(ts: seq<Token>, i: nat, j: nat, m: (seq<int>, Json), none: seq<(seq<int>, Json)>)
    requires none == []
    requires i + 1 < |ts| && ts[i].Quoted? && StringValue(ts[i].body) == Some(m.0) && At(ts, i + 1, ':')
    requires ParseValue(ts, i + 2) == Some(Parsed(m.1, j)) && At(ts, j, '}')
    ensures ParseMembers(ts, i) == Some(Parsed([m] + none, j + 1))
  {
    assert [m] + none == [m];
  }

  /** A tree laid out with any whitespace denotes what the tree denotes, before minifying and after it; and what
      minifying leaves is the tokens of the tree, one right behind the other. */
  lemma LaidOutTree(t: Tree, gaps: seq<string>)
    requires Layout(TreeTokens(t), gaps) && Spaced(TreeTokens(t), gaps) && Meaning(t).Some?
    ensures Parse(Laid(TreeTokens(t), gaps)) == Meaning(t)
    ensures Minified(Laid(TreeTokens(t), gaps), START) == Compact(TreeTokens(t))
    ensures Parse(Compact(TreeTokens(t))) == Meaning(t)
  {
    var ts := TreeTokens(t);
    LaidIsRead(ts, gaps);
    FollowsItself(ts, 0);
    assert ts[0..] == ts;
    TreeIsParsed(ts, 0, t);
    SizeIs(t);
    MinifiedIsCompact(ts, gaps);
    MinifyPreservesMeaning(Laid(ts, gaps));
  }
}
