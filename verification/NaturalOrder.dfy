/** `CompareDigitRuns` and `NaturalLess` of utils/astl_utils.hpp.  A character is its code, an integer, so
    that the results hold whether the platform's `char` is signed or not. */
module NaturalOrder {
  type Text = seq<int>

  const ZERO := 48
  const NINE := 57

  predicate IsDigit(c: int) { ZERO <= c <= NINE }

  predicate AllDigits(s: Text) {
    forall k :: 0 <= k < |s| ==> IsDigit(s[k])
  }

  /** End of the digit run that starts at `i`. */
  function RunEnd(s: Text, i: nat): (j: nat)
    requires i <= |s|
    ensures i <= j <= |s| && AllDigits(s[i..j])
    ensures j < |s| ==> !IsDigit(s[j])
    decreases |s| - i
  {
    if i < |s| && IsDigit(s[i]) then
      var j := RunEnd(s, i + 1);
      assert forall k :: i < k < j ==> s[k] == s[i + 1..j][k - i - 1];
      j
    else i
  }

  /** The number a digit run of any length denotes. */
  function Value(run: Text): (v: nat)
    requires AllDigits(run)
  {
    if run == [] then 0 else 10 * Value(run[..|run| - 1]) + run[|run| - 1] - ZERO
  }

  // ----- numeric value of digit runs

  predicate Stripped(run: Text) {
    AllDigits(run) && (run == [] || run[0] != ZERO)
  }

  lemma {:induction false} LeadingZeros(run: Text, z: nat)
    requires AllDigits(run) && z <= |run| && forall k :: 0 <= k < z ==> run[k] == ZERO
    ensures Value(run) == Value(run[z..])
    decreases |run|
  {
    var n := |run|;
    if z < n {
      LeadingZeros(run[..n - 1], z);
      assert run[z..][..n - 1 - z] == run[..n - 1][z..];
    } else if n > 0 {
      LeadingZeros(run[..n - 1], n - 1);
      assert run[..n - 1][n - 1..] == [];
    }
  }

  lemma {:induction false} StrippedIsPositive(run: Text)
    requires Stripped(run) && run != []
    ensures Value(run) > 0
    decreases |run|
  {
    if |run| > 1 {
      StrippedIsPositive(run[..|run| - 1]);
    }
  }

  lemma {:induction false} LongerIsLarger(a: Text, b: Text)
    requires Stripped(a) && Stripped(b) && |a| < |b|
    ensures Value(a) < Value(b)
    decreases |a|
  {
    if a == [] {
      StrippedIsPositive(b);
    } else {
      LongerIsLarger(a[..|a| - 1], b[..|b| - 1]);
    }
  }

  lemma {:induction false} FirstDifferenceDecides(a: Text, b: Text, k: nat)
    requires AllDigits(a) && AllDigits(b) && |a| == |b| && k < |a|
    requires a[..k] == b[..k] && a[k] < b[k]
    ensures Value(a) < Value(b)
    decreases |a|
  {
    var n := |a|;
    if k < n - 1 {
      assert a[..n - 1][..k] == a[..k] && b[..n - 1][..k] == b[..k];
      FirstDifferenceDecides(a[..n - 1], b[..n - 1], k);
    }
  }

  /** `string_view::compare` on texts of one length. */
  method CompareText(a: Text, b: Text) returns (c: int)
    requires AllDigits(a) && AllDigits(b) && |a| == |b|
    ensures c < 0 <==> Value(a) < Value(b)
    ensures c == 0 <==> a == b
    ensures c > 0 <==> Value(a) > Value(b)
  {
    for k := 0 to |a|
      invariant a[..k] == b[..k]
    {
      if a[k] < b[k] {
        FirstDifferenceDecides(a, b, k);
        return -1;
      } else if a[k] > b[k] {
        FirstDifferenceDecides(b, a, k);
        return 1;
      }
    }
    assert a == a[..|a|] == b[..|b|] == b;
    return 0;
  }

  /** End of the zeros that start at `i`. */
  function ZerosEnd(s: Text, i: nat): (j: nat)
    requires i <= |s|
    ensures i <= j <= RunEnd(s, i)
    ensures forall k :: i <= k < j ==> s[k] == ZERO
    ensures j < |s| ==> s[j] != ZERO
    ensures RunEnd(s, j) == RunEnd(s, i)
    decreases |s| - i
  {
    if i < |s| && s[i] == ZERO then ZerosEnd(s, i + 1) else i
  }

  /** The cursors come back as `left` and `right`: both stand just past their whole runs, and `cmp` has the
      sign of the difference of the two numbers. */
  method CompareDigitRuns(lhs: Text, leftIndex: nat, rhs: Text, rightIndex: nat)
    returns (cmp: int, left: nat, right: nat)
    requires leftIndex <= |lhs| && rightIndex <= |rhs|
    ensures left == RunEnd(lhs, leftIndex) && right == RunEnd(rhs, rightIndex)
    ensures var l, r := Value(lhs[leftIndex..left]), Value(rhs[rightIndex..right]);
            && (cmp < 0 <==> l < r) && (cmp == 0 <==> l == r) && (cmp > 0 <==> l > r)
  {
    var leftStart := leftIndex;
    while leftStart < |lhs| && lhs[leftStart] == ZERO
      invariant leftStart <= |lhs| && ZerosEnd(lhs, leftStart) == ZerosEnd(lhs, leftIndex)
    {
      leftStart := leftStart + 1;
    }
    var rightStart := rightIndex;
    while rightStart < |rhs| && rhs[rightStart] == ZERO
      invariant rightStart <= |rhs| && ZerosEnd(rhs, rightStart) == ZerosEnd(rhs, rightIndex)
    {
      rightStart := rightStart + 1;
    }
    var leftEnd := PastDigits(lhs, leftStart);
    var rightEnd := PastDigits(rhs, rightStart);
    left := PastDigits(lhs, leftIndex);
    right := PastDigits(rhs, rightIndex);
    StrippedRun(lhs, leftIndex);
    StrippedRun(rhs, rightIndex);
    var a, b := lhs[leftStart..leftEnd], rhs[rightStart..rightEnd];
    var leftLen, rightLen := leftEnd - leftStart, rightEnd - rightStart;
    if leftLen < rightLen {
      LongerIsLarger(a, b);
      return -1, left, right;
    } else if leftLen > rightLen {
      LongerIsLarger(b, a);
      return 1, left, right;
    }
    cmp := CompareText(a, b);
  }

  /** `while (i < size && is_digit(s[i])) ++i` */
  method PastDigits(s: Text, start: nat) returns (i: nat)
    requires start <= |s|
    ensures i == RunEnd(s, start)
  {
    i := start;
    while i < |s| && IsDigit(s[i])
      invariant i <= |s| && RunEnd(s, i) == RunEnd(s, start)
    {
      i := i + 1;
    }
  }

  lemma StrippedRun(s: Text, i: nat)
    requires i <= |s|
    ensures var z, e := ZerosEnd(s, i), RunEnd(s, i);
            Stripped(s[z..e]) && Value(s[z..e]) == Value(s[i..e])
  {
    var z, e := ZerosEnd(s, i), RunEnd(s, i);
    DropWithin(s, i, z, e);
    LeadingZeros(s[i..e], z - i);
  }

  lemma DropWithin(s: Text, i: nat, z: nat, e: nat)
    requires i <= z <= e <= |s|
    ensures s[i..e][z - i..] == s[z..e] && s[i..e][..z - i] == s[i..z]
  {
  }

  // ----- tokens and their order

  /** A maximal digit run is a number, any other character is itself. */
  datatype Token = Num(value: nat) | Other(code: int)

  predicate IsToken(t: Token) {
    t.Other? ==> !IsDigit(t.code)
  }

  function Tokens(s: Text): (ts: seq<Token>)
    ensures forall t :: t in ts ==> IsToken(t)
    decreases |s|
  {
    if s == [] then []
    else if IsDigit(s[0]) then
      var e := RunEnd(s, 0);
      [Num(Value(s[0..e]))] + Tokens(s[e..])
    else [Other(s[0])] + Tokens(s[1..])
  }

  /** A number sits where any digit sits among the characters. */
  predicate TokenLess(a: Token, b: Token) {
    match (a, b)
    case (Num(n), Num(m)) => n < m
    case (Other(c), Other(d)) => c < d
    case (Num(_), Other(d)) => NINE < d
    case (Other(c), Num(_)) => c < ZERO
  }

  /** Lexicographic order; the end of the text is least. */
  predicate TokensLess(a: seq<Token>, b: seq<Token>) {
    b != [] && (a == [] || TokenLess(a[0], b[0]) || (a[0] == b[0] && TokensLess(a[1..], b[1..])))
  }

  predicate Before(lhs: Text, rhs: Text) {
    TokensLess(Tokens(lhs), Tokens(rhs))
  }

  method NaturalLess(lhs: Text, rhs: Text) returns (r: bool)
    ensures r == Before(lhs, rhs)
  {
    var leftIndex: nat, rightIndex: nat := 0, 0;
    assert lhs[0..] == lhs && rhs[0..] == rhs;
    while leftIndex < |lhs| && rightIndex < |rhs|
      invariant leftIndex <= |lhs| && rightIndex <= |rhs|
      invariant Before(lhs, rhs) == Before(lhs[leftIndex..], rhs[rightIndex..])
      decreases |lhs| - leftIndex
    {
      var leftChar, rightChar := lhs[leftIndex], rhs[rightIndex];
      HeadToken(lhs, leftIndex);
      HeadToken(rhs, rightIndex);
      if IsDigit(leftChar) && IsDigit(rightChar) {
        var digitCmp, left, right := CompareDigitRuns(lhs, leftIndex, rhs, rightIndex);
        if digitCmp != 0 {
          return digitCmp < 0;
        }
        leftIndex, rightIndex := left, right;
        continue;
      }
      if leftChar != rightChar {
        return leftChar < rightChar;
      }
      leftIndex, rightIndex := leftIndex + 1, rightIndex + 1;
    }
    return leftIndex >= |lhs| && rightIndex < |rhs|;
  }

  lemma {:induction false} RunEndShift(s: Text, i: nat, k: nat)
    requires i <= k <= |s|
    ensures RunEnd(s[i..], k - i) == RunEnd(s, k) - i
    decreases |s| - k
  {
    if k < |s| && IsDigit(s[k]) {
      RunEndShift(s, i, k + 1);
    }
  }

  /** The first token from a cursor on, and the tokens after it. */
  lemma HeadToken(s: Text, i: nat)
    requires i < |s|
    ensures IsDigit(s[i]) ==>
              RunEnd(s, i) > i && Tokens(s[i..]) == [Num(Value(s[i..RunEnd(s, i)]))] + Tokens(s[RunEnd(s, i)..])
    ensures !IsDigit(s[i]) ==> Tokens(s[i..]) == [Other(s[i])] + Tokens(s[i + 1..])
  {
    if IsDigit(s[i]) {
      var e := RunEnd(s, i);
      RunEndShift(s, i, i);
      assert s[i..][0..e - i] == s[i..e] && s[i..][e - i..] == s[e..];
    } else {
      assert s[i..][1..] == s[i + 1..];
    }
  }

  // ----- strict weak ordering

  lemma {:induction false} TokensTransitive(a: seq<Token>, b: seq<Token>, c: seq<Token>)
    requires TokensLess(a, b) && TokensLess(b, c)
    requires forall t :: t in b ==> IsToken(t)
    ensures TokensLess(a, c)
  {
    if a != [] {
      assert b[0] in b;
      if a[0] == b[0] && b[0] == c[0] && !TokenLess(a[0], b[0]) && !TokenLess(b[0], c[0]) {
        TokensTransitive(a[1..], b[1..], c[1..]);
      }
    }
  }

  lemma {:induction false} TokensTrichotomy(a: seq<Token>, b: seq<Token>)
    requires forall t :: t in a + b ==> IsToken(t)
    ensures TokensLess(a, b) || TokensLess(b, a) || a == b
    ensures !(TokensLess(a, b) && TokensLess(b, a))
    ensures a == b ==> !TokensLess(a, b)
  {
    if a != [] && b != [] {
      assert a[0] in a + b && b[0] in a + b;
      assert forall t :: t in a[1..] + b[1..] ==> t in a + b;
      TokensTrichotomy(a[1..], b[1..]);
      assert a == [a[0]] + a[1..] && b == [b[0]] + b[1..];
    }
  }

  lemma TransitiveOrder(a: Text, b: Text, c: Text)
    requires Before(a, b) && Before(b, c)
    ensures Before(a, c)
  {
    TokensTransitive(Tokens(a), Tokens(b), Tokens(c));
  }

  /** Exactly one of less, equivalent and greater holds, and equivalent texts have the same tokens: with
      transitivity, a strict weak ordering. */
  lemma OrderTrichotomy(a: Text, b: Text)
    ensures !Before(a, a)
    ensures !(Before(a, b) && Before(b, a))
    ensures !Before(a, b) && !Before(b, a) <==> Tokens(a) == Tokens(b)
  {
    TokensTrichotomy(Tokens(a), Tokens(b));
    TokensTrichotomy(Tokens(a), Tokens(a));
  }

  // ----- equivalence is equality up to leading zeros

  /** The text with the leading zeros of every digit run removed; an all-zero run keeps one. */
  function WithoutLeadingZeros(s: Text): Text
    decreases |s|
  {
    if s == [] then []
    else if IsDigit(s[0]) then
      var e := RunEnd(s, 0);
      var z := ZerosEnd(s, 0);
      (if z < e then s[z..e] else [ZERO]) + WithoutLeadingZeros(s[e..])
    else [s[0]] + WithoutLeadingZeros(s[1..])
  }

  lemma {:induction false} RunThenRest(run: Text, rest: Text, k: nat)
    requires AllDigits(run) && k <= |run| && (rest == [] || !IsDigit(rest[0]))
    ensures RunEnd(run + rest, k) == |run|
    decreases |run| - k
  {
    if k < |run| {
      RunThenRest(run, rest, k + 1);
    }
  }

  lemma TokensOfRun(run: Text, rest: Text)
    requires run != [] && AllDigits(run) && (rest == [] || !IsDigit(rest[0]))
    ensures Tokens(run + rest) == [Num(Value(run))] + Tokens(rest)
  {
    RunThenRest(run, rest, 0);
    assert (run + rest)[0..|run|] == run && (run + rest)[|run|..] == rest;
  }

  lemma {:induction false} StrippingKeepsTokens(s: Text)
    ensures Tokens(WithoutLeadingZeros(s)) == Tokens(s)
    ensures s != [] && !IsDigit(s[0]) ==>
              WithoutLeadingZeros(s) != [] && WithoutLeadingZeros(s)[0] == s[0]
    decreases |s|
  {
    if s != [] {
      if IsDigit(s[0]) {
        var e, z := RunEnd(s, 0), ZerosEnd(s, 0);
        StrippingKeepsTokens(s[e..]);
        StrippedRun(s, 0);
        var run := if z < e then s[z..e] else [ZERO];
        TokensOfRun(run, WithoutLeadingZeros(s[e..]));
        assert Value([ZERO]) == 0 && Value([]) == 0;
      } else {
        StrippingKeepsTokens(s[1..]);
        assert WithoutLeadingZeros(s)[1..] == WithoutLeadingZeros(s[1..]);
      }
    }
  }

  lemma StrippedRunsOfOneValue(a: Text, b: Text)
    requires Stripped(a) && Stripped(b) && Value(a) == Value(b)
    ensures a == b
  {
    if |a| < |b| {
      LongerIsLarger(a, b);
    } else if |b| < |a| {
      LongerIsLarger(b, a);
    } else if k :| 0 <= k < |a| && a[k] != b[k] {
      FirstOfDifferences(a, b, k);
    }
  }

  lemma {:induction false} FirstOfDifferences(a: Text, b: Text, k: nat)
    requires AllDigits(a) && AllDigits(b) && |a| == |b| && k < |a| && a[k] != b[k]
    ensures Value(a) != Value(b)
    decreases k
  {
    if a[..k] == b[..k] {
      if a[k] < b[k] {
        FirstDifferenceDecides(a, b, k);
      } else {
        FirstDifferenceDecides(b, a, k);
      }
    } else {
      var j :| 0 <= j < k && a[j] != b[j];
      FirstOfDifferences(a, b, j);
    }
  }

  lemma TokensOfSomething(a: Text)
    ensures Tokens(a) == [] <==> a == []
  {
  }

  lemma {:induction false} SameTokensSameStripped(a: Text, b: Text)
    requires Tokens(a) == Tokens(b)
    ensures WithoutLeadingZeros(a) == WithoutLeadingZeros(b)
    decreases |a|
  {
    if a != [] {
      TokensOfSomething(a);
      TokensOfSomething(b);
      HeadToken(a, 0);
      HeadToken(b, 0);
      assert a[0..] == a && b[0..] == b;
      assert Tokens(a)[0] == Tokens(b)[0];
      var ta, tb := Tokens(a)[1..], Tokens(b)[1..];
      if IsDigit(a[0]) {
        var e, f := RunEnd(a, 0), RunEnd(b, 0);
        assert ta == Tokens(a[e..]) && tb == Tokens(b[f..]);
        SameTokensSameStripped(a[e..], b[f..]);
        StrippedRun(a, 0);
        StrippedRun(b, 0);
        StrippedRunsOfOneValue(a[ZerosEnd(a, 0)..e], b[ZerosEnd(b, 0)..f]);
      } else {
        assert ta == Tokens(a[1..]) && tb == Tokens(b[1..]);
        SameTokensSameStripped(a[1..], b[1..]);
      }
    }
  }

  /** Neither text sorts before the other exactly when they differ at most in leading zeros. */
  lemma EquivalentUpToLeadingZeros(a: Text, b: Text)
    ensures !Before(a, b) && !Before(b, a) <==> WithoutLeadingZeros(a) == WithoutLeadingZeros(b)
  {
    OrderTrichotomy(a, b);
    StrippingKeepsTokens(a);
    StrippingKeepsTokens(b);
    if Tokens(a) == Tokens(b) {
      SameTokensSameStripped(a, b);
    }
  }

  // ----- which of two texts is less

  /** Cutting between the two texts cuts no digit run. */
  predicate Apart(p: Text, x: Text) {
    p == [] || x == [] || !IsDigit(p[|p| - 1]) || !IsDigit(x[0])
  }

  predicate Equivalent(p: Text, q: Text) {
    !Before(p, q) && !Before(q, p)
  }

  lemma {:induction false} RunEndAppend(p: Text, x: Text, k: nat)
    requires k <= |p| && Apart(p, x) && (k == |p| ==> x == [] || !IsDigit(x[0]))
    ensures RunEnd(p + x, k) == RunEnd(p, k)
    decreases |p| - k
  {
    if k < |p| && IsDigit(p[k]) {
      RunEndAppend(p, x, k + 1);
    }
  }

  lemma CutInside(p: Text, x: Text, e: nat)
    requires e <= |p|
    ensures (p + x)[0..e] == p[0..e] && (p + x)[e..] == p[e..] + x
  {
  }

  lemma {:induction false} TokensAppend(p: Text, x: Text)
    requires Apart(p, x)
    ensures Tokens(p + x) == Tokens(p) + Tokens(x)
    decreases |p|
  {
    if p == [] {
      assert p + x == x;
    } else if IsDigit(p[0]) {
      RunEndAppend(p, x, 0);
      var e := RunEnd(p, 0);
      CutInside(p, x, e);
      TokensAppend(p[e..], x);
    } else {
      CutInside(p, x, 1);
      TokensAppend(p[1..], x);
    }
  }

  lemma {:induction false} CommonTokensCancel(u: seq<Token>, a: seq<Token>, b: seq<Token>)
    ensures TokensLess(u + a, u + b) == TokensLess(a, b)
    decreases |u|
  {
    if u == [] {
      assert u + a == a && u + b == b;
    } else {
      CommonTokensCancel(u[1..], a, b);
      assert (u + a)[1..] == u[1..] + a && (u + b)[1..] == u[1..] + b;
    }
  }

  /** Equivalent beginnings decide nothing. */
  lemma BeginningsCancel(p: Text, q: Text, x: Text, y: Text)
    requires Equivalent(p, q) && Apart(p, x) && Apart(q, y)
    ensures Before(p + x, q + y) == Before(x, y)
  {
    OrderTrichotomy(p, q);
    TokensAppend(p, x);
    TokensAppend(q, y);
    CommonTokensCancel(Tokens(p), Tokens(x), Tokens(y));
  }

  /** Behind equivalent beginnings that end in no digit, the smaller number is less, whatever follows. */
  lemma SmallerNumberFirst(p: Text, q: Text, a: Text, b: Text, x: Text, y: Text)
    requires Equivalent(p, q) && (p == [] || !IsDigit(p[|p| - 1])) && (q == [] || !IsDigit(q[|q| - 1]))
    requires a != [] && AllDigits(a) && (x == [] || !IsDigit(x[0]))
    requires b != [] && AllDigits(b) && (y == [] || !IsDigit(y[0]))
    ensures Value(a) < Value(b) ==> Before(p + (a + x), q + (b + y))
    ensures Value(a) > Value(b) ==> !Before(p + (a + x), q + (b + y))
  {
    BeginningsCancel(p, q, a + x, b + y);
    TokensOfRun(a, x);
    TokensOfRun(b, y);
  }

  /** Behind equivalent beginnings, the first characters that differ decide by their codes, unless both are
      digits. */
  lemma SmallerCharacterFirst(p: Text, q: Text, c: int, d: int, x: Text, y: Text)
    requires Equivalent(p, q) && Apart(p, [c]) && Apart(q, [d])
    requires c != d && !(IsDigit(c) && IsDigit(d))
    ensures Before(p + ([c] + x), q + ([d] + y)) <==> c < d
  {
    BeginningsCancel(p, q, [c] + x, [d] + y);
    HeadToken([c] + x, 0);
    HeadToken([d] + y, 0);
    assert ([c] + x)[0..] == [c] + x && ([d] + y)[0..] == [d] + y;
  }

  /** A text that ends where an equivalent beginning of the other does is less. */
  lemma ShorterFirst(p: Text, q: Text, y: Text)
    requires Equivalent(p, q) && y != [] && Apart(q, y)
    ensures Before(p, q + y) && !Before(q + y, p)
  {
    BeginningsCancel(p, q, [], y);
    assert p + [] == p;
    TokensOfSomething(y);
    OrderTrichotomy(p, q + y);
  }
}
