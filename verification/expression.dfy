/**
 * `Parser::eval`: the arithmetic evaluator for qubit numbers and angles.
 *
 * The text is checked for '$', stripped of spaces, "pi" is replaced by the
 * text "3.14159265358979", and then one level of the recursive splitter runs:
 * parenthesised groups are evaluated and spliced back, the token is split at
 * its first '+' or binary '-' (both sides evaluated again), else at its first
 * '*' or '/', else read as a literal with `std::stod`.
 *
 * After the parenthesis pass a token is a sequence of items: characters of the
 * expression and the values of evaluated groups. The source splices a value as
 * its `std::to_string` text, that is a '-' sign for a negative value followed
 * by digits; here the sign stays a character and the digits become one `Num`
 * item holding the exact value.
 */
module Expression {
  import opened Text
  import opened Tokens

  datatype Item = Ch(c: char) | Num(v: real)

  /**
   * Why an evaluation stops. `UndefinedVariable` is the evaluator's own
   * assertion; `NoConversion` is `std::stod` throwing on a text with no number;
   * `Unbalanced` is the group scan running past the end of the text (undefined
   * behaviour in the source); `DivisionByZero` is a zero divisor (an infinite or
   * NaN double in the source).
   */
  datatype EvalError = UndefinedVariable | NoConversion | Unbalanced | DivisionByZero

  datatype Result<T> = Ok(value: T) | Err(error: EvalError)

  datatype Operator = Plus | Times | Over

  const PiText: string := "3.14159265358979"

  function Chars(s: string): (t: seq<Item>)
    ensures |t| == |s| && forall i :: 0 <= i < |s| ==> t[i] == Ch(s[i])
  {
    seq(|s|, i requires 0 <= i < |s| => Ch(s[i]))
  }

  /** The first loop of `eval`: every character except ' ' is kept, in order. */
  function RemoveSpaces(s: string): (r: string)
    ensures ' ' !in r && |r| <= |s|
  {
    if s == [] then []
    else RemoveSpaces(s[..|s| - 1]) + (if s[|s| - 1] == ' ' then [] else [s[|s| - 1]])
  }

  /** The text the splitter works on: spaces removed, then every "pi" replaced. */
  function Expand(expr: string): string
  {
    ReplaceAll(RemoveSpaces(expr), "pi", PiText)
  }

  /** The value of an expression; the only error it reports for a '$' is `UndefinedVariable`. */
  function EvalText(expr: string): (r: Result<real>)
    ensures r == Err(UndefinedVariable) <==> '$' in expr
  {
    if '$' in expr then Err(UndefinedVariable) else EvalItems(Chars(Expand(expr)))
  }

  /** A group's value as it is put back into the token: a sign character when negative, then the magnitude. */
  function Splice(v: real): (t: seq<Item>)
    ensures 1 <= |t| <= 2
  {
    if v < 0.0 then [Ch('-'), Num(-v)] else [Num(v)]
  }

  /** The position of the ')' that closes a group, scanning from k with depth groups open. */
  function Matching(t: seq<Item>, k: nat, depth: nat): (r: Option<nat>)
    requires depth >= 1
    ensures r.Some? ==> k <= r.value < |t| && t[r.value] == Ch(')')
    decreases |t| - k
  {
    if k >= |t| then None
    else if t[k] == Ch('(') then Matching(t, k + 1, depth + 1)
    else if t[k] == Ch(')') then (if depth == 1 then Some(k) else Matching(t, k + 1, depth - 1))
    else Matching(t, k + 1, depth)
  }

  /**
   * The parenthesis pass from position i: a group is evaluated and spliced, and
   * the item right after its ')' is copied without being looked at.
   */
  function Group(t: seq<Item>, i: nat): (r: Result<seq<Item>>)
    ensures r.Ok? ==> |r.value| <= (if i <= |t| then |t| - i else 0)
    ensures r.Err? ==> r.error != UndefinedVariable
    decreases |t|, 0, |t| - i
  {
    if i >= |t| then Ok([])
    else if t[i] == Ch('(') then
      match Matching(t, i + 1, 1)
      case None => Err(Unbalanced)
      case Some(j) =>
        match EvalItems(t[i + 1..j])
        case Err(e) => Err(e)
        case Ok(v) =>
          match Group(t, j + 2)
          case Err(e) => Err(e)
          case Ok(rest) => Ok(Splice(v) + After(t, j) + rest)
    else
      match Group(t, i + 1)
      case Err(e) => Err(e)
      case Ok(rest) => Ok([t[i]] + rest)
  }

  /** The item after a group's ')' (nothing when the ')' ends the token: the source appends the terminating NUL). */
  function After(t: seq<Item>, j: nat): (r: seq<Item>)
    ensures |r| <= 1
  {
    if j + 1 < |t| then [t[j + 1]] else []
  }

  /** A '+' splits; a '-' splits when something precedes it and that is not '*' or '/'. */
  predicate AddSubAt(p: seq<Item>, i: nat)
    requires i < |p|
  {
    p[i] == Ch('+') || (p[i] == Ch('-') && i > 0 && p[i - 1] != Ch('*') && p[i - 1] != Ch('/'))
  }

  predicate MulDivAt(p: seq<Item>, i: nat)
    requires i < |p|
  {
    p[i] == Ch('*') || p[i] == Ch('/')
  }

  function FirstAddSub(p: seq<Item>, i: nat): (r: Option<nat>)
    ensures r.Some? ==> i <= r.value < |p| && AddSubAt(p, r.value)
    ensures r.Some? ==> forall k :: i <= k < r.value ==> !AddSubAt(p, k)
    ensures r.None? ==> forall k :: i <= k < |p| ==> !AddSubAt(p, k)
    decreases |p| - i
  {
    if i >= |p| then None else if AddSubAt(p, i) then Some(i) else FirstAddSub(p, i + 1)
  }

  function FirstMulDiv(p: seq<Item>, i: nat): (r: Option<nat>)
    ensures r.Some? ==> i <= r.value < |p| && MulDivAt(p, r.value)
    ensures r.Some? ==> forall k :: i <= k < r.value ==> !MulDivAt(p, k)
    ensures r.None? ==> forall k :: i <= k < |p| ==> !MulDivAt(p, k)
    decreases |p| - i
  {
    if i >= |p| then None else if MulDivAt(p, i) then Some(i) else FirstMulDiv(p, i + 1)
  }

  /** Both operands are evaluated, the left one first; a zero divisor is an error. */
  function Combine(op: Operator, a: Result<real>, b: Result<real>): (r: Result<real>)
    ensures a.Err? ==> r == a
    ensures a.Ok? && b.Err? ==> r == b
  {
    if a.Err? then a
    else if b.Err? then b
    else match op
      case Plus => Ok(a.value + b.value)
      case Times => Ok(a.value * b.value)
      case Over => if b.value == 0.0 then Err(DivisionByZero) else Ok(a.value / b.value)
  }

  /** One level of `eval` on a token: groups, then the first '+'/binary '-', then the first '*'/'/', then `stod`. */
  function EvalItems(t: seq<Item>): (r: Result<real>)
    ensures r.Err? ==> r.error != UndefinedVariable
    decreases |t|, 1
  {
    match Group(t, 0)
    case Err(e) => Err(e)
    case Ok(p) =>
      match FirstAddSub(p, 0)
      case Some(k) =>
        Combine(Plus, EvalItems(p[..k]), EvalItems(if p[k] == Ch('+') then p[k + 1..] else [Ch('-')] + p[k + 1..]))
      case None =>
        match FirstMulDiv(p, 0)
        case Some(k) => Combine(if p[k] == Ch('*') then Times else Over, EvalItems(p[..k]), EvalItems(p[k + 1..]))
        case None => Literal(p)
  }

  // ---------------------------------------------------------------- literals

  predicate IsDigitItem(x: Item)
  {
    x.Ch? && IsDigit(x.c)
  }

  /** Number of leading digit characters. */
  function DigitCount(p: seq<Item>): (n: nat)
    ensures n <= |p|
    ensures forall i :: 0 <= i < n ==> IsDigitItem(p[i])
    ensures n < |p| ==> !IsDigitItem(p[n])
  {
    if |p| == 0 || !IsDigitItem(p[0]) then 0 else 1 + DigitCount(p[1..])
  }

  /** The value of digit characters, most significant first. */
  function DigitsValue(d: seq<Item>): nat
    requires forall i :: 0 <= i < |d| ==> IsDigitItem(d[i])
  {
    if d == [] then 0
    else
      var last := d[|d| - 1];
      assert IsDigitItem(last);
      10 * DigitsValue(d[..|d| - 1]) + DigitValue(last.c)
  }

  function Pow10(n: nat): (p: nat)
    ensures p >= 1
  {
    if n == 0 then 1 else 10 * Pow10(n - 1)
  }

  /** Leading blanks are skipped by `stod`. */
  function SkipBlankItems(p: seq<Item>): (q: seq<Item>)
    ensures |q| <= |p|
  {
    if |p| > 0 && p[0].Ch? && IsBlank(p[0].c) then SkipBlankItems(p[1..]) else p
  }

  /**
   * `std::stod`: optional blanks, an optional sign, then a spliced value or
   * digits with an optional fraction (at least one digit in all) and an optional
   * exponent. Whatever follows the number is ignored.
   */
  function Literal(p: seq<Item>): (r: Result<real>)
    ensures r.Err? ==> r.error == NoConversion
  {
    var q := SkipBlankItems(p);
    if |q| > 0 && (q[0] == Ch('-') || q[0] == Ch('+')) then Signed(Unsigned(q[1..]), q[0] == Ch('-'))
    else Signed(Unsigned(q), false)
  }

  function Signed(v: Option<real>, neg: bool): (r: Result<real>)
    ensures r.Err? <==> v.None?
    ensures r.Err? ==> r.error == NoConversion
  {
    match v
    case None => Err(NoConversion)
    case Some(x) => Ok(if neg then -x else x)
  }

  /** The number after the sign: a spliced value, or digits read by `Decimal`. */
  function Unsigned(u: seq<Item>): (r: Option<real>)
    ensures r.Some? ==> |u| > 0
  {
    if |u| > 0 && u[0].Num? then Some(u[0].v) else Decimal(u, DigitCount(u))
  }

  /** Digits u[..a], then an optional fraction and an optional exponent. */
  function Decimal(u: seq<Item>, a: nat): (r: Option<real>)
    requires a <= |u| && forall i :: 0 <= i < a ==> IsDigitItem(u[i])
    ensures r.Some? ==> |u| > 0
  {
    var rest := u[a..];
    if |rest| > 0 && rest[0] == Ch('.') then Fraction(DigitsValue(u[..a]), a, rest[1..], DigitCount(rest[1..]))
    else if a == 0 then None
    else Some(DigitsValue(u[..a]) as real * ExponentScale(rest))
  }

  /** The fraction digits f[..b] after the point, at least one digit counting the a integer digits. */
  function Fraction(whole: nat, a: nat, f: seq<Item>, b: nat): (r: Option<real>)
    requires b <= |f| && forall i :: 0 <= i < b ==> IsDigitItem(f[i])
    ensures r.Some? ==> a + b > 0
  {
    if a + b == 0 then None
    else Some((whole as real + DigitsValue(f[..b]) as real / Pow10(b) as real) * ExponentScale(f[b..]))
  }

  /** An exponent part 'e' or 'E', an optional sign and at least one digit, read as a power of ten; otherwise 1. */
  function ExponentScale(p: seq<Item>): real
  {
    if |p| > 0 && (p[0] == Ch('e') || p[0] == Ch('E')) then
      var s := p[1..];
      var neg := |s| > 0 && s[0] == Ch('-');
      var d := if |s| > 0 && (s[0] == Ch('-') || s[0] == Ch('+')) then s[1..] else s;
      var n := DigitCount(d);
      if n == 0 then 1.0
      else if neg then 1.0 / Pow10(DigitsValue(d[..n])) as real
      else Pow10(DigitsValue(d[..n])) as real
    else 1.0
  }

  // ---------------------------------------------------------------- properties

  predicate NoParens(t: seq<Item>)
  {
    forall i :: 0 <= i < |t| ==> t[i] != Ch('(')
  }

  /** Without '(' the parenthesis pass hands the token on unchanged. */
  lemma {:induction false} GroupPlain(t: seq<Item>, i: nat)
    requires NoParens(t) && i <= |t|
    ensures Group(t, i) == Ok(t[i..])
    decreases |t| - i
  {
    if i < |t| {
      assert t[i] != Ch('(');
      GroupPlain(t, i + 1);
      assert t[i..] == [t[i]] + t[i + 1..];
    } else {
      assert t[i..] == [];
    }
  }

  /** Spaces are ignored: removing them first changes nothing. */
  lemma SpacesIgnored(expr: string)
    ensures EvalText(RemoveSpaces(expr)) == EvalText(expr)
  {
    RemoveSpacesKeeps(expr, '$');
    RemoveSpacesIdempotent(expr);
  }

  lemma {:induction false} RemoveSpacesKeeps(s: string, c: char)
    requires c != ' '
    ensures c in RemoveSpaces(s) <==> c in s
  {
    if s != [] {
      RemoveSpacesKeeps(s[..|s| - 1], c);
      assert s == s[..|s| - 1] + [s[|s| - 1]];
    }
  }

  lemma {:induction false} RemoveSpacesIdempotent(s: string)
    ensures RemoveSpaces(RemoveSpaces(s)) == RemoveSpaces(s)
  {
    RemoveSpacesNone(RemoveSpaces(s));
  }

  lemma {:induction false} RemoveSpacesNone(s: string)
    requires ' ' !in s
    ensures RemoveSpaces(s) == s
  {
    if s != [] {
      RemoveSpacesNone(s[..|s| - 1]);
    }
  }

  /** The first split of a token without '(' is at its position k. */
  lemma SplitsAt(t: seq<Item>, k: nat)
    requires NoParens(t) && k < |t| && AddSubAt(t, k)
    requires forall i :: 0 <= i < k ==> !AddSubAt(t, i)
    ensures EvalItems(t) == Combine(Plus, EvalItems(t[..k]), EvalItems(if t[k] == Ch('+') then t[k + 1..] else [Ch('-')] + t[k + 1..]))
  {
    GroupPlain(t, 0);
    assert t[0..] == t;
    FirstAddSubIs(t, k);
    AddSubCase(t, t, k);
  }

  /** `EvalItems` on a token whose parenthesis pass gives p, at the first '+' or binary '-' of p. */
  lemma AddSubCase(t: seq<Item>, p: seq<Item>, k: nat)
    requires Group(t, 0) == Ok(p) && FirstAddSub(p, 0) == Some(k)
    ensures EvalItems(t) == Combine(Plus, EvalItems(p[..k]), EvalItems(if p[k] == Ch('+') then p[k + 1..] else [Ch('-')] + p[k + 1..]))
  {
  }

  /** A '+' is the loosest operator: a token with no '+' or '-' before it is the sum of both sides. */
  lemma PlusSplits(l: seq<Item>, r: seq<Item>)
    requires NoParens(l) && NoParens(r)
    requires forall i :: 0 <= i < |l| ==> l[i] != Ch('+') && l[i] != Ch('-')
    ensures EvalItems(l + [Ch('+')] + r) == Combine(Plus, EvalItems(l), EvalItems(r))
  {
    var t := l + [Ch('+')] + r;
    assert forall i :: 0 <= i < |l| ==> t[i] == l[i];
    SplitsAt(t, |l|);
    assert t[..|l|] == l;
    assert t[|l| + 1..] == r;
  }

  /**
   * A '-' after an operand splits the token too, and the right side keeps the
   * '-' as its sign: a - b is evaluated as a + (-b).
   */
  lemma MinusSplits(l: seq<Item>, r: seq<Item>)
    requires NoParens(l) && NoParens(r) && |l| > 0
    requires forall i :: 0 <= i < |l| ==> l[i] != Ch('+') && l[i] != Ch('-')
    requires l[|l| - 1] != Ch('*') && l[|l| - 1] != Ch('/')
    ensures EvalItems(l + [Ch('-')] + r) == Combine(Plus, EvalItems(l), EvalItems([Ch('-')] + r))
  {
    var t := l + [Ch('-')] + r;
    assert forall i :: 0 <= i < |l| ==> t[i] == l[i];
    SplitsAt(t, |l|);
    assert t[..|l|] == l;
    assert t[|l| + 1..] == r;
  }

  /**
   * With no '+' and no binary '-' left, the token splits at its first '*' or
   * '/' and the whole rest is the right operand, so a chain groups from the
   * right; a '-' right after the operator stays a sign of the right operand.
   */
  lemma MulDivSplits(l: seq<Item>, op: char, r: seq<Item>)
    requires op == '*' || op == '/'
    requires NoParens(l) && NoParens(r)
    requires forall i :: 0 <= i < |l| ==> !IsOperator(l[i])
    requires forall i :: 0 <= i < |r| ==> r[i] != Ch('+')
    requires forall i :: 1 <= i < |r| ==> r[i] == Ch('-') ==> r[i - 1] == Ch('*') || r[i - 1] == Ch('/')
    ensures EvalItems(l + [Ch(op)] + r) == Combine(if op == '*' then Times else Over, EvalItems(l), EvalItems(r))
  {
    var t := l + [Ch(op)] + r;
    GroupPlain(t, 0);
    assert t[0..] == t;
    NoAddSubIn(l, op, r);
    assert forall i :: 0 <= i < |l| ==> t[i] == l[i];
    FirstMulDivIs(t, |l|);
    MulDivCase(t, t, |l|);
    assert t[..|l|] == l;
    assert t[|l| + 1..] == r;
  }

  lemma NoAddSubIn(l: seq<Item>, op: char, r: seq<Item>)
    requires op == '*' || op == '/'
    requires forall i :: 0 <= i < |l| ==> !IsOperator(l[i])
    requires forall i :: 0 <= i < |r| ==> r[i] != Ch('+')
    requires forall i :: 1 <= i < |r| ==> r[i] == Ch('-') ==> r[i - 1] == Ch('*') || r[i - 1] == Ch('/')
    ensures FirstAddSub(l + [Ch(op)] + r, 0) == None
  {
    var t := l + [Ch(op)] + r;
    forall i | 0 <= i < |t|
      ensures !AddSubAt(t, i)
    {
      if i > |l| + 1 {
        assert t[i] == r[i - |l| - 1] && t[i - 1] == r[i - |l| - 2];
      } else if i < |l| {
        assert t[i] == l[i];
      }
    }
  }

  predicate IsOperator(x: Item)
  {
    x == Ch('+') || x == Ch('-') || x == Ch('*') || x == Ch('/')
  }

  lemma FirstMulDivIs(p: seq<Item>, k: nat)
    requires k < |p| && MulDivAt(p, k)
    requires forall i :: 0 <= i < k ==> !MulDivAt(p, i)
    ensures FirstMulDiv(p, 0) == Some(k)
  {
  }

  lemma FirstAddSubIs(p: seq<Item>, k: nat)
    requires k < |p| && AddSubAt(p, k)
    requires forall i :: 0 <= i < k ==> !AddSubAt(p, i)
    ensures FirstAddSub(p, 0) == Some(k)
  {
  }

  /** `EvalItems` on a token whose parenthesis pass gives p with no '+' or binary '-', at the first '*' or '/' of p. */
  lemma MulDivCase(t: seq<Item>, p: seq<Item>, k: nat)
    requires Group(t, 0) == Ok(p) && FirstAddSub(p, 0) == None && FirstMulDiv(p, 0) == Some(k)
    ensures EvalItems(t) == Combine(if p[k] == Ch('*') then Times else Over, EvalItems(p[..k]), EvalItems(p[k + 1..]))
  {
  }

  /** `EvalItems` on a token whose parenthesis pass gives p with no operator is `stod` of p. */
  lemma LiteralCase(t: seq<Item>, p: seq<Item>)
    requires Group(t, 0) == Ok(p) && FirstAddSub(p, 0) == None && FirstMulDiv(p, 0) == None
    ensures EvalItems(t) == Literal(p)
  {
  }

  /** A token that is one group evaluates to the value of what the group encloses. */
  lemma WholeGroup(t: seq<Item>)
    requires 2 <= |t| && t[0] == Ch('(') && Matching(t, 1, 1) == Some(|t| - 1)
    ensures EvalItems(t) == EvalItems(t[1..|t| - 1])
  {
    var j := |t| - 1;
    assert After(t, j) == [];
    assert Group(t, j + 2) == Ok([]);
    match EvalItems(t[1..j])
    case Err(e) =>
      GroupOpenErr(t, j);
      GroupErr(t);
    case Ok(v) =>
      GroupOpen(t, j, v, []);
      var sp := Splice(v);
      assert sp + [] + [] == sp;
      SpliceValue(v);
      SameGroup(t, sp);
  }

  /** The parenthesis pass at a '(' whose match is at j and whose content evaluates to v. */
  lemma GroupOpen(t: seq<Item>, j: nat, v: real, rest: seq<Item>)
    requires 0 < |t| && t[0] == Ch('(') && Matching(t, 1, 1) == Some(j)
    requires EvalItems(t[1..j]) == Ok(v) && Group(t, j + 2) == Ok(rest)
    ensures Group(t, 0) == Ok(Splice(v) + After(t, j) + rest)
  {
  }

  /** The parenthesis pass stops at the first group whose content fails. */
  lemma GroupOpenErr(t: seq<Item>, j: nat)
    requires 0 < |t| && t[0] == Ch('(') && Matching(t, 1, 1) == Some(j)
    requires EvalItems(t[1..j]).Err?
    ensures Group(t, 0) == Err(EvalItems(t[1..j]).error)
  {
  }

  /** An error of the parenthesis pass is the error of the whole token. */
  lemma GroupErr(t: seq<Item>)
    requires Group(t, 0).Err?
    ensures EvalItems(t) == Err(Group(t, 0).error)
  {
  }

  /** Two tokens with the same parenthesis pass evaluate alike. */
  lemma SameGroup(t: seq<Item>, p: seq<Item>)
    requires Group(t, 0) == Ok(p) && Group(p, 0) == Ok(p)
    ensures EvalItems(t) == EvalItems(p)
  {
  }

  /** A spliced value is read back as that value: the partner of `Splice`. */
  lemma SpliceValue(v: real)
    ensures Group(Splice(v), 0) == Ok(Splice(v))
    ensures EvalItems(Splice(v)) == Ok(v)
  {
    var p := Splice(v);
    GroupPlain(p, 0);
    assert p[0..] == p;
    assert FirstAddSub(p, 0) == None;
    assert FirstMulDiv(p, 0) == None;
    LiteralCase(p, p);
    if v < 0.0 {
      assert p[1..] == [Num(-v)];
    }
  }

  /** Only the literal level reports `NoConversion`: a token of digits reads as its decimal value. */
  lemma {:induction false} DigitsItems(d: string)
    requires forall i :: 0 <= i < |d| ==> IsDigit(d[i])
    ensures forall i :: 0 <= i < |d| ==> IsDigitItem(Chars(d)[i])
    ensures DigitsValue(Chars(d)) == DecimalValue(d)
  {
    if d != [] {
      DigitsItems(d[..|d| - 1]);
      assert Chars(d)[..|d| - 1] == Chars(d[..|d| - 1]);
    }
  }

  lemma {:induction false} DigitCountAll(p: seq<Item>)
    requires forall i :: 0 <= i < |p| ==> IsDigitItem(p[i])
    ensures DigitCount(p) == |p|
  {
    if |p| > 0 {
      DigitCountAll(p[1..]);
    }
  }

  /** Digits alone read as their decimal value. */
  lemma UnsignedDigits(u: seq<Item>)
    requires |u| > 0 && forall i :: 0 <= i < |u| ==> IsDigitItem(u[i])
    ensures Unsigned(u) == Some(DigitsValue(u) as real)
  {
    DigitCountAll(u);
    assert u[..|u|] == u;
    assert u[|u|..] == [];
  }

  /** A token of digits evaluates to their decimal value. */
  lemma DigitToken(t: seq<Item>)
    requires |t| > 0 && forall i :: 0 <= i < |t| ==> IsDigitItem(t[i])
    ensures EvalItems(t) == Ok(DigitsValue(t) as real)
  {
    PlainToken(t, 0);
    UnsignedDigits(t);
  }

  /** A '-' and then digits evaluates to the negated decimal value: the '-' is a sign, not an operator. */
  lemma NegativeDigitToken(t: seq<Item>, n: nat)
    requires |t| > 1 && t[0] == Ch('-') && forall i :: 1 <= i < |t| ==> IsDigitItem(t[i])
    requires DigitsValue(t[1..]) == n
    ensures EvalItems(t) == Ok(-(n as real))
  {
    NegativeLiteral(t, n);
    PlainToken(t, 1);
  }

  lemma NegativeLiteral(t: seq<Item>, n: nat)
    requires |t| > 1 && t[0] == Ch('-') && forall i :: 1 <= i < |t| ==> IsDigitItem(t[i])
    requires DigitsValue(t[1..]) == n
    ensures Literal(t) == Ok(-(n as real))
  {
    var u := t[1..];
    forall i | 0 <= i < |u| ensures IsDigitItem(u[i]) {
      assert u[i] == t[i + 1];
    }
    UnsignedDigits(u);
    assert SkipBlankItems(t) == t;
  }

  /** A token whose items from position `from` on are digits, and whose first item is at most a sign, is `stod`. */
  lemma PlainToken(t: seq<Item>, from: nat)
    requires from <= 1 && from < |t| && (from == 1 ==> t[0] == Ch('-'))
    requires forall i :: from <= i < |t| ==> IsDigitItem(t[i])
    ensures EvalItems(t) == Literal(t)
  {
    GroupPlain(t, 0);
    assert t[0..] == t;
    assert FirstAddSub(t, 0) == None;
    assert FirstMulDiv(t, 0) == None;
    LiteralCase(t, t);
  }

  /**
   * The text `std::to_string` gives an integer evaluates to that integer: a
   * loop counter substituted for its variable reads back as the counter.
   */
  lemma IntegerText(k: int)
    ensures EvalText(IntToString(k)) == Ok(k as real)
  {
    IntegerChars(k);
    var s := IntToString(k);
    assert forall i :: 0 <= i < |s| ==> s[i] == '-' || IsDigit(s[i]);
    PlainText(s);
  }

  lemma IntegerChars(k: int)
    ensures EvalItems(Chars(IntToString(k))) == Ok(k as real)
  {
    var m: nat := if k < 0 then -k else k;
    var d := NatToString(m);
    NatToStringValue(m);
    if k < 0 {
      NegativeChars(d);
    } else {
      DigitChars(d);
    }
  }

  lemma DigitChars(d: string)
    requires |d| > 0 && forall i :: 0 <= i < |d| ==> IsDigit(d[i])
    ensures EvalItems(Chars(d)) == Ok(DecimalValue(d) as real)
  {
    DigitsItems(d);
    DigitToken(Chars(d));
  }

  lemma NegativeChars(d: string)
    requires |d| > 0 && forall i :: 0 <= i < |d| ==> IsDigit(d[i])
    ensures EvalItems(Chars("-" + d)) == Ok(-(DecimalValue(d) as real))
  {
    NegativeCharsShape(d);
    NegativeCharsOf(Chars("-" + d), d);
  }

  lemma NegativeCharsShape(d: string)
    ensures var t := Chars("-" + d);
      |t| == |d| + 1 && t[0] == Ch('-') && forall i :: 0 <= i < |d| ==> t[i + 1] == Ch(d[i])
  {
    var s := "-" + d;
    forall i | 0 <= i < |d| ensures Chars(s)[i + 1] == Ch(d[i]) {
      assert s[i + 1] == d[i];
    }
  }

  lemma NegativeCharsOf(t: seq<Item>, d: string)
    requires |d| > 0 && forall i :: 0 <= i < |d| ==> IsDigit(d[i])
    requires |t| == |d| + 1 && t[0] == Ch('-') && forall i :: 0 <= i < |d| ==> t[i + 1] == Ch(d[i])
    ensures EvalItems(t) == Ok(-(DecimalValue(d) as real))
  {
    var u := Chars(d);
    assert t[1..] == u;
    DigitsItems(d);
    NegativeDigitToken(t, DecimalValue(d));
  }

  /** A text without blanks, '$' or 'p' goes to the splitter as it is. */
  lemma PlainText(s: string)
    requires forall i :: 0 <= i < |s| ==> s[i] != ' ' && s[i] != '$' && s[i] != 'p'
    ensures EvalText(s) == EvalItems(Chars(s))
  {
    RemoveSpacesNone(s);
    forall j | 0 <= j
      ensures !OccursAt(s, "pi", j)
    {
      assert j < |s| ==> s[j] != 'p';
    }
    ReplaceAllAbsent(s, "pi", PiText);
  }

  predicate IsNumeral(d: string)
  {
    |d| > 0 && forall i :: 0 <= i < |d| ==> IsDigit(d[i])
  }

  /** '*' binds tighter than '+': a + b * c is a + (b * c) for numerals a, b, c. */
  lemma ProductBeforeSum(a: string, b: string, c: string)
    requires IsNumeral(a) && IsNumeral(b) && IsNumeral(c)
    ensures EvalText(a + "+" + b + "*" + c)
         == Combine(Plus, Ok(DecimalValue(a) as real), Combine(Times, Ok(DecimalValue(b) as real), Ok(DecimalValue(c) as real)))
  {
    var right := b + ['*'] + c;
    assert a + "+" + b + "*" + c == a + ['+'] + right;
    NumeralPlain(a, right, '+');
    PlainText(a + ['+'] + right);
    NumeralSplit(a, '+', right);
    NumeralSplit(b, '*', c);
    DigitChars(a);
    DigitChars(b);
    DigitChars(c);
  }

  /**
   * A chain of divisions groups from the right: a / b / c is a / (b / c), so
   * "8/2/2" is 8 / (2 / 2) = 8 and not (8 / 2) / 2 = 2.
   */
  lemma DivisionGroupsFromRight(a: string, b: string, c: string)
    requires IsNumeral(a) && IsNumeral(b) && IsNumeral(c)
    ensures EvalText(a + "/" + b + "/" + c)
         == Combine(Over, Ok(DecimalValue(a) as real), Combine(Over, Ok(DecimalValue(b) as real), Ok(DecimalValue(c) as real)))
  {
    var right := b + ['/'] + c;
    assert a + "/" + b + "/" + c == a + ['/'] + right;
    NumeralPlain(a, right, '/');
    PlainText(a + ['/'] + right);
    NumeralSplit(a, '/', right);
    NumeralSplit(b, '/', c);
    DigitChars(a);
    DigitChars(b);
    DigitChars(c);
  }

  /** A '-' right after '*' is the sign of the right operand: a*-b is a * (-b). */
  lemma SignAfterProduct(a: string, b: string)
    requires IsNumeral(a) && IsNumeral(b)
    ensures EvalText(a + "*-" + b) == Combine(Times, Ok(DecimalValue(a) as real), Ok(-(DecimalValue(b) as real)))
  {
    var right := "-" + b;
    assert a + "*-" + b == a + ['*'] + right;
    NumeralPlain(a, right, '*');
    PlainText(a + ['*'] + right);
    NumeralSplit(a, '*', right);
    DigitChars(a);
    NegativeChars(b);
  }

  function OperatorOf(op: char): Operator
  {
    if op == '+' then Plus else if op == '*' then Times else Over
  }

  /** A numeral, an operator, and a right side without '(' or '+' and with '-' only in front. */
  lemma NumeralSplit(a: string, op: char, right: string)
    requires IsNumeral(a) && (op == '+' || op == '*' || op == '/')
    requires forall i :: 0 <= i < |right| ==> right[i] != '(' && right[i] != '+' && (right[i] == '-' ==> i == 0)
    ensures EvalItems(Chars(a + [op] + right)) == Combine(OperatorOf(op), EvalItems(Chars(a)), EvalItems(Chars(right)))
  {
    CharsJoin(a, op, right);
    NumeralItems(a);
    var r := Chars(right);
    assert NoParens(r);
    if op == '+' {
      PlusSplits(Chars(a), r);
    } else {
      MulDivSplits(Chars(a), op, r);
    }
  }

  /** The items of a + [op] + b. */
  lemma CharsJoin(a: string, op: char, b: string)
    ensures Chars(a + [op] + b) == Chars(a) + [Ch(op)] + Chars(b)
  {
  }

  lemma NumeralItems(d: string)
    requires IsNumeral(d)
    ensures NoParens(Chars(d))
    ensures forall i :: 0 <= i < |d| ==> !IsOperator(Chars(d)[i])
  {
  }

  lemma NumeralPlain(a: string, right: string, op: char)
    requires IsNumeral(a) && op in "+*/"
    requires forall i :: 0 <= i < |right| ==> right[i] == '-' || right[i] == '*' || right[i] == '/' || IsDigit(right[i])
    ensures forall i :: 0 <= i < |a + [op] + right| ==> (a + [op] + right)[i] != ' ' && (a + [op] + right)[i] != '$' && (a + [op] + right)[i] != 'p'
  {
  }

  // ---------------------------------------------------------------- the evaluator

  /** The parenthesis pass so far: tok is what has been built from t[..i]. */
  function Prepend(tok: seq<Item>, r: Result<seq<Item>>): Result<seq<Item>>
  {
    match r
    case Err(e) => Err(e)
    case Ok(rest) => Ok(tok + rest)
  }

  /**
   * `Parser::eval`: rejects a '$', removes the spaces, replaces "pi", then
   * evaluates the text.
   */
  method Eval(expr: string) returns (r: Result<real>)
    ensures r == EvalText(expr)
  {
    if '$' in expr {
      return Err(UndefinedVariable);
    }
    var xxx := "";
    for i := 0 to |expr|
      invariant xxx == RemoveSpaces(expr[..i])
    {
      assert expr[..i + 1][..i] == expr[..i];
      if expr[i] != ' ' {
        xxx := xxx + [expr[i]];
      }
    }
    assert expr[..|expr|] == expr;
    xxx := ReplaceVar(xxx, "pi", PiText);
    r := EvalTokens(Chars(xxx));
  }

  /**
   * One level of `eval` after the text is expanded: the parenthesis pass, then
   * the scan for '+' and binary '-', then the scan for '*' and '/', then `stod`.
   * The source calls `eval` again on each part; the expansion it repeats there
   * finds no '$', space or "pi" left to change, so the parts are evaluated here
   * directly.
   */
  method EvalTokens(t: seq<Item>) returns (r: Result<real>)
    ensures r == EvalItems(t)
    decreases |t|, 1
  {
    var pass := GroupPass(t);
    if pass.Err? {
      GroupErr(t);
      return Err(pass.error);
    }
    var tok := pass.value;
    var plus := FindAddSub(tok);
    if plus.Some? {
      var k := plus.value;
      AddSubCase(t, tok, k);
      var left := EvalTokens(tok[..k]);
      if left.Err? {
        return left;
      }
      var right := EvalTokens(if tok[k] == Ch('+') then tok[k + 1..] else [Ch('-')] + tok[k + 1..]);
      return Combine(Plus, left, right);
    }
    var times := FindMulDiv(tok);
    if times.Some? {
      var k := times.value;
      MulDivCase(t, tok, k);
      var left := EvalTokens(tok[..k]);
      if left.Err? {
        return left;
      }
      var right := EvalTokens(tok[k + 1..]);
      return Combine(if tok[k] == Ch('*') then Times else Over, left, right);
    }
    LiteralCase(t, tok);
    r := Literal(tok);
  }

  /** The parenthesis pass of `eval`: each group is evaluated and its value appended in its place. */
  method GroupPass(t: seq<Item>) returns (r: Result<seq<Item>>)
    ensures r == Group(t, 0)
    decreases |t|, 0
  {
    var tok := [];
    var i := 0;
    PrependNothing(Group(t, 0));
    while i < |t|
      invariant 0 <= i
      invariant Group(t, 0) == Prepend(tok, Group(t, i))
      decreases |t| - i
    {
      if t[i] == Ch('(') {
        var j, found := MatchingParen(t, i + 1);
        if !found {
          return Err(Unbalanced);
        }
        var v := EvalTokens(t[i + 1..j]);
        if v.Err? {
          return Err(v.error);
        }
        GroupStep(t, i, j, tok, v.value);
        tok := tok + Splice(v.value) + After(t, j);
        i := j + 2;
      } else {
        assert Group(t, i) == Prepend([t[i]], Group(t, i + 1));
        PrependTwice(tok, [t[i]], Group(t, i + 1));
        tok := tok + [t[i]];
        i := i + 1;
      }
    }
    assert tok + [] == tok;
    r := Ok(tok);
  }

  /** The scan for the first '+' or binary '-'. */
  method FindAddSub(tok: seq<Item>) returns (r: Option<nat>)
    ensures r == FirstAddSub(tok, 0)
  {
    var k := 0;
    while k < |tok|
      invariant k <= |tok|
      invariant forall m :: 0 <= m < k ==> !AddSubAt(tok, m)
    {
      if AddSubAt(tok, k) {
        FirstAddSubIs(tok, k);
        return Some(k);
      }
      k := k + 1;
    }
    NoAddSub(tok);
    return None;
  }

  /** The scan for the first '*' or '/'. */
  method FindMulDiv(tok: seq<Item>) returns (r: Option<nat>)
    ensures r == FirstMulDiv(tok, 0)
  {
    var k := 0;
    while k < |tok|
      invariant k <= |tok|
      invariant forall m :: 0 <= m < k ==> !MulDivAt(tok, m)
    {
      if MulDivAt(tok, k) {
        FirstMulDivIs(tok, k);
        return Some(k);
      }
      k := k + 1;
    }
    NoMulDiv(tok);
    return None;
  }

  lemma NoAddSub(p: seq<Item>)
    requires forall m :: 0 <= m < |p| ==> !AddSubAt(p, m)
    ensures FirstAddSub(p, 0) == None
  {
  }

  lemma NoMulDiv(p: seq<Item>)
    requires forall m :: 0 <= m < |p| ==> !MulDivAt(p, m)
    ensures FirstMulDiv(p, 0) == None
  {
  }

  /** The inner scan for the ')' closing a group, from position k with one group open. */
  method MatchingParen(t: seq<Item>, start: nat) returns (j: nat, found: bool)
    ensures found <==> Matching(t, start, 1).Some?
    ensures found ==> Matching(t, start, 1) == Some(j)
  {
    var depth := 1;
    var k := start;
    while true
      invariant depth >= 1
      invariant Matching(t, k, depth) == Matching(t, start, 1)
      decreases |t| - k
    {
      if k >= |t| {
        return 0, false;
      }
      if t[k] == Ch('(') {
        depth := depth + 1;
      } else if t[k] == Ch(')') {
        if depth == 1 {
          return k, true;
        }
        depth := depth - 1;
      }
      k := k + 1;
    }
  }

  lemma PrependNothing(r: Result<seq<Item>>)
    ensures Prepend([], r) == r
  {
    if r.Ok? {
      assert [] + r.value == r.value;
    }
  }

  lemma PrependTwice(a: seq<Item>, b: seq<Item>, r: Result<seq<Item>>)
    ensures Prepend(a, Prepend(b, r)) == Prepend(a + b, r)
  {
    if r.Ok? {
      assert a + (b + r.value) == a + b + r.value;
    }
  }

  /** One group of the parenthesis pass, when its content evaluates to v. */
  lemma GroupStep(t: seq<Item>, i: nat, j: nat, tok: seq<Item>, v: real)
    requires i < |t| && t[i] == Ch('(') && Matching(t, i + 1, 1) == Some(j)
    requires EvalItems(t[i + 1..j]) == Ok(v)
    ensures Prepend(tok, Group(t, i)) == Prepend(tok + Splice(v) + After(t, j), Group(t, j + 2))
  {
    assert Group(t, i) == Prepend(Splice(v) + After(t, j), Group(t, j + 2));
    PrependTwice(tok, Splice(v) + After(t, j), Group(t, j + 2));
    assert tok + (Splice(v) + After(t, j)) == tok + Splice(v) + After(t, j);
  }
}
