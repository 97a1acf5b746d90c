/** `round_numbers`: every decimal number token `[-+]?\d*\.\d+([eE][-+]?\d+)?`
    with more characters after its point than the requested number of places
    is rounded to that many places and printed in fixed notation; every other
    character is copied. Rounding is exact decimal rounding, half to even. */
module Rounding {

  import opened Outcomes
  import opened Text

  predicate IsSign(c: char) { c == '-' || c == '+' }
  predicate IsExponentMark(c: char) { c == 'e' || c == 'E' }

  /** The characters a number token can be continued with. */
  predicate IsNumeral(c: char) { IsDigit(c) || c == '.' || IsSign(c) || IsExponentMark(c) }

  /** A matched token, split into its parts. */
  datatype Token = Token(sign: string, whole: string, fraction: string, exponent: string)

  /** `[eE][-+]?\d+` */
  predicate IsExponent(x: string) {
    |x| >= 2 && IsExponentMark(x[0])
    && if IsSign(x[1]) then |x| >= 3 && AllDigits(x[2..]) else AllDigits(x[1..])
  }

  predicate WellFormed(tok: Token) {
    (tok.sign == "" || tok.sign == "-" || tok.sign == "+")
    && AllDigits(tok.whole) && |tok.fraction| >= 1 && AllDigits(tok.fraction)
    && (tok.exponent == "" || IsExponent(tok.exponent))
  }

  /** The text of a token. */
  function Spelling(tok: Token): string {
    tok.sign + (tok.whole + ("." + (tok.fraction + tok.exponent)))
  }

  /** `len(number_str.split('.')[-1])`: a token has one point, and everything
      after it counts, the exponent included. */
  function FracLen(tok: Token): nat { |tok.fraction| + |tok.exponent| }

  /** The optional sign at the start of `t`. */
  function SignAt(t: string): (r: string)
    ensures r == "" || r == "-" || r == "+"
    ensures StartsWith(t, r)
  {
    if |t| >= 1 && IsSign(t[0]) then (if t[0] == '-' then "-" else "+") else ""
  }

  /** The digit run at the start of `t`: what a greedy `\d*` takes. */
  function DigitsAt(t: string): (r: string)
    ensures AllDigits(r) && StartsWith(t, r)
    ensures |r| < |t| ==> !IsDigit(t[|r|])
  {
    if t == [] || !IsDigit(t[0]) then []
    else
      var rest := DigitsAt(t[1..]);
      assert t[..1 + |rest|] == [t[0]] + t[1..][..|rest|];
      [t[0]] + rest
  }

  /** The optional exponent `[eE][-+]?\d+` at the start of `t`: the sign is
      taken only when digits follow it. */
  function ExponentAt(t: string): (r: string)
    ensures r == [] || IsExponent(r)
    ensures StartsWith(t, r)
  {
    if |t| < 2 || !IsExponentMark(t[0]) then []
    else
      var sg := SignAt(t[1..]);
      var ds := DigitsAt(t[1 + |sg|..]);
      if ds == [] then []
      else
        var r := [t[0]] + sg + ds;
        assert r[1 + |sg|..] == ds;
        assert t[1..][..|sg|] == sg;
        assert t[..|r|] == [t[0]] + t[1..][..|sg|] + t[1 + |sg|..][..|ds|];
        r
  }

  /** The rest of a token once its sign and whole digits are read: the point,
      at least one fraction digit, and the optional exponent. */
  function TokenAfterWhole(sign: string, whole: string, t: string): (r: Option<Token>)
    ensures r.Some? ==> r.value.sign == sign && r.value.whole == whole
    ensures r.Some? ==> |r.value.fraction| >= 1 && AllDigits(r.value.fraction)
    ensures r.Some? ==> r.value.exponent == [] || IsExponent(r.value.exponent)
    ensures r.Some? ==> StartsWith(t, "." + (r.value.fraction + r.value.exponent))
  {
    if t == [] || t[0] != '.' then None
    else
      var fraction := DigitsAt(t[1..]);
      if fraction == [] then None
      else
        var exponent := ExponentAt(t[1..][|fraction|..]);
        StartsWithJoin(t[1..], fraction, exponent);
        StartsWithJoin(t, ".", fraction + exponent);
        Some(Token(sign, whole, fraction, exponent))
  }

  /** The token matched at the start of `t`, if any. The greedy runs never
      have to give anything back: the optional sign, the digit runs, the
      point and the exponent mark are disjoint classes. */
  function ParseToken(t: string): (r: Option<Token>)
    ensures r.Some? ==> WellFormed(r.value)
    ensures r.Some? ==> StartsWith(t, Spelling(r.value)) && 2 <= |Spelling(r.value)| <= |t|
  {
    var sign := SignAt(t);
    var rest := t[|sign|..];
    var whole := DigitsAt(rest);
    var r := TokenAfterWhole(sign, whole, rest[|whole|..]);
    if r.Some? then
      StartsWithJoin(rest, whole, "." + (r.value.fraction + r.value.exponent));
      StartsWithJoin(t, sign, whole + ("." + (r.value.fraction + r.value.exponent)));
      r
    else r
  }

  lemma StartsWithJoin(t: string, a: string, b: string)
    requires StartsWith(t, a) && StartsWith(t[|a|..], b)
    ensures StartsWith(t, a + b)
  {
    assert t[..|a| + |b|] == t[..|a|] + t[|a|..][..|b|];
  }

  /** The token read is what the text starts with. */
  lemma ParseTokenFacts(t: string)
    requires ParseToken(t).Some?
    ensures WellFormed(ParseToken(t).value)
    ensures StartsWith(t, Spelling(ParseToken(t).value))
  {
  }

  lemma StartsWithParts(t: string, a: string, b: string)
    requires StartsWith(t, a + b)
    ensures StartsWith(t, a) && StartsWith(t[|a|..], b)
  {
    assert t[..|a|] == (a + b)[..|a|];
    assert t[|a|..][..|b|] == (a + b)[|a|..];
  }

  /** A digit run the text starts with is taken whole by `DigitsAt`, and
      exactly it when a non-digit follows. */
  lemma DigitsAtCovers(t: string, x: string)
    requires AllDigits(x) && StartsWith(t, x)
    ensures |DigitsAt(t)| >= |x|
    ensures |x| < |t| && !IsDigit(t[|x|]) ==> DigitsAt(t) == x
  {
    var r := DigitsAt(t);
    assert |x| < |r| ==> t[|x|] == r[|x|];
  }

  /** An exponent the text starts with is taken, or a longer one. */
  lemma ExponentAtCovers(t: string, x: string)
    requires IsExponent(x) && StartsWith(t, x)
    ensures |ExponentAt(t)| >= |x|
  {
    var k := if IsSign(x[1]) then 2 else 1;
    assert t[..2] == x[..2];
    assert SignAt(t[1..]) == x[1..k];
    StartsWithParts(t, x[..k], x[k..]);
    assert x[..k] + x[k..] == x;
    DigitsAtCovers(t[k..], x[k..]);
    ExponentLength(t, k);
  }

  /** The exponent read when the sign part ends at `k` and digits follow. */
  lemma ExponentLength(t: string, k: nat)
    requires |t| >= 2 && IsExponentMark(t[0]) && k == 1 + |SignAt(t[1..])|
    requires k <= |t| && |DigitsAt(t[k..])| >= 1
    ensures |ExponentAt(t)| == k + |DigitsAt(t[k..])|
  {
  }

  /** The fraction and the exponent after the point: a longer fraction when
      no exponent was given, or the same fraction and a longer exponent. */
  lemma AfterWholeCovers(sign: string, whole: string, t: string, tok: Token)
    requires WellFormed(tok) && StartsWith(t, "." + (tok.fraction + tok.exponent))
    ensures TokenAfterWhole(sign, whole, t).Some?
    ensures var r := TokenAfterWhole(sign, whole, t).value;
            |r.fraction| + |r.exponent| >= |tok.fraction| + |tok.exponent|
  {
    var f, x := tok.fraction, tok.exponent;
    StartsWithParts(t, ".", f + x);
    var u := t[1..];
    StartsWithParts(u, f, x);
    DigitsAtCovers(u, f);
    var g := DigitsAt(u);
    AfterWholeIs(sign, whole, t, g);
    if x != "" {
      assert u[|f|] == x[0];
      assert g == f;
      ExponentAtCovers(u[|f|..], x);
    }
  }

  /** `TokenAfterWhole` once a point and fraction digits `g` are read. */
  lemma AfterWholeIs(sign: string, whole: string, t: string, g: string)
    requires |t| >= 1 && t[0] == '.' && g == DigitsAt(t[1..]) && |g| >= 1
    ensures TokenAfterWhole(sign, whole, t) == Some(Token(sign, whole, g, ExponentAt(t[1..][|g|..])))
  {
  }

  /** The match `re.sub` takes at a position is the longest token there: any
      well-formed token the text starts with is found, with its sign and its
      whole digits, and the token read is at least as long. So a text that
      yields no token starts with none. */
  lemma ParseTokenLongest(t: string, tok: Token)
    requires WellFormed(tok) && StartsWith(t, Spelling(tok))
    ensures ParseToken(t).Some?
    ensures ParseToken(t).value.sign == tok.sign && ParseToken(t).value.whole == tok.whole
    ensures |Spelling(tok)| <= |Spelling(ParseToken(t).value)|
  {
    var tail := tok.whole + ("." + (tok.fraction + tok.exponent));
    StartsWithParts(t, tok.sign, tail);
    if tok.sign == "" {
      assert t[0] == tail[0];
      assert tok.whole != [] ==> tail[0] == tok.whole[0];
    } else {
      assert t[0] == tok.sign[0];
    }
    assert SignAt(t) == tok.sign;
    var rest := t[|tok.sign|..];
    StartsWithParts(rest, tok.whole, "." + (tok.fraction + tok.exponent));
    assert rest[|tok.whole|] == '.';
    DigitsAtCovers(rest, tok.whole);
    AfterWholeCovers(tok.sign, tok.whole, rest[|tok.whole|..], tok);
  }

  /** Both directions at once: the text starts with a token exactly when
      one is read. */
  lemma ParseTokenNone(t: string)
    ensures ParseToken(t).None? <==> forall tok :: WellFormed(tok) ==> !StartsWith(t, Spelling(tok))
  {
    if ParseToken(t).None? {
      forall tok | WellFormed(tok) ensures !StartsWith(t, Spelling(tok)) {
        if StartsWith(t, Spelling(tok)) { ParseTokenLongest(t, tok); }
      }
    }
  }

  predicate NoToken(s: string) {
    forall i :: 0 <= i <= |s| ==> ParseToken(s[i..]).None?
  }

  function Dist(a: int, b: int): nat { if a >= b then a - b else b - a }

  /** `n / m` rounded to the nearest integer, ties to the even one, as
      Python's `round` does. */
  function DivRoundHalfEven(n: nat, m: nat): (q: nat)
    requires m >= 1
    ensures 2 * Dist(q * m, n) <= m
    ensures 2 * Dist(q * m, n) == m ==> q % 2 == 0
  {
    var q0, r := n / m, n % m;
    Candidates(n, m);
    if 2 * r < m then q0
    else if 2 * r > m then q0 + 1
    else if q0 % 2 == 0 then q0
    else q0 + 1
  }

  /** The two integers around `n / m` and how far each is from it. */
  lemma Candidates(n: nat, m: nat)
    requires m >= 1
    ensures Dist((n / m) * m, n) == n % m
    ensures Dist((n / m + 1) * m, n) == m - n % m
  {
    var q0, r := n / m, n % m;
    assert n == q0 * m + r;
    assert (q0 + 1) * m == q0 * m + m;
  }

  /** The digits of a token read as one integer: the token's value is this
      times ten to the power `Shift(tok)`. */
  function Numerator(tok: Token): nat
    requires WellFormed(tok)
  {
    AllDigitsAppend(tok.whole, tok.fraction);
    DigitsValue(tok.whole + tok.fraction)
  }

  function ExponentValue(tok: Token): int
    requires WellFormed(tok)
  {
    if tok.exponent == "" then 0
    else if tok.exponent[1] == '-' then 0 - DigitsValue(tok.exponent[2..])
    else if tok.exponent[1] == '+' then DigitsValue(tok.exponent[2..])
    else DigitsValue(tok.exponent[1..])
  }

  function Shift(tok: Token): int
    requires WellFormed(tok)
  {
    ExponentValue(tok) - |tok.fraction|
  }

  /** The token's value times 10^d, rounded to an integer: the digits of the
      rounded number. It is the nearest integer, ties going to the even one. */
  function Scaled(tok: Token, d: nat): (q: nat)
    requires WellFormed(tok)
    ensures Shift(tok) + d >= 0 ==> q == Numerator(tok) * Pow10(Shift(tok) + d)
    ensures Shift(tok) + d < 0 ==> 2 * Dist(q * Pow10(-(Shift(tok) + d)), Numerator(tok)) <= Pow10(-(Shift(tok) + d))
    ensures Shift(tok) + d < 0 && 2 * Dist(q * Pow10(-(Shift(tok) + d)), Numerator(tok)) == Pow10(-(Shift(tok) + d))
            ==> q % 2 == 0
  {
    var e := Shift(tok) + d;
    if e >= 0 then Numerator(tok) * Pow10(e) else DivRoundHalfEven(Numerator(tok), Pow10(-e))
  }

  /** `format(rounded, '.{d}f')` of the number whose digits are `q`, with `d`
      of them after the point: the digits are padded to at least `d + 1` and
      the point goes before the last `d`. A negative input keeps its minus
      sign even when it rounds to zero. */
  function Formatted(negative: bool, q: nat, d: nat): (r: string)
  {
    SignText(negative) + Pointed(LeftPad(DecimalString(q), d + 1), d)
  }

  /** The minus sign of a negative number, or nothing. */
  function SignText(negative: bool): string {
    if negative then "-" else ""
  }

  /** `digits` with a point before its last `d` characters (none when `d` is 0). */
  function Pointed(digits: string, d: nat): string
    requires |digits| >= d
  {
    if d == 0 then digits else digits[..|digits| - d] + ("." + digits[|digits| - d..])
  }

  /** The replacement for one matched token. */
  function RoundToken(tok: Token, d: nat): (r: string)
    requires WellFormed(tok)
    ensures FracLen(tok) <= d ==> r == Spelling(tok)
  {
    if FracLen(tok) <= d then Spelling(tok) else Formatted(tok.sign == "-", Scaled(tok, d), d)
  }

  /** `re.sub(pattern, round_number, s)`, for a non-negative precision. */
  function RoundText(s: string, d: nat): (r: string)
    decreases |s|
  {
    match ParseToken(s)
    case Some(tok) =>
      ParseTokenFacts(s);
      RoundToken(tok, d) + RoundText(s[|Spelling(tok)|..], d)
    case None => if s == [] then [] else [s[0]] + RoundText(s[1..], d)
  }

  /** `round_numbers(s, d)`. A negative precision is a malformed format
      specification, which raises as soon as a token is met; a text without
      tokens is returned as it is. */
  function RoundNumbers(s: string, d: int): (r: Result<string>)
    ensures r.Err? <==> d < 0 && !NoToken(s)
    ensures r.Err? ==> r.error == BadPrecision(d)
    ensures r.Ok? && d < 0 ==> r.value == s
  {
    if d >= 0 then Ok(RoundText(s, d))
    else if NoToken(s) then Ok(s)
    else Err(BadPrecision(d))
  }

  /** Text without a token is copied through. */
  lemma {:induction false} NoTokenUnchanged(s: string, d: nat)
    requires NoToken(s)
    ensures RoundText(s, d) == s
    decreases |s|
  {
    if s == [] {
      EmptyText(d);
    } else {
      NoTokenParts(s);
      PlainTextStep(s, d);
      NoTokenUnchanged(s[1..], d);
      ConsTail(s);
    }
  }

  /** Token-free text does not start with a token, and neither does its tail. */
  lemma NoTokenParts(s: string)
    requires NoToken(s) && s != []
    ensures ParseToken(s).None? && NoToken(s[1..])
  {
    assert s[0..] == s;
    forall i | 0 <= i <= |s| - 1 ensures ParseToken(s[1..][i..]).None? {
      assert s[1..][i..] == s[i + 1..];
    }
  }

  lemma ConsTail(s: string)
    requires s != []
    ensures [s[0]] + s[1..] == s
  {
  }

  /** Where a token's point is. */
  lemma TokenPoint(t: string) returns (k: nat)
    requires ParseToken(t).Some?
    ensures k < |t| && t[k] == '.'
  {
    var tok := ParseToken(t).value;
    k := |tok.sign| + |tok.whole|;
    assert Spelling(tok)[k] == '.';
  }

  /** Text without a point holds no token. */
  lemma NoPointNoToken(s: string)
    requires forall k :: 0 <= k < |s| ==> s[k] != '.'
    ensures NoToken(s)
  {
    forall i | 0 <= i <= |s| ensures ParseToken(s[i..]).None? {
      if ParseToken(s[i..]).Some? {
        var k := TokenPoint(s[i..]);
        assert false;
      }
    }
  }

  lemma SignLocal(u: string, v: string)
    requires v == [] || !IsNumeral(v[0])
    ensures SignAt(u + v) == SignAt(u)
  {
    if u == [] { assert u + v == v; }
  }

  /** A digit run is unaffected by what follows it when that begins with a
      character no token can continue with. */
  lemma {:induction false} DigitsLocal(u: string, v: string)
    requires v == [] || !IsNumeral(v[0])
    ensures DigitsAt(u + v) == DigitsAt(u)
  {
    if u == [] {
      assert u + v == v;
    } else {
      assert (u + v)[1..] == u[1..] + v;
      DigitsLocal(u[1..], v);
    }
  }

  lemma ExponentLocal(u: string, v: string)
    requires v == [] || !IsNumeral(v[0])
    ensures ExponentAt(u + v) == ExponentAt(u)
  {
    var t := u + v;
    if |u| >= 2 && IsExponentMark(u[0]) {
      assert t[1..] == u[1..] + v;
      SignLocal(u[1..], v);
      var sg := SignAt(u[1..]);
      assert t[1 + |sg|..] == u[1 + |sg|..] + v;
      DigitsLocal(u[1 + |sg|..], v);
    } else if |u| == 1 && IsExponentMark(u[0]) && v != [] {
      assert t[1..] == v;
      assert SignAt(v) == "";
      assert t[1..][0..] == v;
      assert DigitsAt(v) == [];
    } else if u == [] {
      assert t == v;
    }
  }

  lemma AfterWholeLocal(sign: string, whole: string, u: string, v: string)
    requires v == [] || !IsNumeral(v[0])
    ensures TokenAfterWhole(sign, whole, u + v) == TokenAfterWhole(sign, whole, u)
  {
    var t := u + v;
    if u == [] {
      assert t == v;
    } else if u[0] == '.' {
      DropFromJoin(u, v, 1);
      DigitsLocal(u[1..], v);
      var f := DigitsAt(u[1..]);
      DropFromJoin(u[1..], v, |f|);
      ExponentLocal(u[1..][|f|..], v);
    }
  }

  /** The token at the start of a text is unaffected by what follows the
      text when that begins with a character no token can continue with. */
  lemma ParseLocal(u: string, v: string)
    requires v == [] || !IsNumeral(v[0])
    ensures ParseToken(u + v) == ParseToken(u)
  {
    var t := u + v;
    SignLocal(u, v);
    var sign := SignAt(u);
    assert t[|sign|..] == u[|sign|..] + v;
    DigitsLocal(u[|sign|..], v);
    var whole := DigitsAt(u[|sign|..]);
    assert t[|sign|..][|whole|..] == u[|sign|..][|whole|..] + v;
    AfterWholeLocal(sign, whole, u[|sign|..][|whole|..], v);
  }

  /** Rounding is local: a text that is cut in front of a character no token
      can continue with is rounded piece by piece. */
  lemma {:induction false} SplitAt(u: string, v: string, d: nat)
    requires v == [] || !IsNumeral(v[0])
    ensures RoundText(u + v, d) == RoundText(u, d) + RoundText(v, d)
    decreases |u|
  {
    var t := u + v;
    if u == [] {
      assert t == v;
      EmptyText(d);
    } else {
      ParseLocal(u, v);
      if ParseToken(u).Some? {
        var tok := ParseToken(u).value;
        var n := |Spelling(tok)|;
        TokenStep(u, d);
        TokenStep(t, d);
        DropFromJoin(u, v, n);
        SplitAt(u[n..], v, d);
        ConcatAssoc(RoundToken(tok, d), RoundText(u[n..], d), RoundText(v, d));
      } else {
        PlainTextStep(u, d);
        PlainTextStep(t, d);
        DropFromJoin(u, v, 1);
        SplitAt(u[1..], v, d);
        ConcatAssoc([u[0]], RoundText(u[1..], d), RoundText(v, d));
      }
    }
  }

  /** A token at the start is replaced and rounding resumes after it. */
  lemma TokenStep(s: string, d: nat)
    requires ParseToken(s).Some?
    ensures var tok := ParseToken(s).value;
            |Spelling(tok)| <= |s| && WellFormed(tok)
            && RoundText(s, d) == RoundToken(tok, d) + RoundText(s[|Spelling(tok)|..], d)
  {
  }

  /** Where no token starts, one character is copied. */
  lemma PlainTextStep(s: string, d: nat)
    requires s != [] && ParseToken(s).None?
    ensures RoundText(s, d) == [s[0]] + RoundText(s[1..], d)
  {
  }

  lemma EmptyText(d: nat)
    ensures RoundText([], d) == []
  {
    assert ParseToken([]).None?;
  }

  /** Nothing is left after the whole text. */
  lemma EmptyTail(t: string, d: nat)
    ensures RoundText(t[|t|..], d) == [] && t + [] == t
  {
    assert t[|t|..] == [];
    EmptyText(d);
  }

  /** A character no token can start with is copied. */
  lemma PlainStep(c: char, w: string, d: nat)
    requires !IsNumeral(c)
    ensures RoundText([c] + w, d) == [c] + RoundText(w, d)
  {
    assert ([c] + w)[1..] == w;
    assert ParseToken([c] + w).None?;
  }

  /** A digit string followed by a non-digit is read whole. */
  lemma {:induction false} DigitsAtPrefix(x: string, y: string)
    requires AllDigits(x) && (y == [] || !IsDigit(y[0]))
    ensures DigitsAt(x + y) == x
  {
    if x == [] {
      assert x + y == y;
    } else {
      assert (x + y)[1..] == x[1..] + y;
      DigitsAtPrefix(x[1..], y);
      assert x == [x[0]] + x[1..];
    }
  }

  /** The token read back from a formatted number with at least one decimal
      place: the whole text, exactly `d` places, no exponent, the same sign,
      and the rounded digits as its numerator. */
  lemma {:induction false} FormattedReadsBack(negative: bool, q: nat, d: nat)
    requires d >= 1
    ensures ParseToken(Formatted(negative, q, d)).Some?
    ensures var tok := ParseToken(Formatted(negative, q, d)).value;
            Spelling(tok) == Formatted(negative, q, d) && FracLen(tok) == d && tok.exponent == ""
            && (tok.sign == "-" <==> negative) && Numerator(tok) == q
  {
    var sign, w, fr := FormattedShape(negative, q, d);
    ReadParts(sign, w, fr);
    var tok := Token(sign, w, fr, []);
    assert ParseToken(Formatted(negative, q, d)) == Some(tok);
    assert Numerator(tok) == q;
  }

  /** A token with more places than asked for becomes a fixed-point number
      with exactly `d` places and no exponent, of the token's sign, whose
      digits are the token's value times 10^d rounded half to even. */
  lemma LongTokenRounded(tok: Token, d: nat)
    requires WellFormed(tok) && FracLen(tok) > d >= 1
    ensures ParseToken(RoundToken(tok, d)).Some?
    ensures var t := ParseToken(RoundToken(tok, d)).value;
            Spelling(t) == RoundToken(tok, d) && FracLen(t) == d && t.exponent == ""
            && (t.sign == "-" <==> tok.sign == "-") && Numerator(t) == Scaled(tok, d)
  {
    FormattedReadsBack(tok.sign == "-", Scaled(tok, d), d);
  }

  /** The formatted number is a sign, whole digits, a point and `d` fraction
      digits, all of which read back as `q`. */
  lemma FormattedShape(negative: bool, q: nat, d: nat) returns (sign: string, w: string, fr: string)
    requires d >= 1
    ensures sign == if negative then "-" else ""
    ensures Formatted(negative, q, d) == sign + (w + ("." + fr))
    ensures AllDigits(w) && |w| >= 1 && AllDigits(fr) && |fr| == d
    ensures AllDigits(w + fr) && DigitsValue(w + fr) == q
  {
    sign := if negative then "-" else "";
    var digits := LeftPad(DecimalString(q), d + 1);
    var n := |digits| - d;
    w := digits[..n];
    fr := digits[n..];
    FormattedUnfold(negative, q, d, digits);
    PaddedValue(q, d + 1);
    CutDigits(digits, n);
    CutJoin(digits, n);
  }

  lemma FormattedUnfold(negative: bool, q: nat, d: nat, digits: string)
    requires d >= 1 && digits == LeftPad(DecimalString(q), d + 1)
    ensures Formatted(negative, q, d)
            == SignText(negative) + (digits[..|digits| - d] + ("." + digits[|digits| - d..]))
  {
  }

  lemma PaddedValue(q: nat, n: nat)
    ensures AllDigits(LeftPad(DecimalString(q), n)) && DigitsValue(LeftPad(DecimalString(q), n)) == q
  {
    LeftPadValue(DecimalString(q), n);
    DecimalStringValue(q);
  }

  lemma CutDigits(s: string, k: nat)
    requires AllDigits(s) && k <= |s|
    ensures AllDigits(s[..k]) && AllDigits(s[k..])
  {
    var a, b := s[..k], s[k..];
    forall j | 0 <= j < |a| ensures IsDigit(a[j]) { assert a[j] == s[j]; }
    forall j | 0 <= j < |b| ensures IsDigit(b[j]) { assert b[j] == s[k + j]; }
  }

  /** A sign, whole digits, a point and fraction digits read back as themselves. */
  lemma ReadParts(sign: string, w: string, fr: string)
    requires sign == "" || sign == "-"
    requires AllDigits(w) && |w| >= 1 && AllDigits(fr) && |fr| >= 1
    ensures ParseToken(sign + (w + ("." + fr))) == Some(Token(sign, w, fr, []))
    ensures Spelling(Token(sign, w, fr, [])) == sign + (w + ("." + fr))
  {
    assert fr + [] == fr;
    var rest := w + ("." + fr);
    DigitsAtPrefix(w, "." + fr);
    SignBeforeDigit(sign, rest);
    JoinParts(sign, rest);
    JoinParts(w, "." + fr);
    ReadPoint(sign, w, fr);
  }

  /** An explicit sign, or none before a digit, is read as written. */
  lemma SignBeforeDigit(sign: string, rest: string)
    requires sign == "" || sign == "-"
    requires rest != [] && IsDigit(rest[0])
    ensures SignAt(sign + rest) == sign
  {
    if sign == "" { assert sign + rest == rest; }
  }

  /** A point and fraction digits, with nothing after them, end the token. */
  lemma ReadPoint(sign: string, w: string, fr: string)
    requires AllDigits(fr) && |fr| >= 1
    ensures TokenAfterWhole(sign, w, "." + fr) == Some(Token(sign, w, fr, []))
  {
    JoinParts(".", fr);
    DigitsAtPrefix(fr, []);
    JoinParts(fr, []);
    assert fr + [] == fr;
  }

  /** Rounding a token's replacement again changes nothing: a token short
      enough is kept, a formatted one has exactly `d` places, and with no
      places it has no point left. */
  lemma ReplacementStable(tok: Token, d: nat)
    requires WellFormed(tok) && ParseToken(Spelling(tok)) == Some(tok)
    ensures RoundText(RoundToken(tok, d), d) == RoundToken(tok, d)
  {
    if FracLen(tok) <= d {
      TokenAlone(tok, d);
    } else if d >= 1 {
      FormattedStable(tok.sign == "-", Scaled(tok, d), d);
    } else {
      UnpointedStable(tok.sign == "-", Scaled(tok, d));
    }
  }

  /** A number formatted with at least one place is kept by a second pass. */
  lemma FormattedStable(negative: bool, q: nat, d: nat)
    requires d >= 1
    ensures RoundText(Formatted(negative, q, d), d) == Formatted(negative, q, d)
  {
    FormattedReadsBack(negative, q, d);
    TokenAlone(ParseToken(Formatted(negative, q, d)).value, d);
  }

  /** A number formatted with no places has no point, so no token. */
  lemma UnpointedStable(negative: bool, q: nat)
    ensures RoundText(Formatted(negative, q, 0), 0) == Formatted(negative, q, 0)
  {
    var sign := if negative then "-" else "";
    var digits := LeftPad(DecimalString(q), 1);
    var r := Formatted(negative, q, 0);
    assert r == sign + digits;
    forall k | 0 <= k < |r| ensures r[k] != '.' {
      if k >= |sign| { assert r[k] == digits[k - |sign|]; }
    }
    NoPointNoToken(r);
    NoTokenUnchanged(r, 0);
  }

  /** A text that is exactly one short-enough token is kept. */
  lemma TokenAlone(tok: Token, d: nat)
    requires WellFormed(tok) && FracLen(tok) <= d
    requires ParseToken(Spelling(tok)) == Some(tok)
    ensures RoundText(Spelling(tok), d) == Spelling(tok)
  {
    var t := Spelling(tok);
    EmptyTail(t, d);
    TokenThen(t, d, tok, |t|, t, []);
  }

  /** A run of token characters that is either token-free or one token. */
  predicate RunIsClean(r: string) {
    NoToken(r) || (ParseToken(r).Some? && Spelling(ParseToken(r).value) == r)
  }

  /** Every maximal run of token characters is token-free or exactly one
      token: then no rounding can expose a new token. */
  predicate Separated(s: string)
    decreases |s|
  {
    var k := RunLen(IsNumeral, s);
    RunIsClean(s[..k]) && (k == |s| || Separated(s[k + 1..]))
  }

  lemma RunStable(r: string, d: nat)
    requires RunIsClean(r)
    ensures RoundText(RoundText(r, d), d) == RoundText(r, d)
  {
    if NoToken(r) {
      NoTokenUnchanged(r, d);
    } else {
      var tok := ParseToken(r).value;
      TokenStep(r, d);
      assert r[|Spelling(tok)|..] == [];
      EmptyText(d);
      assert RoundToken(tok, d) + [] == RoundToken(tok, d);
      ReplacementStable(tok, d);
    }
  }

  /** Rounding twice is rounding once, on text whose number tokens stand
      alone in their runs of token characters. */
  lemma {:induction false} Idempotent(s: string, d: nat)
    requires Separated(s)
    ensures RoundText(RoundText(s, d), d) == RoundText(s, d)
    decreases |s|
  {
    var k := RunLen(IsNumeral, s);
    var run := s[..k];
    if k == |s| {
      assert run == s;
      RunStable(run, d);
    } else {
      var c := s[k];
      var w := s[k + 1..];
      assert s == run + ([c] + w);
      SplitAt(run, [c] + w, d);
      PlainStep(c, w, d);
      var r1 := RoundText(run, d);
      var w1 := RoundText(w, d);
      assert RoundText(s, d) == r1 + ([c] + w1);
      SplitAt(r1, [c] + w1, d);
      PlainStep(c, w1, d);
      RunStable(run, d);
      Idempotent(w, d);
    }
  }

  /** A token without sign or exponent, followed by text that cannot
      continue it, is read as it is written. */
  lemma ReadPlain(w: string, f: string, rest: string, t: string)
    requires AllDigits(w) && AllDigits(f) && |f| >= 1
    requires rest == [] || (!IsDigit(rest[0]) && !IsExponentMark(rest[0]))
    requires t == w + ("." + (f + rest))
    ensures ParseToken(t) == Some(Token("", w, f, ""))
  {
    assert t[0] != '-' && t[0] != '+' by {
      if w != [] { assert t[0] == w[0]; } else { assert t[0] == '.'; }
    }
    assert t[0..] == t;
    DigitsAtPrefix(w, "." + (f + rest));
    JoinParts(w, "." + (f + rest));
    assert ("." + (f + rest))[1..] == f + rest;
    DigitsAtPrefix(f, rest);
    JoinParts(f, rest);
  }

  /** `0.56` to one place: `0.6`. */
  lemma RoundedExampleFirst()
    ensures RoundToken(Token("", "", "56", ""), 1) == "0.6"
  {
    var tok := Token("", "", "56", "");
    ExampleValue("5", 0, '5');
    ExampleValue("56", 5, '6');
    assert tok.whole + tok.fraction == "56";
    ExampleDivisions();
    ExampleScaled(tok, 56, 6);
    ExampleFormatted(6, "6", "06", "0.6");
  }

  /** `1.10` to one place: `1.1`. */
  lemma RoundedExampleSecond()
    ensures RoundToken(Token("", "1", "10", ""), 1) == "1.1"
  {
    var tok := Token("", "1", "10", "");
    ExampleValue("1", 0, '1');
    ExampleValue("11", 1, '1');
    ExampleValue("110", 11, '0');
    assert tok.whole + tok.fraction == "110";
    ExampleDivisions();
    ExampleScaled(tok, 110, 11);
    ExampleFormatted(11, "11", "11", "1.1");
  }

  lemma ExampleDivisions()
    ensures DivRoundHalfEven(56, 10) == 6 && DivRoundHalfEven(110, 10) == 11
  {
  }

  /** The value of a digit string from the value of all but its last digit. */
  lemma ExampleValue(s: string, front: nat, last: char)
    requires AllDigits(s) && |s| >= 1 && s[|s| - 1] == last
    requires DigitsValue(s[..|s| - 1]) == front
    ensures DigitsValue(s) == 10 * front + DigitValue(last)
  {
  }

  /** A two-place token with numerator `n`, rounded to one place. */
  lemma ExampleScaled(tok: Token, n: nat, q: nat)
    requires WellFormed(tok) && |tok.fraction| == 2 && tok.exponent == ""
    requires Numerator(tok) == n && q == DivRoundHalfEven(n, 10)
    ensures RoundToken(tok, 1) == Formatted(tok.sign == "-", q, 1)
  {
    assert Shift(tok) + 1 == -1;
    ScaledDown(tok, 1);
    assert Pow10(1) == 10;
  }

  /** With fewer places asked for than the token has, the digits are divided
      and rounded. */
  lemma ScaledDown(tok: Token, d: nat)
    requires WellFormed(tok) && Shift(tok) + d < 0
    ensures Scaled(tok, d) == DivRoundHalfEven(Numerator(tok), Pow10(-(Shift(tok) + d)))
  {
  }

  /** `format(x, '.1f')` of a non-negative number with digits `q`. */
  lemma ExampleFormatted(q: nat, digits: string, padded: string, r: string)
    requires DecimalString(q) == digits && LeftPad(digits, 2) == padded && |padded| == 2
    requires r == [padded[0]] + "." + [padded[1]]
    ensures Formatted(false, q, 1) == r
  {
  }

  /** `TokenStep` with the pieces named. */
  lemma TokenThen(s: string, d: nat, tok: Token, n: nat, head: string, tail: string)
    requires ParseToken(s) == Some(tok) && n == |Spelling(tok)|
    requires RoundToken(tok, d) == head && RoundText(s[n..], d) == tail
    ensures RoundText(s, d) == head + tail
  {
    TokenStep(s, d);
  }

  lemma ShortTokenKept()
    ensures RoundToken(Token("", "1", "1", ""), 1) == "1.1"
    ensures RoundToken(Token("", "", "6", ""), 1) == ".6"
  {
  }

  lemma ExampleJoins()
    ensures "1.1" + "0.6" == "1.10.6" && "1.1" + ".6" == "1.1.6"
  {
  }

  lemma FirstPassTail(t: string)
    requires t == ".56"
    ensures RoundText(t, 1) == "0.6"
  {
    ReadPlain("", "56", "", t);
    assert t[3..] == [];
    EmptyText(1);
    RoundedExampleFirst();
    TokenThen(t, 1, Token("", "", "56", ""), 3, "0.6", "");
  }

  lemma FirstPass(s: string)
    requires s == "1.1.56"
    ensures RoundText(s, 1) == "1.10.6"
  {
    ReadPlain("1", "1", ".56", s);
    FirstPassTail(s[3..]);
    ShortTokenKept();
    TokenThen(s, 1, Token("", "1", "1", ""), 3, "1.1", "0.6");
    ExampleJoins();
  }

  lemma SecondPassTail(t: string)
    requires t == ".6"
    ensures RoundText(t, 1) == ".6"
  {
    ReadPlain("", "6", "", t);
    assert t[2..] == [];
    EmptyText(1);
    ShortTokenKept();
    TokenThen(t, 1, Token("", "", "6", ""), 2, ".6", "");
  }

  lemma SecondPass(s: string)
    requires s == "1.10.6"
    ensures RoundText(s, 1) == "1.1.6"
  {
    ReadPlain("1", "10", ".6", s);
    SecondPassTail(s[4..]);
    RoundedExampleSecond();
    TokenThen(s, 1, Token("", "1", "10", ""), 4, "1.1", ".6");
    ExampleJoins();
  }

  /** Rounding is not idempotent on every text: `1.1.56` to one place is
      `1.10.6`, since `1.1` is short enough and `.56` becomes `0.6`; a second
      pass then reads `1.10` as a token and rounds it to `1.1`. */
  lemma NotIdempotent(s: string)
    requires s == "1.1.56"
    ensures RoundText(s, 1) == "1.10.6"
    ensures RoundText(RoundText(s, 1), 1) == "1.1.6"
    ensures RoundText(RoundText(s, 1), 1) != RoundText(s, 1)
  {
    FirstPass(s);
    SecondPass(RoundText(s, 1));
  }
}
