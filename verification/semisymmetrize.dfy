/** `semisymmetrize_cif`: every symmetry-operator loop body is collapsed to
    the single identity row. The substitution is
    `(_symmetry_equiv_pos_as_xyz\n)(.*?)(?=\n(?:\S| \S))` with DOTALL, whose
    lazy body ends at the first newline that is followed by a non-space or by
    one space and a non-space (the start of the next CIF item). */
module SymmetryLoop {

  import opened Outcomes
  import opened Text

  const Header := "_symmetry_equiv_pos_as_xyz\n"
  const IdentityRow := "  1  'x, y, z'"

  /** The lookahead `(?=\n(?:\S| \S))` holds at the start of `t`. */
  predicate RowBreakAt(t: string) {
    |t| >= 2 && t[0] == '\n' && (IsNonSpace(t[1]) || (t[1] == ' ' && |t| >= 3 && IsNonSpace(t[2])))
  }

  /** Where the lazy `(.*?)` stops in `t`: the first position at which the
      lookahead holds. */
  function BodyLength(t: string): Option<nat>
  {
    if RowBreakAt(t) then Some(0)
    else if t == [] then None
    else match BodyLength(t[1..])
      case None => None
      case Some(k) => Some(k + 1)
  }

  /** `BodyLength` is the leftmost position satisfying the lookahead. */
  lemma {:induction false} BodyLengthIsLeftmost(t: string)
    ensures BodyLength(t) == Leftmost(RowBreakAt, t)
  {
    if !RowBreakAt(t) && t != [] {
      BodyLengthIsLeftmost(t[1..]);
    }
  }

  /** The whole pattern matches at the start of `t`. */
  predicate HeaderMatchAt(t: string) {
    StartsWith(t, Header) && BodyLength(t[|Header|..]).Some?
  }

  /** The substitution, scanning left to right: a match is replaced and
      scanning resumes at the lookahead position; elsewhere one character is
      kept and scanning moves on. */
  function Semisymmetrize(s: string): (r: string)
    decreases |s|
  {
    if HeaderMatchAt(s) then
      var m := BodyLength(s[|Header|..]).value;
      BodyLengthIsLeftmost(s[|Header|..]);
      Header + IdentityRow + Semisymmetrize(s[|Header| + m..])
    else if s == [] then []
    else [s[0]] + Semisymmetrize(s[1..])
  }

  predicate NoMatch(s: string) {
    forall i :: 0 <= i <= |s| ==> !HeaderMatchAt(s[i..])
  }

  /** No match starts before position `n`. */
  predicate NoMatchBefore(t: string, n: nat) {
    forall i :: 0 <= i < n && i <= |t| ==> !HeaderMatchAt(t[i..])
  }

  /** The lookahead holds nowhere before position `n`. */
  predicate NoBreakBefore(t: string, n: nat) {
    forall j :: 0 <= j < n && j <= |t| ==> !RowBreakAt(t[j..])
  }

  predicate NoHeader(s: string) {
    forall i :: 0 <= i <= |s| ==> !StartsWith(s[i..], Header)
  }

  /** Text in which the pattern matches nowhere comes back unchanged. */
  lemma {:induction false} NoMatchUnchanged(s: string)
    requires NoMatch(s)
    ensures Semisymmetrize(s) == s
    decreases |s|
  {
    if s != [] {
      assert !HeaderMatchAt(s[0..]);
      assert forall i :: 0 <= i <= |s| - 1 ==> s[1..][i..] == s[i + 1..];
      NoMatchUnchanged(s[1..]);
    }
  }

  /** Text without the loop header comes back unchanged. */
  lemma {:induction false} NoHeaderUnchanged(s: string)
    requires NoHeader(s)
    ensures Semisymmetrize(s) == s
  {
    assert forall i :: 0 <= i <= |s| ==> !HeaderMatchAt(s[i..]) by {
      forall i | 0 <= i <= |s| ensures !HeaderMatchAt(s[i..]) {
        assert !StartsWith(s[i..], Header);
      }
    }
    NoMatchUnchanged(s);
  }

  /** The first |Header| characters are never rewritten: a replacement only
      ever starts after a complete header. */
  lemma {:induction false} PrefixKept(s: string)
    ensures |Semisymmetrize(s)| >= if |s| < |Header| then |s| else |Header|
    ensures forall k :: 0 <= k < |s| && k < |Header| ==> Semisymmetrize(s)[k] == s[k]
    decreases |s|
  {
    if HeaderMatchAt(s) {
    } else if s != [] {
      PrefixKept(s[1..]);
    }
  }

  /** A break that no earlier position has is what the lazy body stops at. */
  lemma {:induction false} BodyLengthIs(t: string, m: nat)
    requires m <= |t| && RowBreakAt(t[m..])
    requires NoBreakBefore(t, m)
    ensures BodyLength(t) == Some(m)
  {
    BodyLengthIsLeftmost(t);
  }

  /** The header is present at the start but no break follows it anywhere:
      then the pattern matches nowhere in the text. */
  lemma {:induction false} HeaderWithoutBreak(s: string)
    requires StartsWith(s, Header) && !HeaderMatchAt(s)
    ensures NoMatch(s)
  {
    var H := Header;
    var a := s[|H|..];
    BodyLengthIsLeftmost(a);
    forall i | 0 <= i <= |s| ensures !HeaderMatchAt(s[i..]) {
      if i > 0 && StartsWith(s[i..], H) {
        var b := s[i..][|H|..];
        assert b == a[i..];
        BodyLengthIsLeftmost(b);
        forall j | 0 <= j <= |b| ensures !RowBreakAt(b[j..]) {
          assert b[j..] == a[i + j..];
        }
      }
    }
  }

  /** One pass over a text that starts with a match. */
  lemma {:induction false} MatchStep(s: string) returns (rest: string)
    requires HeaderMatchAt(s)
    ensures |rest| < |s| && RowBreakAt(rest)
    ensures Semisymmetrize(s) == Header + IdentityRow + Semisymmetrize(rest)
  {
    var H := Header;
    var m := BodyLength(s[|H|..]).value;
    BodyLengthIsLeftmost(s[|H|..]);
    rest := s[|H| + m..];
    assert s[|H|..][m..] == rest;
  }

  /** The identity row followed by a break is where the second pass stops. */
  lemma {:induction false} RowThenBreak(sr: string)
    requires RowBreakAt(sr)
    ensures BodyLength(IdentityRow + sr) == Some(|IdentityRow|)
  {
    forall j | 0 <= j < |IdentityRow|
      ensures !RowBreakAt((IdentityRow + sr)[j..])
    {
      assert (IdentityRow + sr)[j..][0] == IdentityRow[j];
    }
    assert (IdentityRow + sr)[|IdentityRow|..] == sr;
    BodyLengthIs(IdentityRow + sr, |IdentityRow|);
  }

  /** After one pass, the identity row is followed directly by the break that
      ended the old body, so a second pass replaces the row by itself. */
  lemma {:induction false} Idempotent(s: string)
    ensures Semisymmetrize(Semisymmetrize(s)) == Semisymmetrize(s)
    decreases |s|
  {
    var H := Header;
    if HeaderMatchAt(s) {
      var rest := MatchStep(s);
      PrefixKept(rest);
      assert RowBreakAt(Semisymmetrize(rest));
      ReplacedAgain(Semisymmetrize(rest));
      Idempotent(rest);
    } else if s == [] {
    } else if |s| < |H| {
      assert NoMatch(s);
      NoMatchUnchanged(s);
    } else if StartsWith(s, H) {
      HeaderWithoutBreak(s);
      NoMatchUnchanged(s);
    } else {
      KeptAgain(s);
      Idempotent(s[1..]);
    }
  }

  /** The header and the identity row before a break are a match that a
      second pass replaces by itself. */
  lemma ReplacedAgain(sr: string)
    requires RowBreakAt(sr)
    ensures Semisymmetrize(Header + IdentityRow + sr) == Header + IdentityRow + Semisymmetrize(sr)
  {
    var u := Header + IdentityRow + sr;
    RowThenBreak(sr);
    assert u[|Header|..] == IdentityRow + sr;
    assert u[|Header| + |IdentityRow|..] == sr;
    ReplaceAt(u, |IdentityRow|);
  }

  /** A first character that starts no header stays first after a pass, and
      still starts no match. */
  lemma KeptAgain(s: string)
    requires |s| >= |Header| && !StartsWith(s, Header)
    ensures Semisymmetrize(s) == [s[0]] + Semisymmetrize(s[1..])
    ensures Semisymmetrize(Semisymmetrize(s)) == [s[0]] + Semisymmetrize(Semisymmetrize(s[1..]))
  {
    var tail := Semisymmetrize(s[1..]);
    var u := [s[0]] + tail;
    PrefixKept(s[1..]);
    assert u[..|Header|] == s[..|Header|];
    assert u[1..] == tail;
    KeepChar(s);
    KeepChar(u);
  }

  /** Text before the first match is copied through. */
  lemma {:induction false} SkipPrefix(t: string, n: nat)
    requires n <= |t|
    requires NoMatchBefore(t, n)
    ensures Semisymmetrize(t) == t[..n] + Semisymmetrize(t[n..])
    decreases n
  {
    if n > 0 {
      NoMatchBeforeTail(t, n);
      KeepChar(t);
      SkipPrefix(t[1..], n - 1);
      HeadThenTail(t, n);
      ConcatAssoc([t[0]], t[1..][..n - 1], Semisymmetrize(t[n..]));
    }
  }

  /** Where no match starts, one character is kept. */
  lemma KeepChar(s: string)
    requires s != [] && !HeaderMatchAt(s)
    ensures Semisymmetrize(s) == [s[0]] + Semisymmetrize(s[1..])
  {
  }

  /** No match before `n` leaves none at the start and none before `n - 1`
      in the tail. */
  lemma NoMatchBeforeTail(t: string, n: nat)
    requires 1 <= n <= |t| && NoMatchBefore(t, n)
    ensures t != [] && !HeaderMatchAt(t)
    ensures NoMatchBefore(t[1..], n - 1)
  {
    assert t[0..] == t;
    forall i | 0 <= i < n - 1 && i <= |t| - 1 ensures !HeaderMatchAt(t[1..][i..]) {
      assert t[1..][i..] == t[i + 1..];
    }
  }

  /** A text that starts with the header, whose first break after it is at
      offset `b`, is rewritten there. */
  lemma {:induction false} ReplaceAt(x: string, b: nat)
    requires StartsWith(x, Header) && |Header| + b <= |x|
    requires BodyLength(x[|Header|..]) == Some(b)
    ensures Semisymmetrize(x) == Header + IdentityRow + Semisymmetrize(x[|Header| + b..])
  {
  }

  /** Rewriting a text whose match starts at `n` after a match-free prefix. */
  lemma {:induction false} StepAt(t: string, n: nat, b: nat)
    requires n + |Header| + b <= |t| && StartsWith(t[n..], Header)
    requires NoMatchBefore(t, n)
    requires BodyLength(t[n + |Header|..]) == Some(b)
    ensures Semisymmetrize(t) == t[..n] + Header + IdentityRow + Semisymmetrize(t[n + |Header| + b..])
  {
    SkipPrefix(t, n);
    assert t[n..][|Header|..] == t[n + |Header|..];
    assert t[n..][|Header| + b..] == t[n + |Header| + b..];
    ReplaceAt(t[n..], b);
    var s := Semisymmetrize(t[n + |Header| + b..]);
    ConcatAssoc(t[..n], Header + IdentityRow, s);
    ConcatAssoc(t[..n], Header, IdentityRow);
  }

  /** A record with one symmetry loop: the header's body, however many rows
      it held, becomes the identity row, and the text before the header and
      from the next item on is untouched. */
  lemma {:induction false} CollapsesLoop(pre: string, body: string, rest: string)
    requires NoMatchBefore(pre + Header + body + rest, |pre|)
    requires BodyLength(body + rest) == Some(|body|)
    requires NoHeader(rest)
    ensures Semisymmetrize(pre + Header + body + rest) == pre + Header + IdentityRow + rest
  {
    var t := pre + Header + body + rest;
    assert t[..|pre|] == pre;
    assert t[|pre|..][..|Header|] == Header;
    assert t[|pre| + |Header|..] == body + rest;
    assert t[|pre| + |Header| + |body|..] == rest;
    StepAt(t, |pre|, |body|);
    NoHeaderUnchanged(rest);
  }
}
