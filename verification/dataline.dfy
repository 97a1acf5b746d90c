/** `replace_data_formula_with_nonreduced_formula`: the identifier on every
    `data_` line is replaced by the record's non-reduced chemical formula,
    optionally tagged with a Miller index. */
module DataLine {

  import opened Outcomes
  import opened Text
  import Extract

  /** `.` without DOTALL: any character but a newline. */
  predicate IsLineChar(c: char) { c != '\n' }

  predicate NoNewline(s: string) { forall k :: 0 <= k < |s| ==> s[k] != '\n' }

  /** `(.+)\n` at the start of `x`: the rest of the line, when it is not empty
      and a newline ends it. The group cannot stop early, since the newline it
      must be followed by is outside its class. */
  function LineAt(x: string): (r: Option<string>)
    ensures r.Some? <==> 0 < RunLen(IsLineChar, x) < |x|
    ensures r.Some? ==> 1 <= |r.value| < |x| && x[..|r.value|] == r.value && x[|r.value|] == '\n'
    ensures r.Some? ==> NoNewline(r.value)
  {
    var n := RunLen(IsLineChar, x);
    if n == 0 || n == |x| then None else Some(x[..n])
  }

  /** The `\s+` before the group gives characters back one at a time, from
      `k` down to 1, until the group can start there. */
  function GroupFrom(rest: string, k: nat): (r: Option<string>)
    requires k <= |rest|
    ensures r.Some? ==> exists j :: 1 <= j <= k && LineAt(rest[j..]) == r
    ensures r.None? ==> forall j :: 1 <= j <= k ==> LineAt(rest[j..]).None?
  {
    if k == 0 then None
    else match LineAt(rest[k..])
      case Some(g) => Some(g)
      case None => GroupFrom(rest, k - 1)
  }

  /** Group 1 of `_chemical_formula_sum\s+(.+)\n` at the start of `t`. */
  function FormulaLineAt(t: string): (r: Option<string>)
    ensures r.Some? ==> StartsWith(t, Extract.FormulaSumField)
    ensures r.Some? ==> |r.value| >= 1 && NoNewline(r.value)
  {
    if !StartsWith(t, Extract.FormulaSumField) then None
    else
      var rest := t[|Extract.FormulaSumField|..];
      GroupFrom(rest, RunLen(IsSpace, rest))
  }

  predicate FormulaLineMatchAt(t: string) { FormulaLineAt(t).Some? }

  /** The first formula line's value, or the failure
      `replace_data_formula_with_nonreduced_formula` raises when
      the record has none. */
  function FormulaLine(s: string): (r: Result<string>)
    ensures r.Err? <==> forall i :: 0 <= i <= |s| ==> !FormulaLineMatchAt(s[i..])
    ensures r.Err? ==> r.error == FieldNotFound(Extract.FormulaSumField)
    ensures r.Ok? ==> exists i :: 0 <= i <= |s| && FormulaLineAt(s[i..]) == Some(r.value)
                       && forall j :: 0 <= j < i ==> !FormulaLineMatchAt(s[j..])
    ensures r.Ok? ==> |r.value| >= 1 && NoNewline(r.value)
  {
    match Leftmost(FormulaLineMatchAt, s)
    case None => Err(FieldNotFound(Extract.FormulaSumField))
    case Some(i) => Ok(FormulaLineAt(s[i..]).value)
  }

  predicate IsDropped(c: char) { c == '\'' || c == ' ' }

  /** `.replace("'", "").replace(" ", "")`: every quote and space removed,
      every other character kept in order. */
  function Strip(f: string): (r: string)
    ensures |r| <= |f|
    ensures forall k :: 0 <= k < |r| ==> !IsDropped(r[k])
    ensures multiset(r) <= multiset(f)
    ensures forall c :: !IsDropped(c) ==> multiset(r)[c] == multiset(f)[c]
    ensures (forall k :: 0 <= k < |f| ==> !IsDropped(f[k])) ==> r == f
  {
    if f == [] then []
    else if IsDropped(f[0]) then
      assert multiset(f) == multiset([f[0]]) + multiset(f[1..]) by { assert f == [f[0]] + f[1..]; }
      Strip(f[1..])
    else
      assert multiset(f) == multiset([f[0]]) + multiset(f[1..]) by { assert f == [f[0]] + f[1..]; }
      [f[0]] + Strip(f[1..])
  }

  /** Stripping works piece by piece, so the kept characters stay in their
      order: with the one-character cases above, this fixes the result. */
  lemma {:induction false} StripAppend(a: string, b: string)
    ensures Strip(a + b) == Strip(a) + Strip(b)
  {
    if a == [] {
      assert a + b == b;
    } else {
      assert (a + b)[0] == a[0] && (a + b)[1..] == a[1..] + b;
      StripAppend(a[1..], b);
    }
  }

  /** The `miller_index` argument: absent, a list or tuple of integers, or
      any other value, given here by its `str()` text. */
  datatype MillerIndex = NoIndex | Indices(values: seq<int>) | Label(text: string)

  function Abs(x: int): nat { if x < 0 then -x else x }

  /** `"".join(str(abs(x)) for x in values)` */
  function JoinedDigits(values: seq<int>): (r: string)
    ensures |r| >= |values| && AllDigits(r)
  {
    if values == [] then []
    else
      var head := DecimalString(Abs(values[0]));
      var tail := JoinedDigits(values[1..]);
      assert forall k :: 0 <= k < |head| + |tail| ==> (head + tail)[k] == if k < |head| then head[k] else tail[k - |head|];
      head + tail
  }

  /** The tag appended to the formula. */
  function MillerSuffix(m: MillerIndex): (r: string)
    ensures r == "" <==> m == NoIndex
    ensures m != NoIndex ==> r[0] == '_'
  {
    match m
    case NoIndex => ""
    case Indices(values) => "_miller_" + JoinedDigits(values)
    case Label(text) => "_" + text
  }

  /** The tag of a list index is `_miller_` followed by only digits, one or
      more per component: signs are dropped. */
  lemma IndicesSuffix(values: seq<int>)
    ensures StartsWith(MillerSuffix(Indices(values)), "_miller_")
    ensures AllDigits(MillerSuffix(Indices(values))[8..])
    ensures |MillerSuffix(Indices(values))| >= 8 + |values|
  {
    var r := MillerSuffix(Indices(values));
    assert r[8..] == JoinedDigits(values);
  }

  /** A surface with a negative component: (1, -1, 0) is tagged `_miller_110`. */
  lemma {:induction false} SuffixExample()
    ensures MillerSuffix(Indices([1, -1, 0])) == "_miller_110"
  {
    var v := [1, -1, 0];
    assert v[1..] == [-1, 0] && v[1..][1..] == [0] && v[1..][1..][1..] == [];
    assert DecimalString(1) == "1" && DecimalString(0) == "0";
    assert JoinedDigits([0]) == "0";
    assert JoinedDigits([-1, 0]) == "10";
    assert JoinedDigits(v) == "110";
  }

  const DataTag := "data_"

  /** `(data_)(.*?)(\n)` at the start of `t`: the lazy group ends at the first
      newline, so the match exists iff a newline follows the tag; its length
      is answered. */
  function DataLineAt(t: string): (r: Option<nat>)
    ensures r.Some? ==> 6 <= r.value <= |t| && StartsWith(t, DataTag) && t[r.value - 1] == '\n'
    ensures r.Some? ==> NoNewline(t[5..r.value - 1])
    ensures r.None? && StartsWith(t, DataTag) ==> NoNewline(t[5..])
  {
    if !StartsWith(t, DataTag) then None
    else
      var n := RunLen(IsLineChar, t[5..]);
      if n == |t| - 5 then None else Some(5 + n + 1)
  }

  /** `re.sub(r"(data_)(.*?)(\n)", r'\1' + rep + r'\3', s)`: each `data_` line
      gets `rep` as its identifier; scanning resumes after the newline. */
  function RewriteDataLines(s: string, rep: string): (r: string)
    decreases |s|
  {
    match DataLineAt(s)
    case Some(n) => DataTag + rep + "\n" + RewriteDataLines(s[n..], rep)
    case None => if s == [] then [] else [s[0]] + RewriteDataLines(s[1..], rep)
  }

  predicate NoDataTag(s: string) {
    forall i :: 0 <= i <= |s| ==> !StartsWith(s[i..], DataTag)
  }

  /** Text without a `data_` tag is left as it is. */
  lemma {:induction false} NoDataTagUnchanged(s: string, rep: string)
    requires NoDataTag(s)
    ensures RewriteDataLines(s, rep) == s
    decreases |s|
  {
    if s != [] {
      assert !StartsWith(s[0..], DataTag);
      assert s[0..] == s;
      forall i | 0 <= i <= |s| - 1 ensures !StartsWith(s[1..][i..], DataTag) {
        assert s[1..][i..] == s[i + 1..];
      }
      NoDataTagUnchanged(s[1..], rep);
    }
  }

  /** `data_` overlaps itself nowhere: text without the tag, followed by
      text that starts with it, has no tag starting inside the first part. */
  lemma TagNotInside(x: string, u: string)
    requires |x| >= 1 && NoDataTag(x) && StartsWith(u, DataTag)
    ensures !StartsWith(x + u, DataTag)
  {
    assert x[0..] == x;
    if |x| < 5 {
      assert (x + u)[|x|] == 'd' != DataTag[|x|];
    } else {
      assert (x + u)[..5] == x[..5];
    }
  }

  lemma NoDataTagTail(s: string)
    requires s != [] && NoDataTag(s)
    ensures NoDataTag(s[1..])
  {
    forall i | 0 <= i <= |s| - 1 ensures !StartsWith(s[1..][i..], DataTag) {
      assert s[1..][i..] == s[i + 1..];
    }
  }

  /** Text without a tag in front of a `data_` line is copied unchanged. */
  lemma {:induction false} PrefixCopied(pre: string, u: string, rep: string)
    requires NoDataTag(pre) && StartsWith(u, DataTag)
    ensures RewriteDataLines(pre + u, rep) == pre + RewriteDataLines(u, rep)
    decreases |pre|
  {
    if pre == [] {
      assert pre + u == u;
    } else {
      TagNotInside(pre, u);
      CopyChar(pre + u, rep);
      DropFromJoin(pre, u, 1);
      NoDataTagTail(pre);
      PrefixCopied(pre[1..], u, rep);
      ConcatAssoc([pre[0]], pre[1..], RewriteDataLines(u, rep));
      assert [pre[0]] + pre[1..] == pre;
    }
  }

  /** Where no `data_` tag starts, one character is copied. */
  lemma CopyChar(s: string, rep: string)
    requires s != [] && !StartsWith(s, DataTag)
    ensures RewriteDataLines(s, rep) == [s[0]] + RewriteDataLines(s[1..], rep)
  {
  }

  /** A `data_` line at the start gets `rep` as its identifier, and the
      substitution carries on after its newline. */
  lemma LineRewritten(id: string, rest: string, rep: string)
    requires NoNewline(id)
    ensures RewriteDataLines(DataTag + id + "\n" + rest, rep) == DataTag + rep + "\n" + RewriteDataLines(rest, rep)
  {
    var s := DataTag + id + "\n" + rest;
    assert s[..5] == DataTag;
    assert s[5..] == id + ("\n" + rest);
    RunLenPrefix(IsLineChar, id, "\n" + rest);
    assert s[5 + |id| + 1..] == rest;
  }

  /** One step of the substitution over a whole text: the text before the
      first `data_` line is copied, that line's identifier becomes `rep`,
      and the substitution goes on after the newline. Applied line after
      line, this gives every `data_` line the identifier `rep`. */
  lemma RewriteStep(pre: string, id: string, rest: string, rep: string)
    requires NoDataTag(pre) && NoNewline(id)
    ensures RewriteDataLines(pre + (DataTag + id + "\n" + rest), rep)
            == pre + (DataTag + rep + "\n" + RewriteDataLines(rest, rep))
  {
    PrefixCopied(pre, DataTag + id + "\n" + rest, rep);
    LineRewritten(id, rest, rep);
  }

  /** A record with one `data_` line, after any text without the tag (a
      leading comment, say): its identifier becomes `rep` and the rest of
      the record is untouched. */
  lemma RewritesHeader(pre: string, id: string, rest: string, rep: string)
    requires NoDataTag(pre) && NoNewline(id) && NoDataTag(rest)
    ensures RewriteDataLines(pre + (DataTag + id + "\n" + rest), rep) == pre + (DataTag + rep + "\n" + rest)
  {
    RewriteStep(pre, id, rest, rep);
    NoDataTagUnchanged(rest, rep);
  }

  /** The transform: fails when the record has no formula line, otherwise
      rewrites every `data_` line with the stripped formula and the tag. */
  function ReplaceDataFormula(s: string, m: MillerIndex): (r: Result<string>)
    ensures r.Err? <==> FormulaLine(s).Err?
    ensures r.Err? ==> r.error == FieldNotFound(Extract.FormulaSumField)
    ensures r.Ok? ==> r.value == RewriteDataLines(s, Strip(FormulaLine(s).value) + MillerSuffix(m))
  {
    var formula :- FormulaLine(s);
    Ok(RewriteDataLines(s, Strip(formula) + MillerSuffix(m)))
  }

  /** The transform on a text whose first `data_` line follows text without
      the tag: that line and every later one carries the stripped formula
      and the tag. */
  lemma ReplaceFirstLine(pre: string, id: string, rest: string, m: MillerIndex, s: string)
    requires NoDataTag(pre) && NoNewline(id)
    requires s == pre + (DataTag + id + "\n" + rest)
    requires FormulaLine(s).Ok?
    ensures var rep := Strip(FormulaLine(s).value) + MillerSuffix(m);
            ReplaceDataFormula(s, m) == Ok(pre + (DataTag + rep + "\n" + RewriteDataLines(rest, rep)))
  {
    RewriteStep(pre, id, rest, Strip(FormulaLine(s).value) + MillerSuffix(m));
  }

  /** After the rewrite, `extract_data_formula` reads the replacement back
      from the first `data_` line, whatever follows it, whenever the
      replacement is a plain alphanumeric identifier. */
  lemma DataFormulaAfterRewrite(pre: string, id: string, rest: string, rep: string)
    requires NoDataTag(pre) && NoNewline(id)
    requires |rep| >= 1 && forall k :: 0 <= k < |rep| ==> Extract.IsAlnum(rep[k])
    ensures Extract.DataFormula(RewriteDataLines(pre + (DataTag + id + "\n" + rest), rep)) == Ok(rep)
  {
    RewriteStep(pre, id, rest, rep);
    var u := DataTag + rep + "\n" + RewriteDataLines(rest, rep);
    IdentifierLine(rep, RewriteDataLines(rest, rep), u);
    FirstIdentifier(pre, u, rep);
  }

  /** A `data_` line with an alphanumeric identifier is matched by the plain
      pattern of `extract_data_formula`. */
  lemma IdentifierLine(rep: string, tail: string, u: string)
    requires |rep| >= 1 && forall k :: 0 <= k < |rep| ==> Extract.IsAlnum(rep[k])
    requires u == DataTag + rep + "\n" + tail
    ensures Extract.DataIdAt(u) == Some(rep)
  {
    assert u[..5] == DataTag;
    assert u[5..] == rep + ("\n" + tail);
    RunLenPrefix(Extract.IsAlnum, rep, "\n" + tail);
    assert u[5..5 + |rep|] == rep;
  }

  /** The first plain identifier is the one on the first `data_` line. */
  lemma FirstIdentifier(pre: string, u: string, rep: string)
    requires NoDataTag(pre) && Extract.DataIdAt(u) == Some(rep)
    ensures Extract.DataFormula(pre + u) == Ok(rep)
  {
    var t := pre + u;
    assert t[|pre|..] == u;
    forall j | 0 <= j < |pre| ensures !Extract.DataIdMatchAt(t[j..]) {
      assert t[j..] == pre[j..] + u;
      forall i | 0 <= i <= |pre[j..]| ensures !StartsWith(pre[j..][i..], DataTag) {
        assert pre[j..][i..] == pre[j + i..];
      }
      TagNotInside(pre[j..], u);
    }
  }}
