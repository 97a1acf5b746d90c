/** The field extractors of `crystallm/_utils.py`: each is one `re.search`
    that returns a capture group of the first match, or raises when nothing
    matches. */
module Extract {

  import opened Outcomes
  import opened Text

  const FormulaUnitsField := "_cell_formula_units_Z"
  const FormulaSumField := "_chemical_formula_sum"
  const SpaceGroupField := "_symmetry_space_group_name_H-M"

  /** `[.0-9]` */
  predicate IsNumberChar(c: char) { c == '.' || IsDigit(c) }

  predicate IsQuoteFree(c: char) { c != '\'' }

  /** `[A-Za-z0-9]` */
  predicate IsAlnum(c: char) { IsDigit(c) || ('a' <= c <= 'z') || ('A' <= c <= 'Z') }

  /** `[A-Za-z0-9<>-]` */
  predicate IsIdChar(c: char) { IsAlnum(c) || c == '<' || c == '>' || c == '-' }

  /** Group 1 of `{prop}\s+([.0-9]+)` when the pattern matches at the start of
      `t`. The whitespace run and the number run are disjoint classes, so the
      greedy runs never need to give anything back. */
  function NumericGroupAt(t: string, prop: string): (r: Option<string>)
    ensures r.Some? ==> StartsWith(t, prop)
    ensures r.Some? ==> |r.value| >= 1 && forall k :: 0 <= k < |r.value| ==> IsNumberChar(r.value[k])
  {
    if !StartsWith(t, prop) then None
    else
      var rest := t[|prop|..];
      var w := RunLen(IsSpace, rest);
      var v := RunLen(IsNumberChar, rest[w..]);
      if w == 0 || v == 0 then None else Some(rest[w..][..v])
  }

  predicate NumericMatchAt(t: string, prop: string) { NumericGroupAt(t, prop).Some? }

  /** The text `extract_numeric_property` hands to its `numeric_type`: the
      number after the first occurrence of `prop` that is followed by
      whitespace and a run of digits and dots. */
  function NumericToken(s: string, prop: string): (r: Result<string>)
    ensures r.Err? <==> forall i :: 0 <= i <= |s| ==> !NumericMatchAt(s[i..], prop)
    ensures r.Err? ==> r.error == FieldNotFound(prop)
    ensures r.Ok? ==> exists i :: 0 <= i <= |s| && NumericGroupAt(s[i..], prop) == Some(r.value)
                       && forall j :: 0 <= j < i ==> !NumericMatchAt(s[j..], prop)
    ensures r.Ok? ==> |r.value| >= 1 && forall k :: 0 <= k < |r.value| ==> IsNumberChar(r.value[k])
  {
    match Leftmost(t => NumericMatchAt(t, prop), s)
    case None => Err(FieldNotFound(prop))
    case Some(i) => Ok(NumericGroupAt(s[i..], prop).value)
  }

  /** `extract_numeric_property(cif_str, prop, numeric_type)`: the conversion
      `numeric_type` is a parameter, since it may itself raise. */
  function NumericProperty<T>(s: string, prop: string, convert: string -> Result<T>): (r: Result<T>)
    ensures NumericToken(s, prop).Err? ==> r == Err(FieldNotFound(prop))
    ensures NumericToken(s, prop).Ok? ==> r == convert(NumericToken(s, prop).value)
  {
    var token :- NumericToken(s, prop);
    convert(token)
  }

  /** `int()` applied to a run of digits and dots: it accepts the run only when
      it is not empty and holds no dot. */
  function ParseInt(token: string): (r: Result<nat>)
    ensures r.Ok? <==> |token| >= 1 && AllDigits(token)
    ensures r.Ok? ==> DigitsValue(token) == r.value
    ensures r.Err? ==> r.error == NotAnInteger(token)
  {
    if |token| >= 1 && AllDigits(token) then Ok(DigitsValue(token)) else Err(NotAnInteger(token))
  }

  /** `extract_formula_units`: Z, read with `int()`. A value such as `2.0`
      matches the pattern and then fails the conversion. */
  function FormulaUnits(s: string): (r: Result<nat>)
    ensures r.Ok? <==> NumericToken(s, FormulaUnitsField).Ok? && AllDigits(NumericToken(s, FormulaUnitsField).value)
    ensures r.Ok? ==> r.value == DigitsValue(NumericToken(s, FormulaUnitsField).value)
    ensures NumericToken(s, FormulaUnitsField).Ok? && !AllDigits(NumericToken(s, FormulaUnitsField).value)
            ==> r == Err(NotAnInteger(NumericToken(s, FormulaUnitsField).value))
  {
    NumericProperty(s, FormulaUnitsField, ParseInt)
  }

  /** `{field}\s+('([^']+)'|(\S+))` at the start of `t`, answering group 2
      when the quoted branch matched and group 3 otherwise. After the greedy
      whitespace run the next character is not whitespace, so the bare branch
      always succeeds there; giving back whitespace cannot help either branch. */
  function QuotedOrBareAt(t: string, field: string): (r: Option<string>)
    ensures r.Some? ==> StartsWith(t, field) && |r.value| >= 1
    ensures r.Some? ==> (forall k :: 0 <= k < |r.value| ==> r.value[k] != '\'')
                        || (forall k :: 0 <= k < |r.value| ==> IsNonSpace(r.value[k]))
  {
    if !StartsWith(t, field) then None
    else
      var rest := t[|field|..];
      var w := RunLen(IsSpace, rest);
      if w == 0 || w == |rest| then None
      else
        var v := rest[w..];
        var q := RunLen(IsQuoteFree, v[1..]);
        if v[0] == '\'' && 1 <= q < |v| - 1 then Some(v[1..][..q])
        else Some(v[..RunLen(IsNonSpace, v)])
  }

  predicate QuotedOrBareMatchAt(t: string, field: string) { QuotedOrBareAt(t, field).Some? }

  /** The value of the first `field` field: the text between the quotes when
      it is quoted, otherwise the first run of non-space characters. */
  function QuotedOrBareValue(s: string, field: string): (r: Result<string>)
    ensures r.Err? <==> forall i :: 0 <= i <= |s| ==> !QuotedOrBareMatchAt(s[i..], field)
    ensures r.Err? ==> r.error == FieldNotFound(field)
    ensures r.Ok? ==> exists i :: 0 <= i <= |s| && QuotedOrBareAt(s[i..], field) == Some(r.value)
                       && forall j :: 0 <= j < i ==> !QuotedOrBareMatchAt(s[j..], field)
    ensures r.Ok? ==> |r.value| >= 1
    ensures r.Ok? ==> (forall k :: 0 <= k < |r.value| ==> r.value[k] != '\'')
                      || (forall k :: 0 <= k < |r.value| ==> IsNonSpace(r.value[k]))
  {
    match Leftmost(t => QuotedOrBareMatchAt(t, field), s)
    case None => Err(FieldNotFound(field))
    case Some(i) => Ok(QuotedOrBareAt(s[i..], field).value)
  }

  /** `extract_space_group_symbol` */
  function SpaceGroupSymbol(s: string): (r: Result<string>)
    ensures r.Err? <==> forall i :: 0 <= i <= |s| ==> !QuotedOrBareMatchAt(s[i..], SpaceGroupField)
    ensures r.Ok? ==> |r.value| >= 1
  {
    QuotedOrBareValue(s, SpaceGroupField)
  }

  /** `extract_formula_nonreduced` */
  function FormulaNonreduced(s: string): (r: Result<string>)
    ensures r.Err? <==> forall i :: 0 <= i <= |s| ==> !QuotedOrBareMatchAt(s[i..], FormulaSumField)
    ensures r.Ok? ==> |r.value| >= 1
  {
    QuotedOrBareValue(s, FormulaSumField)
  }

  /** Group 1 of `data_([A-Za-z0-9]+)\n` at the start of `t`. */
  function DataIdAt(t: string): (r: Option<string>)
    ensures r.Some? ==> |r.value| >= 1 && forall k :: 0 <= k < |r.value| ==> IsAlnum(r.value[k])
  {
    if !StartsWith(t, "data_") then None
    else
      var a := RunLen(IsAlnum, t[5..]);
      if a == 0 || 5 + a >= |t| || t[5 + a] != '\n' then None else Some(t[5..5 + a])
  }

  /** Group 1 of `data_([A-Za-z0-9<>-]+_miller_[0-9]+)` at the start of `t`.
      `_` is outside the identifier class, so the greedy run is followed by
      `_miller_` or the match fails. */
  function MillerIdAt(t: string): (r: Option<string>)
    ensures r.Some? ==> |r.value| >= 1
  {
    if !StartsWith(t, "data_") then None
    else
      var a := RunLen(IsIdChar, t[5..]);
      if a == 0 || !StartsWith(t[5 + a..], "_miller_") then None
      else
        var d := RunLen(IsDigit, t[5 + a + 8..]);
        if d == 0 then None else Some(t[5..5 + a + 8 + d])
  }

  predicate DataIdMatchAt(t: string) { DataIdAt(t).Some? }
  predicate MillerIdMatchAt(t: string) { MillerIdAt(t).Some? }

  /** `extract_data_formula`: the first plain `data_` identifier ending its
      line; failing that, the first identifier carrying a `_miller_` tag. */
  function DataFormula(s: string): (r: Result<string>)
    ensures r.Err? <==> (forall i :: 0 <= i <= |s| ==> !DataIdMatchAt(s[i..]))
                        && (forall i :: 0 <= i <= |s| ==> !MillerIdMatchAt(s[i..]))
    ensures (exists i :: 0 <= i <= |s| && DataIdMatchAt(s[i..])) ==>
              r.Ok? && exists i :: 0 <= i <= |s| && DataIdAt(s[i..]) == Some(r.value)
                                  && forall j :: 0 <= j < i ==> !DataIdMatchAt(s[j..])
    ensures (forall i :: 0 <= i <= |s| ==> !DataIdMatchAt(s[i..])) && r.Ok? ==>
              exists i :: 0 <= i <= |s| && MillerIdAt(s[i..]) == Some(r.value)
                          && forall j :: 0 <= j < i ==> !MillerIdMatchAt(s[j..])
    ensures (exists i :: 0 <= i <= |s| && DataIdMatchAt(s[i..])) ==>
              r.Ok? && forall k :: 0 <= k < |r.value| ==> IsAlnum(r.value[k])
    ensures r.Ok? ==> |r.value| >= 1
  {
    match Leftmost(DataIdMatchAt, s)
    case Some(i) => Ok(DataIdAt(s[i..]).value)
    case None =>
      match Leftmost(MillerIdMatchAt, s)
      case Some(i) => Ok(MillerIdAt(s[i..]).value)
      case None => Err(FieldNotFound("data_"))
  }
}
