/** The atomic-properties block: `get_atomic_props_block` builds a table with
    one row per element of the record's composition, `add_atomic_props_block`
    inserts its rendering before the space-group label, and
    `remove_atom_props_block` cuts such a block out again. Element lookups,
    the parsing of the formula into a composition, the float formatting and
    the rendering of the table as a CIF loop are parameters. */
module AtomProps {

  import opened Outcomes
  import opened Text
  import Extract
  import DataLine

  /** A property as the element lookup answers it. */
  datatype Prop = Missing | NotANumber | Number(value: real)

  /** The properties of one element of the composition. */
  datatype Element = Element(
    symbol: string,
    electronegativity: Prop,
    atomicRadius: Prop,
    averageIonicRadius: Prop,
    oxidationState: Option<real>,
    ionicRadius: Prop)

  /** A table entry: a string the code wrote, or a float placed in the table
      as it is (a fallback-table value or an oxidation number). */
  datatype Cell = Text(text: string) | Raw(value: real)

  /** The external pieces the block depends on: the elements of a formula,
      in sorted order (`None` when the formula does not parse), the
      `f"{v: .4f}"` formatting of a float, and the text of a table rendered
      as a CIF loop with its `data_\n` line removed. */
  datatype Chemistry = Chemistry(
    elementsOf: string -> Option<seq<Element>>,
    format: real -> string,
    render: Table -> string)

  const SymbolColumn := "_atom_type_symbol"
  const ElectronegativityColumn := "_atom_type_electronegativity"
  const RadiusColumn := "_atom_type_radius"
  const IonicRadiusColumn := "_atom_type_ionic_radius"
  const OxidationColumn := "_atom_type_oxidation_number"

  const BaseColumns := [SymbolColumn, ElectronegativityColumn, RadiusColumn, IonicRadiusColumn]

  /** Van der Waals radii of the noble gases, used when the atomic radius is missing. */
  const NobleVdwRadii: map<string, real> :=
    map["He" := 1.40, "Ne" := 1.54, "Ar" := 1.88, "Kr" := 2.02, "Xe" := 2.16, "Rn" := 2.20]

  /** Allen electronegativities, used when the electronegativity is NaN. */
  const AllenElectronegativity: map<string, real> :=
    map["He" := 4.16, "Ne" := 4.79, "Ar" := 3.24]

  /** What `f"{v: .4f}"` prints for NaN. */
  const NanText := " nan"

  /** `_format(val)`: `float(None)` raises; NaN is printed, not rejected. */
  function Format(p: Prop, fmt: real -> string, symbol: string, column: string): (r: Result<Cell>)
    ensures r.Err? <==> p.Missing?
    ensures r.Err? ==> r.error == MissingProperty(symbol, column)
    ensures p.NotANumber? ==> r == Ok(Text(NanText))
    ensures p.Number? ==> r == Ok(Text(fmt(p.value)))
  {
    match p
    case Missing => Err(MissingProperty(symbol, column))
    case NotANumber => Ok(Text(NanText))
    case Number(v) => Ok(Text(fmt(v)))
  }

  /** `_format_X(elem)`: the Allen value replaces NaN for the elements that
      have one; any other NaN is formatted. A missing value fails the NaN test. */
  function ElectronegativityCell(el: Element, fmt: real -> string): (r: Result<Cell>)
    ensures r.Err? <==> el.electronegativity.Missing?
  {
    if el.electronegativity.NotANumber? && el.symbol in AllenElectronegativity
    then Ok(Raw(AllenElectronegativity[el.symbol]))
    else Format(el.electronegativity, fmt, el.symbol, ElectronegativityColumn)
  }

  /** `_format_radius(elem)`: the noble-gas value replaces a missing radius
      for the elements that have one; any other missing radius raises. */
  function RadiusCell(el: Element, fmt: real -> string): (r: Result<Cell>)
    ensures r.Err? <==> el.atomicRadius.Missing? && el.symbol !in NobleVdwRadii
  {
    if el.atomicRadius.Missing? && el.symbol in NobleVdwRadii
    then Ok(Raw(NobleVdwRadii[el.symbol]))
    else Format(el.atomicRadius, fmt, el.symbol, RadiusColumn)
  }

  /** The fallback tables are consulted only for the value they stand in
      for: electronegativity only when it is NaN, radius only when it is
      missing. A NaN electronegativity without a fallback is formatted, while
      a missing radius without a fallback is an error. */
  lemma FallbackRules(el: Element, fmt: real -> string)
    ensures ElectronegativityCell(el, fmt).Ok? && ElectronegativityCell(el, fmt).value.Raw?
            <==> el.electronegativity.NotANumber? && el.symbol in AllenElectronegativity
    ensures el.electronegativity.NotANumber? && el.symbol !in AllenElectronegativity
            ==> ElectronegativityCell(el, fmt) == Ok(Text(NanText))
    ensures el.electronegativity.Missing? ==> ElectronegativityCell(el, fmt).Err?
    ensures RadiusCell(el, fmt).Ok? && RadiusCell(el, fmt).value.Raw?
            <==> el.atomicRadius.Missing? && el.symbol in NobleVdwRadii
    ensures RadiusCell(el, fmt).Err? <==> el.atomicRadius.Missing? && el.symbol !in NobleVdwRadii
    ensures el.atomicRadius.Number? ==> RadiusCell(el, fmt) == Ok(Text(fmt(el.atomicRadius.value)))
  {
  }

  /** One entry of the `props` dictionary. */
  datatype Row = Row(symbol: string, electronegativity: Cell, radius: Cell, averageIonicRadius: Cell)

  /** One entry of the `symbol_to_oxinum` dictionary. */
  datatype OxidationRow = OxidationRow(oxidation: Cell, ionicRadius: Cell)

  function PropsRow(el: Element, fmt: real -> string): (r: Result<Row>)
    ensures r.Ok? ==> r.value.symbol == el.symbol
  {
    var x :- ElectronegativityCell(el, fmt);
    var radius :- RadiusCell(el, fmt);
    var ionic :- Format(el.averageIonicRadius, fmt, el.symbol, IonicRadiusColumn);
    Ok(Row(el.symbol, x, radius, ionic))
  }

  /** `float(el.oxi_state)` and `_format(el.ionic_radius)`. */
  function OxidationRowOf(el: Element, fmt: real -> string): (r: Result<OxidationRow>)
    ensures r.Err? <==> el.oxidationState.None? || el.ionicRadius.Missing?
    ensures r.Ok? ==> r.value.oxidation == Raw(el.oxidationState.value)
  {
    if el.oxidationState.None? then Err(MissingProperty(el.symbol, OxidationColumn))
    else
      var ionic :- Format(el.ionicRadius, fmt, el.symbol, IonicRadiusColumn);
      Ok(OxidationRow(Raw(el.oxidationState.value), ionic))
  }

  /** The rows of a comprehension over the elements, in order; the first
      element that raises ends it. */
  function PropsRows(els: seq<Element>, fmt: real -> string): (r: Result<seq<Row>>)
    ensures r.Ok? ==> |r.value| == |els|
    ensures r.Ok? ==> forall i :: 0 <= i < |els| ==> PropsRow(els[i], fmt) == Ok(r.value[i])
    ensures r.Err? ==> exists i :: 0 <= i < |els| && PropsRow(els[i], fmt) == Err(r.error)
    ensures r.Err? <==> exists i :: 0 <= i < |els| && PropsRow(els[i], fmt).Err?
  {
    if els == [] then Ok([])
    else
      var head :- PropsRow(els[0], fmt);
      var tail :- PropsRows(els[1..], fmt);
      assert forall i :: 1 <= i < |els| ==> els[1..][i - 1] == els[i];
      Ok([head] + tail)
  }

  function OxidationRows(els: seq<Element>, fmt: real -> string): (r: Result<seq<OxidationRow>>)
    ensures r.Ok? ==> |r.value| == |els|
    ensures r.Ok? ==> forall i :: 0 <= i < |els| ==> OxidationRowOf(els[i], fmt) == Ok(r.value[i])
    ensures r.Err? <==> exists i :: 0 <= i < |els| && OxidationRowOf(els[i], fmt).Err?
  {
    if els == [] then Ok([])
    else
      var head :- OxidationRowOf(els[0], fmt);
      var tail :- OxidationRows(els[1..], fmt);
      assert forall i :: 1 <= i < |els| ==> els[1..][i - 1] == els[i];
      Ok([head] + tail)
  }

  /** The `data` dictionary and the `loop_vals` column list. */
  datatype Table = Table(data: map<string, seq<Cell>>, loopVals: seq<string>)

  function SymbolCells(rows: seq<Row>): (r: seq<Cell>)
    ensures |r| == |rows| && forall i :: 0 <= i < |rows| ==> r[i] == Text(rows[i].symbol)
  {
    seq(|rows|, i requires 0 <= i < |rows| => Text(rows[i].symbol))
  }

  function ElectronegativityCells(rows: seq<Row>): (r: seq<Cell>)
    ensures |r| == |rows| && forall i :: 0 <= i < |rows| ==> r[i] == rows[i].electronegativity
  {
    seq(|rows|, i requires 0 <= i < |rows| => rows[i].electronegativity)
  }

  function RadiusCells(rows: seq<Row>): (r: seq<Cell>)
    ensures |r| == |rows| && forall i :: 0 <= i < |rows| ==> r[i] == rows[i].radius
  {
    seq(|rows|, i requires 0 <= i < |rows| => rows[i].radius)
  }

  function AverageIonicCells(rows: seq<Row>): (r: seq<Cell>)
    ensures |r| == |rows| && forall i :: 0 <= i < |rows| ==> r[i] == rows[i].averageIonicRadius
  {
    seq(|rows|, i requires 0 <= i < |rows| => rows[i].averageIonicRadius)
  }

  function OxidationCells(rows: seq<OxidationRow>): (r: seq<Cell>)
    ensures |r| == |rows| && forall i :: 0 <= i < |rows| ==> r[i] == rows[i].oxidation
  {
    seq(|rows|, i requires 0 <= i < |rows| => rows[i].oxidation)
  }

  function OxidationIonicCells(rows: seq<OxidationRow>): (r: seq<Cell>)
    ensures |r| == |rows| && forall i :: 0 <= i < |rows| ==> r[i] == rows[i].ionicRadius
  {
    seq(|rows|, i requires 0 <= i < |rows| => rows[i].ionicRadius)
  }

  /** The table `get_atomic_props_block` renders: every element's properties
      first, then, with `oxi`, every element's oxidation data, which adds a
      column and replaces the ionic radii. */
  function PropsTable(els: seq<Element>, oxi: bool, fmt: real -> string): (r: Result<Table>)
  {
    var rows :- PropsRows(els, fmt);
    var base := map[SymbolColumn := SymbolCells(rows),
                    ElectronegativityColumn := ElectronegativityCells(rows),
                    RadiusColumn := RadiusCells(rows),
                    IonicRadiusColumn := AverageIonicCells(rows)];
    if !oxi then Ok(Table(base, BaseColumns))
    else
      var ox :- OxidationRows(els, fmt);
      Ok(Table(base[OxidationColumn := OxidationCells(ox)][IonicRadiusColumn := OxidationIonicCells(ox)],
               BaseColumns + [OxidationColumn]))
  }

  /** Every element can be tabulated. */
  predicate Resolvable(el: Element, oxi: bool) {
    !el.electronegativity.Missing?
    && (!el.atomicRadius.Missing? || el.symbol in NobleVdwRadii)
    && !el.averageIonicRadius.Missing?
    && (oxi ==> el.oxidationState.Some? && !el.ionicRadius.Missing?)
  }

  /** The table exists exactly when every element can be tabulated. */
  lemma TableExists(els: seq<Element>, oxi: bool, fmt: real -> string)
    ensures PropsTable(els, oxi, fmt).Ok? <==> forall i :: 0 <= i < |els| ==> Resolvable(els[i], oxi)
  {
    forall i | 0 <= i < |els| ensures PropsRow(els[i], fmt).Ok? <==> Resolvable(els[i], false) {
      FallbackRules(els[i], fmt);
    }
  }

  /** Every listed column holds one entry per element; the oxidation column
      is listed last, and only with `oxi`. */
  lemma TableColumns(els: seq<Element>, oxi: bool, fmt: real -> string)
    requires PropsTable(els, oxi, fmt).Ok?
    ensures var t := PropsTable(els, oxi, fmt).value;
            t.loopVals == if oxi then BaseColumns + [OxidationColumn] else BaseColumns
    ensures var t := PropsTable(els, oxi, fmt).value;
            forall c :: c in t.loopVals ==> c in t.data && |t.data[c]| == |els|
  {
  }

  /** Row `i` of the table is element `i`: its symbol, its electronegativity
      and radius cells, and its average ionic radius or, with `oxi`, its
      oxidation number and oxidation-state ionic radius. */
  lemma TableRows(els: seq<Element>, oxi: bool, fmt: real -> string, i: nat)
    requires PropsTable(els, oxi, fmt).Ok? && i < |els|
    ensures var d := PropsTable(els, oxi, fmt).value.data;
            SymbolColumn in d && ElectronegativityColumn in d && RadiusColumn in d && IonicRadiusColumn in d
            && |d[SymbolColumn]| == |d[ElectronegativityColumn]| == |d[RadiusColumn]| == |d[IonicRadiusColumn]| == |els|
            && d[SymbolColumn][i] == Text(els[i].symbol)
            && Ok(d[ElectronegativityColumn][i]) == ElectronegativityCell(els[i], fmt)
            && Ok(d[RadiusColumn][i]) == RadiusCell(els[i], fmt)
    ensures var d := PropsTable(els, oxi, fmt).value.data;
            !oxi ==> Ok(d[IonicRadiusColumn][i]) == Format(els[i].averageIonicRadius, fmt, els[i].symbol, IonicRadiusColumn)
    ensures var d := PropsTable(els, oxi, fmt).value.data;
            oxi ==> OxidationColumn in d && |d[OxidationColumn]| == |els|
                    && d[OxidationColumn][i] == Raw(els[i].oxidationState.value)
                    && Ok(d[IonicRadiusColumn][i]) == Format(els[i].ionicRadius, fmt, els[i].symbol, IonicRadiusColumn)
  {
    var rows := PropsRows(els, fmt).value;
    assert PropsRow(els[i], fmt) == Ok(rows[i]);
    if oxi {
      var ox := OxidationRows(els, fmt).value;
      assert OxidationRowOf(els[i], fmt) == Ok(ox[i]);
    }
  }

  /** `get_atomic_props_block`, step by step: the `props` rows, then the
      `data` dictionary filled column by column, then the oxidation data
      overwriting the ionic radii and extending the column list. */
  method BuildPropsTable(els: seq<Element>, oxi: bool, fmt: real -> string) returns (r: Result<Table>)
    ensures r == PropsTable(els, oxi, fmt)
  {
    var props :- PropsRows(els, fmt);
    var data: map<string, seq<Cell>> := map[];
    data := data[SymbolColumn := SymbolCells(props)];
    data := data[ElectronegativityColumn := ElectronegativityCells(props)];
    data := data[RadiusColumn := RadiusCells(props)];
    data := data[IonicRadiusColumn := AverageIonicCells(props)];
    var loopVals := [SymbolColumn, ElectronegativityColumn, RadiusColumn, IonicRadiusColumn];
    if oxi {
      var symbolToOxinum :- OxidationRows(els, fmt);
      data := data[OxidationColumn := OxidationCells(symbolToOxinum)];
      data := data[IonicRadiusColumn := OxidationIonicCells(symbolToOxinum)];
      loopVals := loopVals + [OxidationColumn];
    }
    return Ok(Table(data, loopVals));
  }

  const SpaceGroupLabel := Extract.SpaceGroupField

  /** Text in which `L` occurs nowhere. */
  predicate NoLabel(x: string, L: string) {
    forall j :: 0 <= j <= |x| ==> !StartsWith(x[j..], L)
  }

  /** The insertion of `add_atomic_props_block`: the block and a newline go
      right before the first occurrence of the label; no label is an error.
      The text before that occurrence and the text from it on are kept. */
  function InsertBlock(cif: string, block: string, L: string): (r: Result<string>)
    ensures r.Err? <==> NoLabel(cif, L)
    ensures r.Err? ==> r.error == FieldNotFound(L)
    ensures r.Ok? ==> exists p :: 0 <= p <= |cif| && StartsWith(cif[p..], L)
                       && (forall j :: 0 <= j < p ==> !StartsWith(cif[j..], L))
                       && r.value == cif[..p] + block + "\n" + cif[p..]
  {
    match Find(cif, L)
    case None => Err(FieldNotFound(L))
    case Some(p) =>
      assert cif[p..][..|L|] == cif[p..p + |L|];
      Ok(cif[..p] + block + "\n" + cif[p..])
  }

  /** `Composition(formula).elements`, sorted. */
  function ElementsOf(chem: Chemistry, formula: string): (r: Result<seq<Element>>)
    ensures r.Err? <==> chem.elementsOf(formula).None?
    ensures r.Err? ==> r.error == CompositionUnparsable(formula)
    ensures r.Ok? ==> r.value == chem.elementsOf(formula).value
  {
    match chem.elementsOf(formula)
    case None => Err(CompositionUnparsable(formula))
    case Some(els) => Ok(els)
  }

  /** The record's formula parses and every one of its elements can be
      tabulated. */
  predicate Tabulable(cif: string, oxi: bool, chem: Chemistry) {
    && Extract.FormulaNonreduced(cif).Ok?
    && chem.elementsOf(Extract.FormulaNonreduced(cif).value).Some?
    && var els := chem.elementsOf(Extract.FormulaNonreduced(cif).value).value;
       forall i :: 0 <= i < |els| ==> Resolvable(els[i], oxi)
  }

  /** `add_atomic_props_block(cif_str, oxi)`: read the formula, tabulate its
      elements, render the table and insert it. It succeeds exactly when the
      formula can be tabulated and the record has a space-group label; a
      record without a formula fails on the formula first. */
  function AddAtomicPropsBlock(cif: string, oxi: bool, chem: Chemistry): (r: Result<string>)
    ensures r.Ok? <==> Tabulable(cif, oxi, chem) && !NoLabel(cif, SpaceGroupLabel)
    ensures Extract.FormulaNonreduced(cif).Err? ==> r == Err(FieldNotFound(Extract.FormulaSumField))
  {
    var formula :- Extract.FormulaNonreduced(cif);
    var els :- ElementsOf(chem, formula);
    TableExists(els, oxi, chem.format);
    var table :- PropsTable(els, oxi, chem.format);
    InsertBlock(cif, chem.render(table), SpaceGroupLabel)
  }

  const LoopTag := "loop_"

  /** `(data_[^\n]*\n)loop_[\s\S]*?(<label>)` at the start of `t`: the
      `data_` line, `loop_` right after it, and everything up to the first
      label after that. Answers the length of the `data_` line and of the
      whole match. */
  function BlockAt(t: string, L: string): (r: Option<(nat, nat)>)
    ensures r.Some? ==> 6 <= r.value.0 && r.value.0 + 5 + |L| <= r.value.1 <= |t|
  {
    match DataLine.DataLineAt(t)
    case None => None
    case Some(h) => LoopAfter(t, h, L)
  }

  /** The rest of a match once the `data_` line has `h` characters: `loop_`
      right after it, then everything up to the first label. */
  function LoopAfter(t: string, h: nat, L: string): (r: Option<(nat, nat)>)
    requires h <= |t|
    ensures r.Some? ==> r.value.0 == h && h + 5 + |L| <= r.value.1 <= |t|
  {
    if !StartsWith(t[h..], LoopTag) then None
    else match Find(t[h + 5..], L)
      case None => None
      case Some(j) => Some((h, h + 5 + j + |L|))
  }

  /** What a match is: it exists exactly when the text starts with a `data_`
      line (`data_`, no newline, a newline), `loop_` follows that line, and
      the label occurs after `loop_`; it then ends at the end of the first
      such label. Otherwise one of the three parts is missing. */
  lemma BlockAtCases(t: string, L: string)
    ensures var d := DataLine.DataLineAt(t);
            BlockAt(t, L).Some? <==> d.Some? && StartsWith(t[d.value..], LoopTag) && Find(t[d.value + 5..], L).Some?
    ensures var d := DataLine.DataLineAt(t);
            d.Some? && StartsWith(t[d.value..], LoopTag) && Find(t[d.value + 5..], L).Some? ==>
              BlockAt(t, L) == Some((d.value, d.value + 5 + Find(t[d.value + 5..], L).value + |L|))
  {
  }

  /** The substitution of `remove_atom_props_block`, whose label is the
      space-group L: each match is replaced by its `data_` line followed
      by the label; scanning resumes after the label. */
  function RemoveBlocks(s: string, L: string): (r: string)
    ensures |r| <= |s|
    decreases |s|
  {
    match BlockAt(s, L)
    case Some((h, m)) => s[..h] + L + RemoveBlocks(s[m..], L)
    case None => if s == [] then [] else [s[0]] + RemoveBlocks(s[1..], L)
  }

  /** `remove_atom_props_block(cif)` */
  function RemoveAtomPropsBlock(s: string): string {
    RemoveBlocks(s, SpaceGroupLabel)
  }

  lemma LabelHasNoBreak()
    ensures DataLine.NoNewline(SpaceGroupLabel)
  {
  }

  /** A label without newlines cannot straddle one, so after label-free
      text and a newline the first label is the one that follows. */
  lemma LabelAfterBreak(x: string, y: string, L: string)
    requires DataLine.NoNewline(L) && NoLabel(x, L)
    ensures Find((x + "\n") + (L + y), L) == Some(|x| + 1)
  {
    var t := (x + "\n") + (L + y);
    forall j | 0 <= j < |x| + 1 ensures !StartsWith(t[j..], L) {
      if j + |L| <= |x| {
        assert t[j..][..|L|] == x[j..][..|L|];
      } else {
        var k := |x| - j;
        assert t[j..][k] == '\n';
        assert L[k] != '\n';
        assert |L| <= |t[j..]| ==> t[j..][..|L|][k] == '\n';
      }
    }
    JoinParts(x + "\n", L + y);
  }

  lemma NoLabelSuffix(x: string, k: nat, L: string)
    requires NoLabel(x, L) && k <= |x|
    ensures NoLabel(x[k..], L)
  {
    forall j | 0 <= j <= |x| - k ensures !StartsWith(x[k..][j..], L) {
      assert x[k..][j..] == x[k + j..];
    }
  }

  /** Text without a `data_` tag comes back unchanged. */
  lemma {:induction false} NoDataTagKept(s: string, L: string)
    requires DataLine.NoDataTag(s)
    ensures RemoveBlocks(s, L) == s
    decreases |s|
  {
    if s != [] {
      assert s[0..] == s;
      assert !StartsWith(s, "data_");
      forall i | 0 <= i <= |s| - 1 ensures !StartsWith(s[1..][i..], "data_") {
        assert s[1..][i..] == s[i + 1..];
      }
      NoDataTagKept(s[1..], L);
    }
  }

  /** The insertion when the first label is at `p`. */
  lemma InsertAt(cif: string, block: string, L: string, p: nat)
    requires Find(cif, L) == Some(p)
    ensures InsertBlock(cif, block, L) == Ok(cif[..p] + block + "\n" + cif[p..])
  {
  }

  /** One replacement step of the removal. */
  lemma RemoveStep(t: string, L: string, h: nat, m: nat)
    requires BlockAt(t, L) == Some((h, m))
    ensures RemoveBlocks(t, L) == t[..h] + L + RemoveBlocks(t[m..], L)
  {
  }

  /** The `data_` line `data_<id>\n`, read at the start of a text. */
  lemma DataLineEnds(id: string, rest: string, t: string)
    requires DataLine.NoNewline(id) && t == ("data_" + id + "\n") + rest
    ensures StartsWith(t, "data_") && RunLen(DataLine.IsLineChar, t[5..]) == |id|
            && 5 + |id| < |t| && t[|id| + 6..] == rest && t[..|id| + 6] == "data_" + id + "\n"
            && DataLine.DataLineAt(t) == Some(|id| + 6)
  {
    JoinParts("data_" + id + "\n", rest);
    assert t[5..] == id + ("\n" + rest);
    RunLenPrefix(DataLine.IsLineChar, id, "\n" + rest);
  }

  /** After the `loop_` that starts a label-free block, the first label is
      the one after the block's final newline. */
  lemma LabelAfterBlock(block: string, post: string, L: string, rest: string)
    requires DataLine.NoNewline(L)
    requires StartsWith(block, LoopTag) && NoLabel(block, L)
    requires rest == (block + "\n") + (L + post)
    ensures StartsWith(rest, LoopTag) && Find(rest[5..], L) == Some(|block| - 4)
  {
    assert rest[..5] == block[..5];
    NoLabelSuffix(block, 5, L);
    assert rest[5..] == (block[5..] + "\n") + (L + post);
    LabelAfterBreak(block[5..], post, L);
  }

  /** The match, from its three parts: the `data_` line of `h` characters,
      `loop_`, and the first label `j` characters later. */
  lemma BlockAtIs(t: string, h: nat, j: nat, L: string)
    requires DataLine.DataLineAt(t) == Some(h)
    requires StartsWith(t[h..], LoopTag)
    requires Find(t[h + 5..], L) == Some(j)
    ensures BlockAt(t, L) == Some((h, h + 5 + j + |L|))
  {
  }

  /** A `data_` line followed by a block that starts with `loop_` and holds
      no label: the match runs from the `data_` line to the label after the
      block. */
  lemma BlockMatch(id: string, block: string, post: string, L: string, rest: string, t: string)
    requires DataLine.NoNewline(id) && DataLine.NoNewline(L)
    requires StartsWith(block, LoopTag) && NoLabel(block, L)
    requires rest == (block + "\n") + (L + post) && t == ("data_" + id + "\n") + rest
    ensures BlockAt(t, L) == Some((|id| + 6, |id| + 6 + |block| + 1 + |L|))
  {
    DataLineEnds(id, rest, t);
    LabelAfterBlock(block, post, L, rest);
    BlockFromParts(t, rest, |id| + 6, |block|, L);
  }

  /** The match, from a `data_` line of `h` characters followed by `rest`,
      which starts with `loop_` and has its first label `b + 1` characters in. */
  lemma BlockFromParts(t: string, rest: string, h: nat, b: nat, L: string)
    requires DataLine.DataLineAt(t) == Some(h) && t[h..] == rest
    requires b >= 5 && StartsWith(rest, LoopTag) && Find(rest[5..], L) == Some(b - 4)
    ensures BlockAt(t, L) == Some((h, h + b + 1 + |L|))
  {
    DropTwice(t, h, 5);
    BlockAtIs(t, h, b - 4, L);
  }

  /** A match followed by text without a `data_` tag: the removal keeps
      the `data_` line and the label and drops what was between them. */
  lemma RemoveLast(t: string, L: string, h: nat, m: nat, head: string, post: string)
    requires BlockAt(t, L) == Some((h, m)) && t[..h] == head && t[m..] == post
    requires DataLine.NoDataTag(post)
    ensures RemoveBlocks(t, L) == head + L + post
  {
    RemoveStep(t, L, h, m);
    NoDataTagKept(post, L);
  }

  /** Where the parts of a record with a block after its `data_` line are. */
  lemma BlockPieces(id: string, block: string, post: string, L: string, t: string)
    requires DataLine.NoNewline(id)
    requires t == ("data_" + id + "\n") + ((block + "\n") + (L + post))
    ensures |id| + 6 + |block| + 1 + |L| <= |t|
            && t[..|id| + 6] == "data_" + id + "\n" && t[|id| + 6 + |block| + 1 + |L|..] == post
  {
    var rest := (block + "\n") + (L + post);
    DataLineEnds(id, rest, t);
    ConcatAssoc(block + "\n", L, post);
    DropPast(t, |id| + 6, rest, (block + "\n") + L, post);
  }

  /** The removal of a block right after the `data_` line restores the text
      without it. */
  lemma RemoveAfterDataLine(id: string, block: string, post: string, L: string, t: string)
    requires DataLine.NoNewline(id) && DataLine.NoNewline(L)
    requires StartsWith(block, LoopTag) && NoLabel(block, L)
    requires DataLine.NoDataTag(post)
    requires t == ("data_" + id + "\n") + ((block + "\n") + (L + post))
    ensures RemoveBlocks(t, L) == ("data_" + id + "\n") + L + post
  {
    BlockMatch(id, block, post, L, (block + "\n") + (L + post), t);
    BlockPieces(id, block, post, L, t);
    RemoveLast(t, L, |id| + 6, |id| + 6 + |block| + 1 + |L|, "data_" + id + "\n", post);
  }

  /** The block goes right after the `data_` line when the label follows it. */
  lemma InsertAfterDataLine(x: string, block: string, post: string, L: string)
    requires DataLine.NoNewline(L) && NoLabel(x, L)
    ensures InsertBlock((x + "\n") + (L + post), block, L)
            == Ok((x + "\n") + block + "\n" + (L + post))
  {
    LabelAfterBreak(x, post, L);
    InsertAt((x + "\n") + (L + post), block, L, |x| + 1);
    JoinParts(x + "\n", L + post);
  }

  /** A `data_` tag cannot start inside text without one that is followed
      by a `data_` line, so that text is copied through the removal. */
  lemma {:induction false} RemoveSkipsPrefix(pre: string, u: string, L: string)
    requires DataLine.NoDataTag(pre) && StartsWith(u, "data_")
    ensures RemoveBlocks(pre + u, L) == pre + RemoveBlocks(u, L)
    decreases |pre|
  {
    if pre == [] {
      assert pre + u == u;
    } else {
      DataLine.TagNotInside(pre, u);
      CopyStep(pre + u, L);
      DropFromJoin(pre, u, 1);
      DataLine.NoDataTagTail(pre);
      RemoveSkipsPrefix(pre[1..], u, L);
      ConcatAssoc([pre[0]], pre[1..], RemoveBlocks(u, L));
      assert [pre[0]] + pre[1..] == pre;
    }
  }

  /** Where no `data_` tag starts, one character is copied. */
  lemma CopyStep(s: string, L: string)
    requires s != [] && !StartsWith(s, "data_")
    ensures RemoveBlocks(s, L) == [s[0]] + RemoveBlocks(s[1..], L)
  {
  }

  /** How the pieces of a record regroup around its `data_` line. */
  lemma Regroup(pre: string, a: string, b: string, e: string)
    ensures (((pre + a) + "\n") + b) + "\n" + e == pre + ((a + "\n") + ((b + "\n") + e))
    ensures ((pre + a) + "\n") + e == pre + ((a + "\n") + e)
  {
  }

  /** Adding a block before a label that directly follows the `data_` line
      and removing it again gives the record back, when the text before the
      `data_` line holds no `data_` tag, the block starts with `loop_` and
      holds no label, and no `data_` tag follows. */
  lemma RoundTrip(pre: string, id: string, block: string, post: string, L: string, cif: string)
    requires DataLine.NoDataTag(pre) && DataLine.NoNewline(id) && DataLine.NoNewline(L)
    requires NoLabel(pre + ("data_" + id), L)
    requires StartsWith(block, LoopTag) && NoLabel(block, L)
    requires DataLine.NoDataTag(post)
    requires cif == pre + (("data_" + id + "\n") + (L + post))
    ensures InsertBlock(cif, block, L).Ok? && RemoveBlocks(InsertBlock(cif, block, L).value, L) == cif
  {
    var a, e := "data_" + id, L + post;
    var x := pre + a;
    var ins := (x + "\n") + block + "\n" + e;
    var inner := (a + "\n") + ((block + "\n") + e);
    assert InsertBlock(cif, block, L) == Ok(ins) by {
      Regroup(pre, a, block, e);
      InsertAfterDataLine(x, block, post, L);
    }
    assert ins == pre + inner by {
      Regroup(pre, a, block, e);
    }
    assert RemoveBlocks(inner, L) == (a + "\n") + L + post by {
      RemoveAfterDataLine(id, block, post, L, inner);
    }
    assert inner[..5] == "data_";
    RemoveSkipsPrefix(pre, inner, L);
    ConcatAssoc(a + "\n", L, post);
  }

  /** `remove_atom_props_block` undoes the insertion of
      `add_atomic_props_block` on a record whose space-group label directly
      follows its `data_` line. */
  lemma RemoveAfterAdd(pre: string, id: string, block: string, post: string, cif: string)
    requires DataLine.NoDataTag(pre) && DataLine.NoNewline(id)
    requires NoLabel(pre + ("data_" + id), SpaceGroupLabel)
    requires StartsWith(block, LoopTag) && NoLabel(block, SpaceGroupLabel)
    requires DataLine.NoDataTag(post)
    requires cif == pre + (("data_" + id + "\n") + (SpaceGroupLabel + post))
    ensures InsertBlock(cif, block, SpaceGroupLabel).Ok?
            && RemoveAtomPropsBlock(InsertBlock(cif, block, SpaceGroupLabel).value) == cif
  {
    LabelHasNoBreak();
    RoundTrip(pre, id, block, post, SpaceGroupLabel, cif);
  }

  /** The transform pair on whole records: when the renderer writes a block
      that starts with `loop_` and holds no space-group label, removing the
      block from the output of `add_atomic_props_block` restores the record,
      for a record whose space-group label follows its `data_` line and
      whose leading text (a comment, say) holds no `data_` tag. */
  lemma AddThenRemove(pre: string, id: string, post: string, oxi: bool, chem: Chemistry, cif: string)
    requires DataLine.NoDataTag(pre) && DataLine.NoNewline(id)
    requires NoLabel(pre + ("data_" + id), SpaceGroupLabel)
    requires DataLine.NoDataTag(post)
    requires cif == pre + (("data_" + id + "\n") + (SpaceGroupLabel + post))
    requires forall table :: StartsWith(chem.render(table), LoopTag)
                             && NoLabel(chem.render(table), SpaceGroupLabel)
    ensures AddAtomicPropsBlock(cif, oxi, chem).Ok? ==>
              RemoveAtomPropsBlock(AddAtomicPropsBlock(cif, oxi, chem).value) == cif
  {
    if AddAtomicPropsBlock(cif, oxi, chem).Ok? {
      var els := chem.elementsOf(Extract.FormulaNonreduced(cif).value).value;
      var table := PropsTable(els, oxi, chem.format).value;
      RemoveAfterAdd(pre, id, chem.render(table), post, cif);
    }
  }
}
