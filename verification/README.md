# CrystaLLM record cleaning, modelled in Dafny

This project models the pipeline that cleans crystal-structure records (CIF text) before a language model is trained on them. It has two parts.

**The text transforms of `crystallm/_utils.py`.** Each regular expression becomes a predicate "the pattern matches at the start of this suffix". `re.search` is the leftmost suffix that satisfies it (`Text.Leftmost`, `Text.Find`). `re.sub` is a left-to-right recursion: where a match starts, its replacement is emitted and scanning resumes after the match; elsewhere one character is copied. An exception becomes the `Err` case of a `Result`.

The transforms modelled:
- the extractors;
- `replace_data_formula_with_nonreduced_formula`;
- `semisymmetrize_cif`;
- the table built by `get_atomic_props_block`;
- `add_atomic_props_block` and `remove_atom_props_block`;
- `round_numbers`;
- `array_split`.

**The driver in `bin/preprocess.py`.**
- `augment_cif` runs the per-record chain: the Z filter, the formula rewrite, semisymmetrization, the properties block and rounding. It drains the task queue, emitting one progress tick per record and publishing the list of survivors.
- `progress_listener` adds up the ticks.
- The `__main__` loop concatenates the published lists.

The three manager queues are the fields of one `Pipeline.Queues` object. The workers run one after another.

Modules: `Outcomes` (errors, `Option`, `Result`), `Text` (character classes, search, digits), `Extract`, `DataLine`, `SymmetryLoop`, `AtomProps`, `Rounding`, `Split`, `Pipeline`.

## Model

| member | source | states |
|---|---|---|
| Extract.NumericToken | crystallm/_utils.py:121-125 | the first match of `{prop}\s+([.0-9]+)` is the value read; no match anywhere is a "not found" failure; the value is one or more digits and dots |
| Extract.NumericProperty | crystallm/_utils.py:121-125 | the conversion is applied to the matched text; without a match the result is the "not found" failure |
| Extract.ParseInt | crystallm/_utils.py:132-133 | `int()` accepts the matched text exactly when it is one or more digits (so `2.0` fails), and the value is the digits' decimal value |
| Extract.FormulaUnits | crystallm/_utils.py:132-133 | Z is found and converted exactly when the first Z match is all digits; a non-integer match fails with that text |
| Extract.QuotedOrBareValue | crystallm/_utils.py:114-118 | the value comes from the first match of `{field}\s+('([^']+)'\|(\S+))`: when quoted, the text between the quotes; otherwise the first non-space run, which may contain a quote; no match anywhere is the "not found" failure; the value is non-empty |
| Extract.SpaceGroupSymbol | crystallm/_utils.py:114-118 | fails exactly when no space-group line matches; otherwise the value is non-empty |
| Extract.FormulaNonreduced | crystallm/_utils.py:161-165 | fails exactly when no `_chemical_formula_sum` line matches; otherwise the value is non-empty |
| Extract.DataFormula | crystallm/_utils.py:136-145 | when the plain `data_` pattern matches somewhere, the value is group 1 of its first match (alphanumeric); otherwise it is group 1 of the first Miller-form match; with neither present the result is a failure |
| DataLine.FormulaLine | crystallm/_utils.py:326-329 | the formula is the first `_chemical_formula_sum\s+(.+)\n` match; the value is a non-empty single line; no match is the failure raised at the end |
| DataLine.Strip | crystallm/_utils.py:331 | the result holds no quote or space, keeps every other character as many times as the input has it, and text without quotes or spaces is unchanged |
| DataLine.StripAppend | crystallm/_utils.py:331 | removing quotes and spaces works piece by piece, so the kept characters stay in their order |
| DataLine.MillerSuffix | crystallm/_utils.py:333-339 | no Miller index gives the empty suffix and only then; any index gives a suffix starting with `_` |
| DataLine.IndicesSuffix | crystallm/_utils.py:333-339 | a list index gives `_miller_` followed only by digits, at least one per component |
| DataLine.SuffixExample | crystallm/_utils.py:337 | the index (1, -1, 0) gives `_miller_110` |
| DataLine.DataLineAt | crystallm/_utils.py:327 | `(data_)(.*?)(\n)` matches exactly when a newline follows the tag, and ends at the first newline |
| DataLine.RewriteDataLines | crystallm/_utils.py:341 | no contract of its own; its behaviour is stated by `DataLine.NoDataTagUnchanged`, `DataLine.PrefixCopied`, `DataLine.LineRewritten` and `DataLine.RewriteStep` |
| DataLine.NoDataTagUnchanged | crystallm/_utils.py:341 | text without a `data_` tag is returned as it is, so a missing `data_` line is not an error |
| DataLine.PrefixCopied | crystallm/_utils.py:341 | text without a `data_` tag in front of a `data_` line is copied through the substitution |
| DataLine.LineRewritten | crystallm/_utils.py:341 | a `data_` line at the start gets the replacement as its identifier, up to its first newline, and the substitution goes on after that newline |
| DataLine.RewriteStep | crystallm/_utils.py:341 | over a whole text: the text before the first `data_` line is copied, that line's identifier is replaced, and the substitution continues after its newline, so every `data_` line is rewritten |
| DataLine.RewritesHeader | crystallm/_utils.py:341 | in a record with one `data_` line, after any text without the tag, the identifier becomes the replacement and everything else is untouched |
| DataLine.ReplaceDataFormula | crystallm/_utils.py:325-346 | fails, with the "not found" failure, exactly when there is no formula line; otherwise the result is the substitution with the stripped formula plus the Miller suffix |
| DataLine.ReplaceFirstLine | crystallm/_utils.py:325-344 | on a record whose first `data_` line follows text without the tag, that text is kept, the line's identifier becomes the stripped formula plus the Miller suffix, and the substitution carries on over the rest |
| DataLine.DataFormulaAfterRewrite | crystallm/_utils.py:136-145 | after the rewrite of a record whose first `data_` line follows text without the tag, `extract_data_formula` reads back the replacement when it is alphanumeric, whatever follows that line |
| SymmetryLoop.Semisymmetrize | crystallm/_utils.py:183-189 | no contract of its own; its behaviour is stated by `SymmetryLoop.NoMatchUnchanged`, `SymmetryLoop.MatchStep`, `SymmetryLoop.SkipPrefix` and `SymmetryLoop.Idempotent` |
| SymmetryLoop.BodyLengthIsLeftmost | crystallm/_utils.py:185 | the lazy body ends at the leftmost position where the lookahead `\n(?:\S\| \S)` holds |
| SymmetryLoop.NoMatchUnchanged | crystallm/_utils.py:184-189 | text where the pattern matches nowhere is returned unchanged |
| SymmetryLoop.NoHeaderUnchanged | crystallm/_utils.py:184-189 | text without `_symmetry_equiv_pos_as_xyz\n` is returned unchanged |
| SymmetryLoop.HeaderWithoutBreak | crystallm/_utils.py:185 | a header with no item break anywhere after it is no match |
| SymmetryLoop.PrefixKept | crystallm/_utils.py:184-189 | the first characters, up to the header's length, are never changed |
| SymmetryLoop.MatchStep | crystallm/_utils.py:184-189 | a match at the start becomes the header plus `  1  'x, y, z'`, and scanning resumes at the break |
| SymmetryLoop.SkipPrefix | crystallm/_utils.py:184-189 | text before the first match is copied through |
| SymmetryLoop.CollapsesLoop | crystallm/_utils.py:184-189 | a loop body of any number of rows becomes the identity row; the text before it and from the next item on is untouched |
| SymmetryLoop.Idempotent | crystallm/_utils.py:183-189 | semisymmetrizing twice equals semisymmetrizing once |
| AtomProps.Format | crystallm/_utils.py:47-48 | a missing value fails, NaN prints as ` nan`, and a number prints through the float formatter |
| AtomProps.ElectronegativityCell | crystallm/_utils.py:50-53 | fails exactly when the electronegativity is missing; a NaN one is never a failure |
| AtomProps.RadiusCell | crystallm/_utils.py:55-58 | fails exactly when the radius is missing and the element has no van der Waals fallback |
| AtomProps.PropsRow | crystallm/_utils.py:60 | a row is labelled with its element's symbol |
| AtomProps.OxidationRowOf | crystallm/_utils.py:78 | fails exactly when the oxidation state or the ionic radius is missing; the oxidation entry is the state itself |
| AtomProps.FallbackRules | crystallm/_utils.py:50-58 | the Allen value replaces only a NaN electronegativity, and only for He, Ne and Ar; the van der Waals value replaces only a missing radius, and only for noble gases; a missing radius with no fallback fails; a NaN electronegativity with no fallback does not fail |
| AtomProps.PropsRows | crystallm/_utils.py:60-61 | one row per element, in order; the comprehension fails exactly when some element's row fails |
| AtomProps.OxidationRows | crystallm/_utils.py:78 | one oxidation row per element, in order; the comprehension fails exactly when some element's row fails, which is when it lacks an oxidation state or an ionic radius |
| AtomProps.PropsTable | crystallm/_utils.py:60-84 | no contract of its own; its behaviour is stated by `AtomProps.TableExists`, `AtomProps.TableColumns` and `AtomProps.TableRows` |
| AtomProps.TableExists | crystallm/_utils.py:31-86 | the table exists exactly when every element can be tabulated |
| AtomProps.TableColumns | crystallm/_utils.py:63-83 | the four base columns, plus the oxidation column with `oxi`, are listed in order; each holds one entry per element |
| AtomProps.TableRows | crystallm/_utils.py:63-82 | entry `i` of each column belongs to element `i`; with `oxi`, the ionic-radius column holds the oxidation-state ionic radius instead of the average |
| AtomProps.BuildPropsTable | crystallm/_utils.py:60-86 | filling the `data` map and the column list step by step gives the specified table, or the first failure |
| AtomProps.InsertBlock | crystallm/_utils.py:357-365 | fails exactly when the label is absent; otherwise the result is the text before the first label, the block, a newline, then the text from the label on |
| AtomProps.ElementsOf | crystallm/_utils.py:350 | an unparsable formula fails; otherwise its elements are used |
| AtomProps.AddAtomicPropsBlock | crystallm/_utils.py:349-365 | succeeds exactly when the formula can be tabulated and the space-group label is present; a record without a formula fails on the formula first |
| AtomProps.BlockAt | crystallm/_utils.py:369 | a match covers at least the `data_` line, `loop_` and the label |
| AtomProps.BlockAtCases | crystallm/_utils.py:369 | a match exists exactly when the text starts with a `data_` line, `loop_` follows that line and the label occurs after `loop_`; it then ends at the end of the first such label |
| AtomProps.RemoveBlocks | crystallm/_utils.py:368-371 | the removal never lengthens the text |
| AtomProps.RemoveAtomPropsBlock | crystallm/_utils.py:368-371 | no contract of its own: the removal with the space-group label; see `AtomProps.RemoveAfterAdd` |
| AtomProps.NoDataTagKept | crystallm/_utils.py:370 | text without a `data_` tag is not changed by the removal |
| AtomProps.RemoveSkipsPrefix | crystallm/_utils.py:370 | text without a `data_` tag in front of a `data_` tag is copied through the removal |
| AtomProps.LabelAfterBreak | crystallm/_utils.py:358 | in label-free text followed by a newline and the label, the first label found is that one |
| AtomProps.BlockMatch | crystallm/_utils.py:369 | after a `data_` line, a label-free block starting with `loop_` is matched up to the label that follows it |
| AtomProps.RemoveAfterDataLine | crystallm/_utils.py:368-371 | removing such a block keeps the `data_` line, the label and the text after it |
| AtomProps.InsertAfterDataLine | crystallm/_utils.py:357-363 | when the label directly follows the `data_` line, the block is inserted between them |
| AtomProps.RoundTrip | crystallm/_utils.py:357-371 | inserting a block and removing it restores the record, for any label without newlines, when the label directly follows the record's one `data_` line: the text before that line and the text after the label hold no `data_` tag |
| AtomProps.RemoveAfterAdd | crystallm/_utils.py:349-371 | the same round trip for the space-group label, with the same leading text allowed |
| AtomProps.AddThenRemove | crystallm/_utils.py:349-371 | on records of that shape, whenever `add_atomic_props_block` succeeds, `remove_atom_props_block` returns the original record |
| Rounding.ParseToken | crystallm/_utils.py:377 | a token read at the start of the text is well formed, is what the text starts with, and has at least two characters |
| Rounding.ParseTokenLongest | crystallm/_utils.py:377 | any well-formed token the text starts with is found, with the same sign and whole digits, and the token read is at least as long: the match is the longest one |
| Rounding.ParseTokenNone | crystallm/_utils.py:377 | no token is read exactly when the text starts with no well-formed token |
| Rounding.ParseLocal | crystallm/_utils.py:377 | the token at the start does not depend on text after a character that cannot continue a number |
| Rounding.DivRoundHalfEven | crystallm/_utils.py:386 | the quotient is the nearest integer, and ties go to the even one |
| Rounding.Scaled | crystallm/_utils.py:386 | the token's value times 10^d, rounded half to even |
| Rounding.RoundToken | crystallm/_utils.py:381-387 | a token with at most `d` characters after its point is kept as written |
| Rounding.LongTokenRounded | crystallm/_utils.py:384-387 | a longer token becomes a fixed-point number with exactly `d` places, no exponent and the token's sign, whose digits are its rounded value |
| Rounding.FormattedReadsBack | crystallm/_utils.py:387 | a formatted number is read back as one token with the same sign, `d` places and the same digits |
| Rounding.RoundNumbers | crystallm/_utils.py:374-392 | a negative precision fails exactly when the text holds a token; text without tokens is returned unchanged |
| Rounding.RoundText | crystallm/_utils.py:390 | no contract of its own; its behaviour is stated by `Rounding.NoTokenUnchanged`, `Rounding.SplitAt` and `Rounding.Idempotent` |
| Rounding.NoTokenUnchanged | crystallm/_utils.py:390 | text without tokens is copied unchanged |
| Rounding.SplitAt | crystallm/_utils.py:390 | rounding is local: cut before a character that cannot continue a number, each side is rounded on its own |
| Rounding.ReplacementStable | crystallm/_utils.py:381-387 | rounding a token's replacement again leaves it unchanged |
| Rounding.Idempotent | crystallm/_utils.py:374-392 | rounding twice equals rounding once, on text whose number tokens stand alone in their runs of number characters |
| Rounding.NotIdempotent | crystallm/_utils.py:374-392 | without that condition it fails: `1.1.56` with one place becomes `1.10.6`, and again `1.1.6` |
| Split.ArraySplit | crystallm/_utils.py:395-403 | zero pieces fails (division by zero) and a negative count gives none; otherwise exactly `k` pieces whose concatenation is the list, piece `i` having `n / k` elements plus one when `i < n % k` |
| Split.PieceStartEnd | crystallm/_utils.py:395-403 | the pieces use up the whole list |
| Split.Balanced | crystallm/_utils.py:395-403 | two piece lengths differ by at most one, and a longer piece never follows a shorter one |
| Pipeline.Augment | bin/preprocess.py:43-55 | a record with Z = 0 or without a readable Z fails; a success is the four later transforms applied in order; whenever that chain succeeds on a record with non-zero Z, its result is the outcome |
| Pipeline.Chain | bin/preprocess.py:43-53 | no contract of its own: `Pipeline.Augment` with the run's settings, as one step |
| Pipeline.Kept | bin/preprocess.py:37-55 | no contract of its own; its behaviour is stated by `Pipeline.KeptLength`, `Pipeline.KeptFrom`, `Pipeline.KeptAppend` and `Pipeline.Dropped` |
| Pipeline.KeptLength | bin/preprocess.py:37-53 | a worker keeps no more records than it takes |
| Pipeline.KeptFrom | bin/preprocess.py:43-53 | every kept record is the chain's result for one of the records taken |
| Pipeline.KeptAppend | bin/preprocess.py:37-58 | workers that take consecutive runs of records keep, together, what one worker keeps from all of them |
| Pipeline.Dropped | bin/preprocess.py:54-55 | a record the chain rejects leaves the output as if it had never been queued |
| Pipeline.ZeroDropped | bin/preprocess.py:44-47 | a record with Z = 0 never reaches the output |
| Pipeline.Queues.Put | bin/preprocess.py:97-98 | a record is added at the end of the task queue and the other queues are unchanged |
| Pipeline.Queues.AugmentCif | bin/preprocess.py:34-59 | the task queue ends empty; one tick per record taken; the kept records are published as one list |
| Pipeline.StopSearch | bin/preprocess.py:23-31 | the answer is the first count of ticks whose running total equals `n`, or none |
| Pipeline.ProgressListener | bin/preprocess.py:23-31 | the listener stops exactly at that first count; otherwise it takes every tick and keeps waiting |
| Pipeline.UnitTicksStop | bin/preprocess.py:23-31 | with unit ticks and `n >= 1`, it stops after exactly `n` ticks |
| Pipeline.ZeroNeverStops | bin/preprocess.py:23-31 | with `n = 0` and positive ticks, it never stops |
| Pipeline.MergeResults | bin/preprocess.py:114-117 | the output is the published lists, one after another |
| Pipeline.Records | bin/preprocess.py:97 | the records are the second parts of the input pairs, in order |
| Pipeline.Preprocess | bin/preprocess.py:97-117 | the output is what the chain keeps from the queued records, with identifiers dropped; it holds no more records than there are input pairs; with no worker it is empty; the run finishes exactly when there is at least one worker and one record |

## Code and design

Where the code does something other than what one might expect, the model follows the code.

- `\s` and `\S` are Python's Unicode white-space classes (`Text.IsSpace`), as the patterns work on `str`.
- A record without a `data_` line is not an error: the substitution at `crystallm/_utils.py:341` just changes nothing.
- `extract_formula_units` matches `[.0-9]+` and then calls `int()`, so a Z such as `2.0` fails and the record is dropped.
- A missing electronegativity with no fallback fails, because `math.isnan(None)` raises. A NaN one with no fallback is printed as ` nan`. A missing atomic radius with no fallback fails in `float(None)`.
- `round_numbers` is not idempotent on every text. For example, `1.1.56` with one place becomes `1.10.6` and then `1.1.6`: rounding exposed a new token (`Rounding.NotIdempotent`). `Rounding.Idempotent` therefore requires every run of number characters to be token-free or exactly one token.
- A negative number of places fails at the format specification as soon as a token is rounded.
- `progress_listener` checks its total only after a tick, so with `n = 0` it never stops and an empty batch never finishes.

## Left out

- Concurrency:
  - the processes and the `Manager` queues;
  - the `empty()`/`get_nowait()` race;
  - interleavings other than workers running one after another;
  - process start and join.
- I/O: gzip, pickle, argparse, tqdm and printing. The input pairs and the worker count are parameters.
- Float semantics: rounding is exact decimal rounding, half to even, in place of binary `round()`. The `f"{v: .4f}"` formatter is a parameter (`Chemistry.format`).
- pymatgen:
  - `Composition` parsing and element lookups are a parameter (`Chemistry.elementsOf`). The element list arrives sorted and with each symbol once, so element ordering and duplicate symbols are not modelled.
  - `CifBlock` rendering, including the removal of its `data_\n` line, is a parameter (`Chemistry.render`). `AtomProps.AddThenRemove` assumes it writes a block that starts with `loop_` and holds no space-group label.
- `Pipeline.Queues.AugmentCif` and `Pipeline.Preprocess` take the per-record chain as a parameter; a run passes `Pipeline.Chain(oxi, d, chem)`, which is `Pipeline.Augment` with the run's settings.
- `Rounding.ParseToken`: `\d` is taken as ASCII digits, where Python's also matches other Unicode decimal digits.
- `DataLine.ReplaceDataFormula`: the replacement is inserted literally, where `replace_data_formula_with_nonreduced_formula` builds it into a `re.sub` template (`crystallm/_utils.py:341`). There a formula that starts with a digit turns `\1` into another group reference, and a backslash in the formula is read as an escape: `\q` raises and `\n` becomes a newline. These cases are not modelled. The Miller index's `str()` text is given directly for values that are not lists.
- `AtomProps.RoundTrip`, `AtomProps.RemoveAfterAdd`, `AtomProps.AddThenRemove`: proved for records whose space-group label directly follows the `data_` line, with any text before that line that holds no `data_` tag and no later `data_` tag; this is the shape the pipeline produces. Records with several `data_` lines, or with other items between the `data_` line and the label, are not covered.
- The helpers outside the chain are not part of this model:
  - `replace_symmetry_operators`, `extract_formula_based_on_coords`, `get_unit_cell_volume`;
  - the adsorbate and bulk naming helpers;
  - `load_labels`, `embeddings_from_csv`;
  - the sampler under `nanoGPT`.
