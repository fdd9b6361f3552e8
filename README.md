# sera_lab record normalisation, modelled in Dafny

`sera_lab` normalises line-oriented records of the form `<kind>|<id>|<payload>`.
It parses each line into a `Record`, runs a list of compiled rules over the record
(lower-case, upper-case, strip, prefix or suffix the payload, optionally only for one
record kind), and renders the record back to a line. This project models that
pipeline and proves its properties:

- `text.dfy` (module `Text`): the Python string operations the library relies on.
  These are `rstrip("\n")`, `split("|")`, `strip()` with Python's `str.isspace`
  whitespace set, and `lower()`/`upper()` over ASCII letters.
- `errors.dfy` (module `Errors`): the library's `ParseError` and `RuleError`
  exceptions as variants of an `Error` type. A `Result` type carries either a value
  or one of those errors.
- `comprehension.dfy` (module `Comprehension`): `MapResult`, a list comprehension
  whose element function may raise.
- `records.dfy` (module `Records`): `Record`, `parse_line` (`ParseLine`) and
  `render_record` (`RenderRecord`), with both round trips and the exact acceptance
  condition.
- `rules.dfy` (module `Rules`): `Rule`, `compile_rule` (`CompileRule`) and
  `compile_rules` (`CompileRules`). Each compiled closure is represented as a
  `Transform`, the recognised `Op` plus the rule it captured. `Apply` runs a
  transform on a record.
- `normalize.dfy` (module `Normalize`): `normalize_record` and `normalize_lines`
  are imperative methods whose loops are proved against the pure left fold `Fold`
  and the per-line function `NormalizeLine`. `NormalizeLines` compiles the rules
  and then hands the line loop to `NormalizeEach`. The split exists only to keep
  each proof small; together the two do what `normalize_lines` does.
- `cli.dfy` (module `Cli`): the built-in rule list the command line assembles
  from its `--strip` and `--upper-note` flags.
- `wrappers.dfy` (module `Wrappers`): `Option`, used for a rule's optional kind.

The source comment at `src/sera_lab/records.py:47` says empty fields are
rejected. The code rejects only an empty kind or id. `payload is None` can never
hold for a piece of a split, so an empty payload is accepted. The model follows the
code, and `Records.EmptyPayloadAccepted` states this.

## Model

| member | source | states |
|---|---|---|
| `Text.RStripNewlines` | src/sera_lab/records.py:38 | the result is a prefix of the line, everything cut off is a newline, and the result does not end in a newline: every trailing newline goes and nothing else does |
| `Text.RStripNewlinesAppend` | src/sera_lab/records.py:38 | appending any number of newlines to a line does not change what the strip gives |
| `Text.Split` | src/sera_lab/records.py:41 | splitting on a separator yields one more piece than there are separators, and no piece contains the separator |
| `Text.SplitJoin` | src/sera_lab/records.py:41 | joining the pieces of a split with the separator gives back the original string |
| `Text.Strip` | src/sera_lab/rules.py:44 | `strip()` leaves the input with only whitespace cut off before and after the result |
| `Text.StripEdges` | src/sera_lab/rules.py:67 | a non-empty stripped string neither starts nor ends with whitespace |
| `Text.Lower` | src/sera_lab/rules.py:53 | lower-casing keeps the length, leaves no ASCII capital, turns each capital into its small letter and keeps every other character |
| `Text.Upper` | src/sera_lab/rules.py:60 | upper-casing keeps the length, leaves no ASCII small letter, turns each small letter into its capital and keeps every other character |
| `Text.StripIdempotent` | src/sera_lab/rules.py:63-68 | stripping twice is the same as stripping once |
| `Text.LowerIdempotent` | src/sera_lab/rules.py:49-54 | lower-casing twice is the same as lower-casing once |
| `Text.UpperIdempotent` | src/sera_lab/rules.py:56-61 | upper-casing twice is the same as upper-casing once |
| `Comprehension.MapResult` | src/sera_lab/rules.py:88-90 | a comprehension succeeds iff every element succeeds, then gives one result per element in order; otherwise it gives the error of the first element that fails |
| `Records.RenderRecord` | src/sera_lab/records.py:54-56 | a rendered line is exactly as long as the three fields plus two separators |
| `Records.RenderedFields` | src/sera_lab/records.py:54-56 | in a rendered line the kind comes first, then a separator, the id, a separator, and the payload up to the end, so each field can be read back by its position |
| `Records.ParseLine` | src/sera_lab/records.py:32-51 | a parsed record has non-empty kind and id and no field containing the separator, and it renders back to the line without trailing newlines; a failure is a `ParseError` on that stripped line; it is a field-count failure exactly when the line has other than two separators, with the piece count reported |
| `Records.ParseLineAccepts` | src/sera_lab/records.py:38-51 | a line parses to a record iff, without trailing newlines, it is exactly kind, separator, id, separator, payload, with non-empty kind and id and no separator inside any field, so whitespace around separators stays in the fields |
| `Records.RenderThenParse` | src/sera_lab/records.py:32-56 | rendering a record with non-empty kind and id, no separator in any field and a payload not ending in a newline, then parsing it with any trailing newlines, gives the record back |
| `Records.ParseThenRender` | src/sera_lab/records.py:38-56 | a line that parses renders back to itself without its trailing newlines |
| `Records.IgnoresTrailingNewlines` | src/sera_lab/records.py:38 | appending any number of newlines to a line never changes how it parses |
| `Records.CountAfterStrip` | src/sera_lab/records.py:38-41 | stripping the newlines keeps every separator of the line |
| `Records.PipeInPayloadRejected` | src/sera_lab/records.py:40-43 | a separator inside the payload always makes the line fail, as a field-count error reporting more than three pieces |
| `Records.EmptyPayloadAccepted` | src/sera_lab/records.py:47-51 | kind, separator, id, separator and nothing more, with or without trailing newlines, parses with an empty payload |
| `Rules.OpNameRoundTrip` | src/sera_lab/rules.py:37-42 | each of the five op names is recognised as its own op, so names and ops correspond one to one |
| `Rules.ParseOp` | src/sera_lab/rules.py:44-83 | a recognised op is the one whose name equals the stripped op text; when none is recognised, no op has that name |
| `Rules.CompileRule` | src/sera_lab/rules.py:34-85 | compiling succeeds iff the stripped op is one of the five names, and the transform captures the rule; otherwise it is a `RuleError` carrying the op as written |
| `Rules.CompileByStrippedName` | src/sera_lab/rules.py:44-83 | a rule whose stripped op is an op's name compiles to that op, whatever surrounds the name |
| `Rules.ExactOpAccepted` | src/sera_lab/rules.py:37-83 | every supported op name, written without padding, compiles to its op |
| `Rules.PaddedOpAccepted` | src/sera_lab/rules.py:44 | an op name with a space on each side, such as `" lower_payload "`, compiles to its op |
| `Rules.Guard` | src/sera_lab/rules.py:46-47 | a rule without a kind applies to every record; a rule with a kind applies exactly to the records of that kind |
| `Rules.Rewrite` | src/sera_lab/rules.py:49-83 | lower and upper keep the payload's length; strip leaves no whitespace at either end; prefix and suffix give a payload as long as `arg` and the old payload together, with `arg` in front for prefix and the old payload in front for suffix |
| `Rules.CompileExactOps` | src/sera_lab/rules.py:37-90 | a rule list whose ops are each spelled exactly as one of two op names always compiles |
| `Rules.Apply` | src/sera_lab/rules.py:46-83 | every compiled transform keeps kind and id, and returns a record of another kind unchanged when the rule has a kind guard |
| `Rules.PrefixSuffixPayload` | src/sera_lab/rules.py:70-83 | a prefix transform yields `arg + payload` and a suffix transform yields `payload + arg` |
| `Rules.ArgIgnored` | src/sera_lab/rules.py:37-40 | lower, upper and strip give the same record whatever the rule's `arg` |
| `Rules.TransformIdempotent` | src/sera_lab/rules.py:49-68 | the lower, upper and strip transforms are idempotent on any record |
| `Rules.PrefixNotIdempotent` | src/sera_lab/rules.py:74-75 | with a non-empty `arg`, applying a prefix transform twice prepends `arg` twice and differs from applying it once |
| `Rules.CompileRules` | src/sera_lab/rules.py:88-90 | compiling a rule list succeeds iff every rule compiles, then gives exactly one transform per rule in input order; otherwise it gives the error of the first rule that fails |
| `Normalize.FoldEmpty` | src/sera_lab/normalize.py:23-28 | with no transforms the record is unchanged |
| `Normalize.FoldAppend` | src/sera_lab/normalize.py:25-28 | folding over `ts1 + ts2` equals folding over `ts1`, then over `ts2` |
| `Normalize.Fold` | src/sera_lab/normalize.py:25-28 | running the transforms in order never changes a record's kind or id |
| `Normalize.FoldSkipsOtherKinds` | src/sera_lab/normalize.py:25-28 | a record that every rule's kind guard turns away comes through unchanged |
| `Normalize.NormalizeRecord` | src/sera_lab/normalize.py:23-28 | the loop applies the transforms left to right, giving the fold of them over the record, with kind and id unchanged |
| `Normalize.NormalizeLine` | src/sera_lab/normalize.py:40-42 | one line normalises iff it parses, and otherwise fails with the parser's error; the result starts with the input record's kind, separator, id and separator |
| `Normalize.NoTransformsIdentity` | src/sera_lab/normalize.py:40-42 | with no transforms, a line that parses comes out as itself without trailing newlines |
| `Normalize.KeepsHeader` | src/sera_lab/normalize.py:40-42 | the normalised line starts with the same kind, separator, id, separator as the input line |
| `Normalize.OutputFacts` | src/sera_lab/normalize.py:38-43 | every line of any output that the per-line contract admits starts with its input line's kind, id and separators |
| `Normalize.NoTransformsOutput` | src/sera_lab/normalize.py:38-43 | with no transforms, every output line is its input line without trailing newlines |
| `Normalize.NormalizeEach` | src/sera_lab/normalize.py:38-43 | the line loop succeeds iff every line parses, then gives one output per line in order, each the rendered fold of that line's record; otherwise it gives the first malformed line's error; headers are kept, and with no transforms outputs equal the stripped inputs |
| `Normalize.NormalizeLines` | src/sera_lab/normalize.py:31-43 | a rule that does not compile fails the call even with no lines; otherwise the call succeeds iff every line parses, with the output in order as above, and fails with the first malformed line's `ParseError` and no partial list |
| `Cli.BuiltinRules` | src/sera_lab/cli.py:36-40 | `--strip` contributes the strip rule first and `--upper-note` the NOTE-only uppercase rule last, one rule per flag |
| `Cli.BuiltinRulesCompile` | src/sera_lab/cli.py:36-40 | whatever the flags, the built-in rule list compiles |
| `Cli.UpperNoteOnlyNote` | src/sera_lab/cli.py:40 | the `--upper-note` rule leaves every record whose kind is not `NOTE` untouched |

## Left out

- Text.Lower: models `str.lower()` on ASCII letters only, because Python's full Unicode case mapping, which can change a string's length, cannot be reproduced here.
- Text.Upper: models `str.upper()` on ASCII letters only, for the same reason.
- Rules.TransformIdempotent: is proved for the ASCII case maps above, not for Python's full Unicode case mapping.
- Error messages: an error carries its kind, the stripped line or the op, and the piece count. The formatted message text of the exceptions is not modelled.
- The `SeraError` base class is not modelled: the two errors are variants of one type.
- `normalize_lines` accepts any iterable, such as an open file. The model takes a finite sequence of lines, so lazy reading is not modelled. Rules are still compiled before any line is looked at.
- Python closures are not modelled as functions. A compiled rule is the data it captures, and `Apply` gives its meaning.
- `src/sera_lab/cli.py` argument parsing, file and standard-stream I/O, and exit codes are I/O plumbing. Only the rule-list construction is modelled.
- `src/sera_lab/core/bootstrap_check.py` probes the environment through external programs, and `src/sera_lab/__main__.py` only dispatches arguments. Neither is part of this model.
