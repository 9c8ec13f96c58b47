# tomlraider, modelled in Dafny

tomlraider reads one property out of a TOML document and prints it for a
shell. The property is a dotted path such as `tool.poetry.name` or
`project.authors[0]`. This project models the path language in its three
iterations:

- `src/tomlraider/core.py`, the current one (module `Core`);
- `src/tomlraider/_main.py`, the variant the package exports (module `Exported`);
- `src/tomlraider/main.py`, the earliest one (module `Early`).

It also models two smaller pieces:

- the exit codes of the command line in `src/tomlraider/cli.py` (module `Cli`);
- the ANSI control-sequence encoder of `src/tomlraider/ansi.py` (module `Ansi`).

Two shared modules hold the rest:

- `PyRuntime` models the Python built-ins the code leans on: `str.split`, `str.join`, `str.strip`, `str(int)`, `int(str)`, and the exceptions as a `Result` datatype.
- `TomlTree` holds the decoded document (`Value`), the path steps (`Step`), dict and list subscripts (negative list indices included), and `str()` of a value.

### How each iteration is modelled

**Parsing a path.** A path is split on `.`. Empty segments are skipped. A segment is accepted in one of two forms:

- a key, when `_validate_key` accepts it;
- `key[n]`, when it matches `^(.+)\[(-?\d*)\]$` and the part before the bracket is a valid key.

The key-validity check decodes a one-line TOML document. It is a parameter `validKey` of every operation that uses it.

**Imperative code.** The loops of `parse_path`, `join_path` and `read_toml` are methods with loop invariants. Each is proved equal to a function that states the result. The properties are proved about those functions.

**The regular expression** is modelled as follows:

- `.` does not match a newline.
- `$` also matches before one final newline.
- The bracket body is an optional `-` followed by ASCII digits.
- The split happens at the last `[`.

**cli.py** imports `PATH_SEPARTOR` from `core.py`, which defines only `PATH_SEPARATOR`. The model assumes that import resolves to the `.` constant.

**`str()` of an `IntEnum` member** is its number from Python 3.11 on. The package needs 3.11 or later for `tomllib`, so `style(...)` writes numbers.

## Model

| member | source | states |
|---|---|---|
| TomlTree.TableItem | src/tomlraider/core.py:71-72 | a dict subscript finds a value exactly when the key is present, and that value is paired with the key |
| TomlTree.ListItem | src/tomlraider/core.py:69-70 | a list subscript succeeds exactly when `-len <= i < len`; a non-negative index selects that element |
| TomlTree.NegativeIndexCountsFromEnd | src/tomlraider/core.py:69-70 | index `-k` with `1 <= k <= len` selects element `len - k` |
| PyRuntime.Split | src/tomlraider/core.py:142 | `str.split(sep)` gives at least one part, and no part contains the separator |
| PyRuntime.JoinSplit | src/tomlraider/core.py:142 | joining the parts of a split with the separator gives back the string |
| PyRuntime.SplitJoin | src/tomlraider/core.py:142 | splitting a join of separator-free parts gives back the parts |
| PyRuntime.Strip | src/tomlraider/cli.py:181 | `strip(c)` is no longer than its input, and what is left neither starts nor ends with `c` |
| PyRuntime.StripIsSlice | src/tomlraider/cli.py:181 | what `strip(c)` keeps is one slice of the input, and every character it drops is `c` |
| PyRuntime.IntToString | src/tomlraider/core.py:163 | `str(n)` is non-empty and made of digits and `-` |
| PyRuntime.ParseInt | src/tomlraider/core.py:148 | `int()` of a bracket body fails exactly for `""` and `"-"` |
| PyRuntime.ParseIntToString | src/tomlraider/core.py:163 | `str(n)` is a valid bracket body, and `int(str(n)) == n` for every integer, negative ones included |
| Core.GetItem | src/tomlraider/core.py:68-77 | a Key on a table or an Index on an array subscripts the container; the other two pairings raise TOMLLookUpError naming the container kind and the step kind |
| Core.Resolve | src/tomlraider/core.py:94-118 | `read_toml` raises only TOMLLookUpError, KeyError or IndexError |
| Core.ResolveRootCases | src/tomlraider/core.py:99-104 | the empty path returns the whole document; a path starting with an Index raises TOMLLookUpError before any lookup |
| Core.ReadToml | src/tomlraider/core.py:94-118 | the loop that stacks `locations` computes `Resolve` |
| Core.ResolveIsTrail | src/tomlraider/core.py:94-118 | `read_toml` returns `v` exactly when the path is empty or starts with a Key, and some walk along it, through containers only, ends at `v` (an atom, a table or an array) |
| Core.ResolveResumes | src/tomlraider/core.py:106-112 | after `i` successful steps, the rest of the lookup is the lookup of the remaining steps from the container reached |
| Core.ResolveStopsAt | src/tomlraider/core.py:99-118 | where a walk stops: a non-final atom raises TOMLLookUpError, a mismatched step raises TOMLLookUpError, a missing key raises KeyError, an index out of range raises IndexError |
| Core.LastIndexOf | src/tomlraider/core.py:132 | the position of the last `[`, with none after it, or none in the string |
| Core.MatchKeyIndex | src/tomlraider/core.py:132-134 | a match yields a non-empty prefix without newline and a valid bracket body, and the segment is `prefix[body]`, with an optional final newline |
| Core.MatchKeyIndexComplete | src/tomlraider/core.py:132-134 | every `k[body]` with such a `k` and body matches, with exactly those groups |
| Core.LookForKeyIndice | src/tomlraider/core.py:131-136 | the glue as written: the groups are returned exactly when the pattern matches and its key group is valid; what a match means is stated by MatchKeyIndex and MatchKeyIndexComplete |
| Core.ClassifySegment | src/tomlraider/core.py:145-151 | a valid key gives `Key(seg)`; otherwise a match gives a valid, shorter key and one Index; the segment is invalid exactly when neither form applies |
| Core.ParseSegments | src/tomlraider/core.py:141-152 | parsing raises only TOMLPathFormatError or ValueError |
| Core.ParseSegmentsKeepsError | src/tomlraider/core.py:149-151 | the first bad segment decides the error; later segments do not change it |
| Core.ParsePath | src/tomlraider/core.py:139-152 | the loop appending to `out` computes `Parse` |
| Core.ParseSegmentsOkIff | src/tomlraider/core.py:142-151 | parsing succeeds exactly when every non-empty segment is a key or a key with an index |
| Core.ParseErrorNamesSegment | src/tomlraider/core.py:149-151 | a TOMLPathFormatError is `Invalid key in TomlPath: seg` for a non-empty segment `seg` that is neither form |
| Core.ParseSegmentsWellFormed | src/tomlraider/core.py:142-152 | every parsed path is a run of valid, non-empty, dot-free keys, each followed by at most one Index |
| Core.ParsedIndexFollowsKey | src/tomlraider/core.py:145-148 | every Index in the output follows a Key, so the output never starts with an Index |
| Core.ParseSkipsEmptySegments | src/tomlraider/core.py:142-144 | `""` and `"."` parse to `[]`, and `"..a.."` to `[Key a]` |
| Core.ParseSingleKey | src/tomlraider/core.py:145-146 | a valid key without a dot parses to itself |
| Core.ClassifyIndexed | src/tomlraider/core.py:145-148 | `k[n]`, for valid `k` when `k[n]` is not itself a key, gives `Key k, Index n` |
| Core.ParseKeyIndex | src/tomlraider/core.py:147-148 | `k[n]` parses to `[Key k, Index n]`, negative `n` included |
| Core.ParseRejectsLetterIndex | src/tomlraider/core.py:147-151 | `a[x]` raises TOMLPathFormatError naming the segment |
| Core.ParseRejectsBareIndex | src/tomlraider/core.py:132-136 | `[0]` raises TOMLPathFormatError, because `.+` needs a prefix |
| Core.ParseRejectsDoubleIndex | src/tomlraider/core.py:131-136 | `a[1][2]` raises TOMLPathFormatError, because its prefix `a[1]` is no key |
| Core.ParseRejectsEmptyIndex | src/tomlraider/core.py:147-148 | `a[]` passes the pattern and raises ValueError from `int("")` |
| Core.JoinPath | src/tomlraider/core.py:155-164 | the loop extending `out` and joining it computes `Join` (`.k` per Key, `[n]` per Index) |
| Core.JoinWellFormedReparses | src/tomlraider/core.py:155-164 | the text of a well-formed path splits and parses back to the path |
| Core.JoinParseRoundTrip | src/tomlraider/core.py:155-164 | re-parsing `join_path(p)` gives `p` for every `p` that `parse_path` returns, when no valid key ends in `[n]` |
| Core.BareKeyRejectsIndexed | src/tomlraider/core.py:121-127 | TOML bare keys satisfy that condition, so the round trip holds for them |
| Core.ResolveExample | src/tomlraider/core.py:106-118 | in `{"a": {"b": [1, 2, 3]}}`, `a.b[1]` is 2 and `a.b[-1]` is 3 |
| Core.DumpsShell | src/tomlraider/core.py:167-189 | the shell form fails exactly for a local date, with NotImplementedError, and a table prints `.path`; DumpsShellSpecialKinds and DumpsShellListSplits state the other kinds |
| Core.DumpsShellSpecialKinds | src/tomlraider/core.py:172-184 | booleans print 1 and 0; every table prints `.path`; booleans inside a list print True and False; `[1, 2, 3]` prints `1 2 3` |
| Core.DumpsShellListSplits | src/tomlraider/core.py:181-182 | a list's output splits on spaces back into the `str()` of its elements, when none of those holds a space |
| Core.DumpsShellRejectsDate | src/tomlraider/core.py:185-188 | rendering fails exactly for a local date, with `Unsupported type: <class 'datetime.date'>` |
| Core.DumpsShellIntended | src/tomlraider/core.py:185-188 | the corrected formatter agrees wherever the original renders, and prints a date's text |
| Exported.GetItem | src/tomlraider/_main.py:80-85 | a mismatched step raises a bare TypeError; otherwise the subscript is core's |
| Exported.ResolveRootCases | src/tomlraider/_main.py:93-98 | the empty path returns the whole document; a path starting with an Index raises TypeError |
| Exported.ReadToml | src/tomlraider/_main.py:88-109 | the loop that stacks `locations` computes this variant's `Resolve` |
| Exported.ResolveAgreesWithCore | src/tomlraider/_main.py:88-109 | this variant succeeds exactly where core's does, with the same value and the same KeyError and IndexError; core's TOMLLookUpError becomes a TypeError |
| Exported.ParseSegments | src/tomlraider/_main.py:155-166 | parsing raises only a `_CliError` or ValueError |
| Exported.ParseSegmentsKeepsError | src/tomlraider/_main.py:163-165 | the first bad segment decides the error |
| Exported.ParsePath | src/tomlraider/_main.py:153-166 | the loop appending to `out` computes this variant's `Parse` |
| Exported.ParseSegmentsAgreeWithCore | src/tomlraider/_main.py:153-166 | the parse succeeds and fails on the same inputs as core's, with the same steps and the same ValueError; core's TOMLPathFormatError for `seg` is `_CliError("Invalid key: seg")` with code 1 here |
| Exported.JoinPath | src/tomlraider/_main.py:169-171 | when no key holds a dot, the text of a non-empty path splits on dots into exactly the `str()` of each step, one part per step, an Index included |
| Exported.StepTextsSplit | src/tomlraider/_main.py:171 | the dot-joined `str()` of the steps splits back into those texts, since an index prints as digits and `-` only |
| Exported.ForgetIndices | src/tomlraider/_main.py:169-171 | a reference definition, not code of `_main.py`: the path with each Index replaced by the Key spelled by its number, which JoinPathReparse proves is what re-parsing `join_path(p)` yields |
| Exported.ParseValidSegments | src/tomlraider/_main.py:156-162 | non-empty valid segments parse to one Key each |
| Exported.JoinPathReparse | src/tomlraider/_main.py:169-171 | re-parsing `join_path(p)` gives `p` with every Index turned into the Key of its number |
| Exported.JoinPathLosesIndex | src/tomlraider/_main.py:169-171 | `[Key a, Index 1]` prints as `a.1` and re-parses to `[Key a, Key "1"]` |
| Early.NonEmpty | src/tomlraider/main.py:78 | every kept part is a non-empty part of the input, and every non-empty part of the input is kept; NonEmptyAppend and NonEmptySingle fix the order |
| Early.NonEmptyAppend | src/tomlraider/main.py:78 | filtering `a + b` gives the filtered `a` followed by the filtered `b`, so the comprehension keeps the input's order |
| Early.NonEmptySingle | src/tomlraider/main.py:78 | a single part is kept exactly when it is not empty |
| Early.ParsePath | src/tomlraider/main.py:76-78 | the parts are non-empty and contain no dot, and every non-empty segment of the split is among them |
| Early.ParsePathConcat | src/tomlraider/main.py:76-78 | the parts of `x.y` are the parts of `x` followed by `y` when `y` is non-empty, and the parts of `x` alone when it is empty: every non-empty segment is kept, in order, whatever empty segments surround it |
| Early.ParsePathRoundTrip | src/tomlraider/main.py:76-78 | non-empty dot-free keys joined by dots parse back to the same keys, in order |
| Early.ParsePathSkipsEmpty | src/tomlraider/main.py:78 | `""` and `"."` give `[]`, and `"..a.."` gives `["a"]` |
| Early.ParsePathMatchesCore | src/tomlraider/main.py:76-78 | when every segment is a valid key, core parses the path to the Keys of these parts |
| Early.ReadToml | src/tomlraider/main.py:81-90 | the loop reassigning `toml_loc` computes `Walk`: a found value, `None`, or the AttributeError of `.get` on a non-table |
| Early.WalkNoGet | src/tomlraider/main.py:86-90 | the AttributeError comes from a non-final part whose value is found and is not a table |
| Early.ReadTomlMatchesCore | src/tomlraider/main.py:81-90 | on a path of keys: found exactly when core succeeds (same value); `None` exactly when core raises KeyError; AttributeError exactly when core raises TOMLLookUpError |
| Early.NotTableReport | src/tomlraider/main.py:214-218 | the report as written, naming the part before the last whatever the depth of the failure; its partners are the two lemmas below |
| Early.NotTableReportIntendedNamesHolder | src/tomlraider/main.py:214-218 | the corrected report names the path part whose value is not a table; it equals the original report when that part is the second to last, and in general exactly when the two parts have the same name |
| Early.NotTableReportNamesWrongPart | src/tomlraider/main.py:214-218 | in `{"a": [1]}`, `a.b.c` fails at `a`, but the report as written names `b` |
| Early.FirstNonStr | src/tomlraider/main.py:109 | the position of the first element that is not a str, or none when all are |
| Early.JoinStrs | src/tomlraider/main.py:108-109 | `" ".join` succeeds exactly when every element is a str; otherwise the TypeError names the first non-str item, by position and type |
| Early.Dumps | src/tomlraider/main.py:93-116 | `None` prints `__null`; the shell form fails exactly for a date or a list holding a non-str, with NotImplementedError or TypeError |
| Early.DumpsMatchesCore | src/tomlraider/main.py:93-116 | `None` prints `__null`; on everything but a list the output is core's; a list succeeds exactly when it holds only strings, and then agrees with core |
| Early.DumpsRejectsMixedList | src/tomlraider/main.py:108-109 | `["a", 1]` raises `sequence item 1: expected str instance, int found` |
| Cli.ErrorCode | src/tomlraider/cli.py:60-71 | the code is 1 to 6, and it is 1 exactly when there is no cause or the cause's exact type is not in the table |
| Cli.ErrorCodesDistinct | src/tomlraider/cli.py:60-66 | the listed types have pairwise distinct codes |
| Cli.ErrorCodeTable | src/tomlraider/cli.py:60-71 | TOMLDecodeError 2, TOMLPathFormatError 3, TOMLLookUpError 4, KeyError 5, IndexError 6, no cause 1 |
| Cli.NewCliError | src/tomlraider/cli.py:68-72 | the constructor as written: a `_CLIError` keeps its message and quiet flag and carries the code of its cause; what the code means is in ErrorCode |
| Cli.Main | src/tomlraider/cli.py:185-199 | 0 when the run completes; a `_CLIError`'s code after its message; any other exception escapes |
| Cli.Run | src/tomlraider/cli.py:137-182 | a run completes only on a decoded document and a path that parses; it fails only with a `_CLIError`, KeyError, IndexError, ValueError or NotImplementedError |
| Cli.RunExitCodes | src/tomlraider/cli.py:138-182 | code 3 exactly for a bad path, 1 exactly for a missing file or pyproject, 2 exactly for an undecodable file, 4 exactly for a TOMLLookUpError, 0 exactly when the output is written |
| Cli.RunNeverReturnsKeyOrIndexCode | src/tomlraider/cli.py:172-178 | no run returns 5 or 6; a run crashes only with KeyError, IndexError, ValueError or NotImplementedError |
| Cli.MissingKeyCrashes | src/tomlraider/cli.py:172-178 | the property `a` on an empty document ends with an uncaught KeyError |
| Cli.RunIntended | src/tomlraider/cli.py:172-178 | with KeyError and IndexError caught as well, a run fails only with a `_CLIError`, ValueError or NotImplementedError |
| Cli.RunIntendedCodes | src/tomlraider/cli.py:60-66 | with lookup errors caught, a KeyError returns 5 and an IndexError 6, every other run is unchanged, and only ValueError and NotImplementedError escape |
| Cli.RunPrintsTablePath | src/tomlraider/cli.py:179-182 | `..a..` on `{"a": {}}` prints `.a` |
| Ansi.ControlPrefixes | src/tomlraider/ansi.py:81-118 | the CSI prefix is ESC `[`, the OSC prefix is ESC `]`, and both begin with the C1 prefix ESC |
| Ansi.Bell | src/tomlraider/ansi.py:70-75 | the constant as written: BELL is the single character U+0007; SetTitleEndsAtFirstBel is what depends on it |
| Ansi.DecodeNumerals | src/tomlraider/ansi.py:105 | the decimal text of non-negative parameters reads back as the parameters |
| Ansi.Csi | src/tomlraider/ansi.py:93-108 | a CSI sequence starts with ESC `[` and ends with its command; CsiRoundTrip shows it reads back to its parameters |
| Ansi.Osc | src/tomlraider/ansi.py:115-130 | an OSC sequence starts with ESC `]` and ends with its command |
| Ansi.CsiRoundTrip | src/tomlraider/ansi.py:93-108 | a control sequence with non-negative parameters reads back, as ESC `[` params `;`-separated and a final character, to its parameters and its command |
| Ansi.BackgroundIsForegroundPlusTen | src/tomlraider/ansi.py:169-213 | each Background value is the same-named Foreground value plus 10 |
| Ansi.SgrCode | src/tomlraider/ansi.py:151-213 | every enum value lies between 0 and 107 |
| Ansi.SgrCodeUnique | src/tomlraider/ansi.py:151-213 | each value decodes back to its own enum member, so values are unique within each enum and across the three |
| Ansi.SgrCodeInjective | src/tomlraider/ansi.py:151-213 | two members have the same value exactly when they are the same member |
| Ansi.StyleSeq | src/tomlraider/ansi.py:279-282 | a style sequence starts with ESC `[` and ends with `m` |
| Ansi.StyleDecodes | src/tomlraider/ansi.py:259-282 | `style(p1..pn)` reads back as SGR (`m`) with the members' values, in order, each naming its member; `style()` is ESC `[m` |
| Ansi.SetTitle | src/tomlraider/ansi.py:285-288 | a title sequence starts with ESC `]` and ends with BEL |
| Ansi.SetTitleText | src/tomlraider/ansi.py:133-136 | `set_title(t)` is ESC `]2;`, then `t` as it stands, then BEL |
| Ansi.SetTitleEndsAtFirstBel | src/tomlraider/ansi.py:285-288 | the sequence ends at its first BEL exactly when the title holds no BEL, because nothing is escaped |
| Ansi.EraseSequences | src/tomlraider/ansi.py:269-276 | `clear_screen` … `clear_line_after` are ESC `[` n `J` for ED(0..3) and ESC `[` n `K` for EL(2, 1, 0) |

## Left out

- TOML decoding (`tomllib.loads`) is a foreign library. The model takes the decoded document as input. `_validate_key`, which decodes `key='test'`, is the parameter `validKey`.
- JSON output (`json.dumps`) is not modelled; only the shell branch of each `dumps` is.
- `str()` of floats, datetimes, dates and times is opaque text carried in the value. `repr()` of strings nested inside a printed list is approximated by single quotes, without Python's escaping rules.
- TomlTree.Repr: a date, time or datetime nested in a printed list or table prints its `str()` text, where Python prints its constructor form such as `datetime.date(2024, 1, 1)`.
- Unicode digits in the regular expression's `\d` are not modelled; only ASCII digits are.
- Command-line I/O is replaced by parameters: argparse, reading the file or stdin, `sys.argv` rewriting, the `MESON_SOURCE_ROOT` and pyproject lookup, and the "Reading property" message. A run takes the property, the quiet flag and what became of the input file.
- The `_main.py` and `main.py` command lines (`_cli_parse_argv`, `main`, `exit_with_error`) are not modelled beyond the `main.py` report on a non-table. `_main.py`'s glue catches AttributeError while its `read_toml` raises TypeError; that mismatch is outside this model.
- `_main.py`'s `_validate_key`, `_look_for_key_indice` and `_dumps` are the same as `core.py`'s and are modelled once, in `Core`.
- Exported.GetItem: the bare `TypeError` raised by `_TomlContainer.__getitem__` is modelled as a TypeError with an empty message.
- Cli.Run: the text of a TOMLDecodeError message is a parameter, since it comes from the decoder.
- Ansi.StyleSeq: accepts every enum member. The `SGR_Params` literal type excludes ITALIC, UNDERLINE, SLOW_BLINK, BLINK and INVERT only for a type checker, not at run time.
- Ansi.CsiRoundTrip: covers non-negative parameters only. A negative `int` parameter would write `-`, which ECMA-48 does not allow in a parameter.
- Cli.Main and Cli.Run: cli.py:31 imports `PATH_SEPARTOR` from `core.py`, which defines only `PATH_SEPARATOR`, so importing `cli.py` as written raises ImportError before `main` can run. The model reads that name as the `.` constant, and everything stated about a run presupposes the import is fixed.
- The colorama import in `ansi.py`, `prettyparser.py`, `_traceback.py`, `__init__.py` and the tests are UI, platform or packaging code, not part of this model.

## Findings

| source | as written | input that shows it | evidently intended | confidence | as-written member | corrected member |
|---|---|---|---|---|---|---|
| src/tomlraider/core.py:185-188 | a TOML local date (decoded as `datetime.date`) reaches the "should never happen" branch and raises NotImplementedError | `d = 2024-01-01`, property `d` | a date prints its `str()` like datetimes and times | not executed; high | Core.DumpsShellRejectsDate | Core.DumpsShellIntended |
| src/tomlraider/cli.py:172-178 | once the misspelt `PATH_SEPARTOR` import at cli.py:31 is fixed, only TOMLDecodeError and TOMLLookUpError from `read_toml` become a `_CLIError`, so codes 5 and 6 are never returned and a missing key crashes | property `a` on an empty document | KeyError returns 5 and IndexError returns 6, as the code table says | not executed; high | Cli.RunNeverReturnsKeyOrIndexCode | Cli.RunIntendedCodes |
| src/tomlraider/main.py:214-218 | the "is not a table" report always names the second-to-last part of the path | `{"a": [1]}`, property `a.b.c` names `b` | name the part whose value has no `.get` (`a`) | not executed; medium | Early.NotTableReportNamesWrongPart | Early.NotTableReportIntendedNamesHolder |
| src/tomlraider/_main.py:169-171 | `join_path` writes an Index as `.n`, which re-parses as a Key | `[Key a, Index 1]` gives `a.1` | the bracket form, so that re-parsing gives back the path (as `core.py` later does) | not executed; medium | Exported.JoinPathLosesIndex | Core.JoinParseRoundTrip |
