# Space-Track query builder: a Dafny model

`DataExtractor.SpaceTrackQuery` (in `spacetrack_connector.py`) fetches historical orbital element sets from the Space-Track service. It works in four steps:

1. It turns a list of search constraints into a REST link: the dataset class, then one path segment per constraint, then the sort order and an optional limit.
2. It logs in with the configured credentials.
3. It issues a GET for that link.
4. If asked, it saves the returned JSON document under a file name normalised to end in `.json`.

This project models that function and proves what it promises.

Modules:

- `Results`: the `Ok` / `Err` result type.
- `Text`: the string operations the code relies on, over `seq<char>`:
  - `list.index` (`Find`);
  - the stride-2 slice `[2::2]` (`EveryOther`);
  - `[:-1]` (`DropLast`);
  - comma-joining (`Trailing`, `Join`, `Split`);
  - ASCII `upper()` (`Upper`);
  - `str` on integers (`IntToString`, with a parser `ParseInt` as its inverse).
- `Vocabulary`: the enums `SpaceTrackDatabases`, `SearchFields` and `Operators` with their values, and the dataset guard.
- `QueryCompiler`: link assembly.
  - Specification functions: `RangeBlock`, `AlternativesBlock`, `Segment`, `Segments`, `SortLimit` and `Link`.
  - Each one is implemented by a method that follows the code's loops: `EncodeRange`, `EncodeAlternatives`, `EncodeConstraint`, `EncodeConstraints`, `EncodeSortLimit` and `CompileLink`. Each method is proved equal to its function.
- `CompilerLaws`: properties of the link.
  - When RANGE fails, and what it yields for distinct bounds.
  - EQUAL/LIKE blocks split back into their upper-cased alternatives.
  - The single-value operators.
  - First-failure and concatenation laws for constraint lists.
  - Sort and limit suffixes.
  - The link built for the constraints of the program's own driver (`main.py`).
- `Session`: the network part as a state machine over abstract responses.
  - `Query` gives the result and the ordered list of effects of one call: open the session, POST the login, GET the query, write the file, close the session.
  - The method `SpaceTrackQuery` follows the code's control flow and is proved equal to `Query`.
  - The file name becomes `FileStem(name) + ".json"`.
- `SessionLaws`: the gates between effects.
  - Nothing is sent when a constraint fails.
  - The GET happens only after a 200 login.
  - The file is written only after a 200 GET and only when `save_data` holds.
  - Effects happen in protocol order, and a session that was opened is closed last.
  - File-name normalisation: one dot, idempotent, first dot wins.

Error conditions are modelled as values (`CompileError`, `Failure`), not as preconditions:

- `RangeIndexError`: RANGE's `Constraint[index + 1]` runs past the end.
- `OperandIndexError`: `Constraint[2]` on a GREATER_THAN / LESS_THAN / NOT_EQUAL constraint with no value.
- `LoginRejected` and `QueryRejected`: the `ConnectionError` raised for a status other than 200.

Where the code and its description differ, the model follows the code:

- **Dataset guard.** The guard on lines 38-39 reads `database != LATEST_RECORDS or database != HIST_RECORDS`. That condition is true for every argument, so the dataset is always `gp_history` and the `database` argument has no effect (`ResolveDataset`, `LinkIgnoresDataset`). The code does not reject an unknown dataset.
- **Odd RANGE lists.** An odd number of RANGE values does not always fail. `Constraint.index(val)` finds the first occurrence of a value, so a dangling last value that also appears earlier takes the partner of that earlier occurrence. The call fails exactly when the count is odd and the last value occurs nowhere before (`RangeFailsExactly`).
- **Empty lists.** An empty EQUAL, LIKE or RANGE list yields the segment `/FIELD/` with nothing after the second slash (`EmptyValueBlock`).

## Model

| member | source | states |
|---|---|---|
| Vocabulary.ResolveDataset | spacetrack_connector.py:38-39 | the guard's condition holds for every argument, and the dataset used is always `HIST_RECORDS`, whose value is `gp_history` |
| Vocabulary.FieldValueInjective | spacetrack_connector.py:10-18 | distinct search fields have distinct path names |
| Vocabulary.OperatorValueInjective | spacetrack_connector.py:20-26 | distinct operators have distinct symbols |
| Text.Find | spacetrack_connector.py:52 | `list.index`: -1 exactly when the value is absent; otherwise an index holding the value with no earlier occurrence |
| Text.FindDistinct | spacetrack_connector.py:52 | in a list of pairwise-distinct values, each value is found at its own position |
| Text.EveryOther | spacetrack_connector.py:51 | the slice `[2::2]` of the values: element k is value 2k, and there are half the values rounded up |
| Text.DropLast | spacetrack_connector.py:55 | `[:-1]` is a prefix one shorter, and the empty string stays empty |
| Text.DropLastTrailing | spacetrack_connector.py:53-55 | dropping the last character of the items each followed by a comma gives the items joined by commas |
| Text.TrailingEndsInComma | spacetrack_connector.py:53 | text built from at least one item always ends in the comma that `[:-1]` then removes |
| Text.SplitJoin | spacetrack_connector.py:60-62 | cutting a comma-joined text at its commas gives back the comma-free items |
| Text.Upper | spacetrack_connector.py:60 | `upper()` keeps the length, maps each character through `UpperChar`, and leaves no lower-case ASCII letter |
| Text.UpperIdempotent | spacetrack_connector.py:60 | upper-casing twice is upper-casing once, and text without lower-case letters is unchanged |
| Text.NatToString | spacetrack_connector.py:74 | `str` of a natural is a non-empty string of digits with no leading zero |
| Text.IntToString | spacetrack_connector.py:74 | `str` of an integer is non-empty and starts with `-` exactly for negatives |
| Text.IntToStringRoundTrip | spacetrack_connector.py:74 | the limit's text parses back to the limit |
| QueryCompiler.RangePairs | spacetrack_connector.py:51-53 | one `low--high` pair per low bound, with the high bound taken after the low's first occurrence |
| QueryCompiler.Alternatives | spacetrack_connector.py:59-60 | one alternative per value: the operator symbol followed by the upper-cased value |
| QueryCompiler.Link | spacetrack_connector.py:37-81 | the link compiles exactly when the constraints do; it is the base, the query class path, `gp_history`, the segments and the sort suffix; a failure is the constraints' failure |
| QueryCompiler.EncodeRange | spacetrack_connector.py:50-56 | the RANGE loop builds exactly `RangeBlock`: the pairs comma-joined, or the index error when a low bound has no successor |
| QueryCompiler.EncodeAlternatives | spacetrack_connector.py:58-63 | the EQUAL/LIKE loop builds exactly `AlternativesBlock` |
| QueryCompiler.EncodeConstraint | spacetrack_connector.py:47-67 | one constraint's segment is exactly `Segment`, error cases included |
| QueryCompiler.EncodeConstraints | spacetrack_connector.py:46-69 | the outer loop builds exactly `Segments`, stopping at the first failing constraint |
| QueryCompiler.EncodeSortLimit | spacetrack_connector.py:71-74 | the sort and limit suffix is exactly `SortLimit` |
| QueryCompiler.CompileLink | spacetrack_connector.py:37-81 | the link-building part of the function yields exactly `Link` |
| QueryCompiler.CollectStopAtFailure | spacetrack_connector.py:46-69 | once a constraint fails, the result is that failure whatever follows |
| CompilerLaws.RangeFailsExactly | spacetrack_connector.py:50-55 | RANGE fails if and only if the value count is odd and the last value occurs nowhere earlier |
| CompilerLaws.DanglingBoundFails | spacetrack_connector.py:51-52 | an odd list whose last value is new fails with the index error |
| CompilerLaws.FailureIsDangling | spacetrack_connector.py:51-52 | a failing RANGE list is odd and its last value is new |
| CompilerLaws.RangeDistinct | spacetrack_connector.py:50-56 | with distinct values and an even count, the block is the consecutive `values[2k]--values[2k+1]` pairs comma-joined |
| CompilerLaws.UpperKeepsCommas | spacetrack_connector.py:60 | upper-casing neither adds nor removes commas |
| CompilerLaws.AlternativesSplit | spacetrack_connector.py:58-63 | the EQUAL/LIKE block cut at its commas gives back every value, upper-cased and prefixed, in order |
| CompilerLaws.SingleValueOperators | spacetrack_connector.py:65-67 | GREATER_THAN, LESS_THAN and NOT_EQUAL use only the first value, unchanged, and fail with no value |
| CompilerLaws.EmptyValueBlock | spacetrack_connector.py:50-63 | RANGE, EQUAL and LIKE with no value yield `/FIELD/` |
| CompilerLaws.CollectOkExactly | spacetrack_connector.py:46-69 | collecting results succeeds exactly when each result does |
| CompilerLaws.SegmentsOkExactly | spacetrack_connector.py:46-69 | the constraint list compiles if and only if every constraint does |
| CompilerLaws.SegmentsFirstFailure | spacetrack_connector.py:46-69 | the error reported is that of the first failing constraint |
| CompilerLaws.SegmentsAppend | spacetrack_connector.py:46-69 | compiling two lists one after the other is compiling their concatenation |
| CompilerLaws.SegmentsOne | spacetrack_connector.py:46-69 | a single constraint compiles to its own segment |
| CompilerLaws.SegmentsOfTwo | spacetrack_connector.py:46-69 | two constraints compile to their two segments, in order |
| CompilerLaws.LinkIgnoresDataset | spacetrack_connector.py:38-42 | the `database` argument never changes the link |
| CompilerLaws.SortLimitSuffix | spacetrack_connector.py:71-74 | `asc` exactly for `asc_sort == 1`, `desc` otherwise; the limit suffix only for an `int` limit, with its number reading back as the limit |
| CompilerLaws.SortLimitExamples | spacetrack_connector.py:71-74 | the suffixes for `EPOCH` ascending, descending, and ascending with limit 50 |
| CompilerLaws.DriverEqualBlock | main.py:6 | the value block of `NORAD_CAT_ID EQUAL 25544` is `25544` |
| CompilerLaws.DriverEqualSegment | main.py:6 | that constraint gives the segment `/NORAD_CAT_ID/25544` |
| CompilerLaws.UpperExamples | spacetrack_connector.py:60 | `iss` and `zarya` upper-case to `ISS` and `ZARYA` |
| CompilerLaws.UpperCasedBlock | spacetrack_connector.py:58-62 | the EQUAL block of `iss`, `zarya` is `ISS,ZARYA` |
| CompilerLaws.UpperCasedAlternatives | spacetrack_connector.py:58-63 | that constraint on `OBJECT_NAME` gives `/OBJECT_NAME/ISS,ZARYA` |
| CompilerLaws.DriverRangeBlock | main.py:7 | the RANGE block of the driver's epochs is `2010-01-01--2010-12-01` |
| CompilerLaws.DriverRangeSegment | main.py:7 | that constraint gives the segment `/EPOCH/2010-01-01--2010-12-01` |
| CompilerLaws.DriverSegments | main.py:5-8 | the driver's two constraints give their two segments, in order |
| CompilerLaws.DriverLink | main.py:10-14 | the complete link the driver requests: base, query class, `gp_history`, both segments, `/orderby/EPOCH asc` |
| Session.FileStem | spacetrack_connector.py:100-101 | the name up to its first dot: a prefix with no dot, followed in the name by a dot when shorter |
| Session.SpaceTrackQuery | spacetrack_connector.py:84-106 | the call's result and effects are exactly those of `Query`: compile, login, GET, optional save, close |
| SessionLaws.NoNetworkOnBadConstraint | spacetrack_connector.py:46-84 | the call performs no effect exactly when the link fails to compile, and then reports that compile error |
| SessionLaws.QueryOnlyAfterLogin | spacetrack_connector.py:85-91 | the GET is issued exactly when the link compiled and the login answered 200, and it asks for the compiled link |
| SessionLaws.ResultOnlyAfterBoth | spacetrack_connector.py:87-97 | the body is returned exactly when both statuses are 200; otherwise the first status that was not 200 is reported |
| SessionLaws.WriteOnlyWhenSaved | spacetrack_connector.py:97-104 | a file is written exactly when both statuses are 200 and `save_data` holds, under `JsonFileName` and holding the body |
| SessionLaws.EffectsInOrder | spacetrack_connector.py:84-106 | effects happen at most once each, in order open, login, GET, write, close; an opened session is closed last |
| SessionLaws.JsonFileNameHasOneDot | spacetrack_connector.py:99-103 | the saved name's only dot is the one before `json` |
| SessionLaws.JsonFileNameIdempotent | spacetrack_connector.py:99-103 | normalising a normalised name changes nothing |
| SessionLaws.JsonFileNameAt | spacetrack_connector.py:100-103 | a name whose first dot is at position i is saved as its first i characters plus `.json` |
| SessionLaws.DriverFileName | main.py:11 | `ISS_dados.json` is kept as it is |
| SessionLaws.FirstDotWins | spacetrack_connector.py:101 | `a.b.c` is saved as `a.json` |
| SessionLaws.ExtensionReplaced | spacetrack_connector.py:100-103 | `data.csv` and `data` are both saved as `data.json` |

## Left out

- HTTP: the `requests` session, the POST and the GET are not modelled. They become the `Responses` parameter (two status codes and a body) and the `Event` trace. Timeouts, redirects, connection failures and cookies are not modelled.
- Credentials: reading `STCredentials.ini` with `configparser` is not modelled. The credentials are a parameter. Errors from a missing file or key are not modelled.
- JSON: `json.loads` and `json.dump` are not modelled. The response body stands for the parsed document, and a body that is not valid JSON is not modelled.
- `print` of a rejected response is not modelled; it has no effect on the result.
- Files: opening and writing the file are not modelled. Writing is the `WriteFile` event.
- The `urlencode`-style escaping that `requests` applies to the link (e.g. the space before `asc`) is not modelled; the link is the string the code builds.
- `ConnectionError` is not modelled as a class. Both of its raise sites become the `LoginRejected` and `QueryRejected` failures. The class's misspelled `__init___` is irrelevant to the model.
- `SpecialValues.NULL` is not modelled; no operation of the core treats it specially.
- Constraint values are modelled as strings, i.e. as their `str()`. Python equality between distinct objects with equal text (for example `1` and `"1"`) is not modelled. Nor is `1 == True` in `list.index`.
- `Constraint.index` searches the field and operator too. The model searches the values only, because `SearchFields` and `Operators` members never equal a value.
- `Text.Upper`: modelled as ASCII upper-casing; Unicode case mapping (e.g. `ß` → `SS`) is not modelled.
- `asc_sort` is an integer, so `True` or `1.0` (which Python also treats as equal to 1) is not modelled. `limit` is reduced to three cases: none, an `int`, and something else.
- `orekit_setup.py` and the propagation part of `main.py` are not part of this model.
