# sigrab core, modelled in Dafny

sigrab is a command-line tool that downloads Jira issues backwards from an
ending key. Given `PROJ-5`, it asks the Jira service for `PROJ-5`, `PROJ-4`,
... `PROJ-1`, skips the keys the service cannot return, and saves every issue
it gets as `<dir>/<key>.json`. This project models the four pieces that make
up that core:

- `Parser` (`parser.dfy`) is the issue-key parser `ParseIssueKey`. It splits a
  key on `-` and converts the number with `strconv.Atoi`. Go's `strings.Split`
  and `strconv.Atoi` are modelled exactly, as is the `%d` rendering the
  fetcher uses to build candidate keys. For `Atoi` this includes the 64-bit
  range check, and the range error Go reports when a run of digits grows
  past 2^64 - 1 before a non-digit is reached.
- `Jira` (`jira.dfy`) is the `Fetcher` class and its `FetchBackward` loop. The
  method is proved equal to a pure specification, `FetchSpec`, whose loop is
  the function `Walk`. The lemmas about `Walk` state:
  - which keys are requested, and in what order;
  - that every issue retrieved is written exactly once;
  - what is returned on success and on failure;
  - when a run fails;
  - which files change.
- `Output` (`output.dfy`) is the `Writer` and its `WriteToFile`. The method is
  proved equal to the pure function `WriteSpec`.
- `Config` (`config.dfy`) is `LoadConfig`. The process environment is a map
  passed in as a parameter.

`GoStrings` (`gostrings.dfy`) holds `strings.Join`, which both the parser's
split and the configuration's error text use. `Os` (`os.dfy`) holds the file
system as a class. Its `files` map is updated
in place by `WriteFile`, and the oracle `canWrite` says whether a write to a
given name succeeds. `GoJira` (`gojira.dfy`) holds the issue type and the
`Client`. The client is a function from a key to an optional issue: the issue
the service returns, or `None` when `GetIssue` fails for any reason.
`FetchBackward` also returns, as a ghost out-parameter, a trace of the calls it
made: retrievals and writes. The lemmas about ordering and write pairing are
stated over that trace.

The test files become lemmas about concrete inputs:

- `FetcherScenarios` and `FetcherFixtures` in `fetcher_scenarios.dfy` cover
  the fetcher tests. The mock HTTP servers become client functions, and the
  missing output directory becomes a `canWrite` oracle that always fails.
- `ParserScenarios` in `parser_scenarios.dfy` covers the parser test table.
- `Config.LoadConfigCases` covers the configuration tests.

## Model

| member | source | states |
|---|---|---|
| Parser.Split | utils/parser.go:10 | `strings.Split` on one separator character gives one more part than there are separators, no part contains it, and joining the parts with it gives back the input |
| Parser.SplitAtOnlySeparator | utils/parser.go:10-11 | a string with exactly one separator splits into exactly the text before and after it |
| Parser.Atoi | utils/parser.go:20-23 | `strconv.Atoi`: a number is returned only for an optional sign followed by one or more ASCII digits, and then it is the signed value; such a literal gives a number exactly when it fits in 64 bits; no `-` means a non-negative value |
| Parser.AtoiErrors | utils/parser.go:20-23 | `strconv.Atoi` reports a syntax error exactly when the text is not a literal and its digit run stays within 2^64 - 1; it reports a range error exactly when the digit run goes past 2^64 - 1, or the text is a literal outside the 64-bit range |
| Parser.AtoiOverflowBeforeNonDigit | utils/parser.go:20 | digits worth more than 2^64 - 1, followed by any text that starts with a non-digit, give a range error, not a syntax error |
| Parser.DecimalStringZero | internal/jira/fetcher.go:26 | `%d` renders 0 as the single digit `0` |
| Parser.FormatKey | internal/jira/fetcher.go:26 | `fmt.Sprintf("%s-%d", prefix, current)`: the candidate key. Parser.ParseFormatRoundTrip and Parser.FormatKeyInjective state what it promises |
| GoStrings.Join | internal/config/config.go:29 | `strings.Join`: the elements with the separator between neighbours, and "" for none. Parser.Split proves that it undoes the split |
| Parser.DecimalString | internal/jira/fetcher.go:26 | `%d` of a natural number is a non-empty digit string, with no leading zero unless the number is 0, whose value is the number |
| Jira.Candidates | internal/jira/fetcher.go:25-26 | there are n candidate keys for ending number n, and none when n is below 1 |
| Jira.Retrieved | internal/jira/fetcher.go:27-36 | at most n issues are retrieved for ending number n, and none when n is below 1 |
| Parser.ParseIssueKey | utils/parser.go:9-26 | an error returns prefix "" and number 0; the format error happens exactly when the key does not hold one hyphen; on success the prefix is the non-empty, hyphen-free text before the hyphen, and the number is Atoi's value of the rest, between 0 and the largest int |
| Parser.ParseOneHyphen | utils/parser.go:15-25 | for a key with one hyphen, an empty side is the empty-segment error; otherwise the key parses exactly when Atoi accepts the number part, giving the prefix verbatim and Atoi's value, and fails with the invalid-number error when Atoi does not |
| Parser.CountConcat | utils/parser.go:10-11 | the number of separators in a concatenation is the sum of the numbers in its parts |
| Parser.CountAbsent | utils/parser.go:10-11 | a character is counted zero times exactly when it does not occur |
| Parser.ParseRejectsNoHyphen | utils/parser.go:11-13 | a key without a hyphen is the format error |
| Parser.ParseRejectsSecondHyphen | utils/parser.go:11-13 | a key with a second hyphen after the first is the format error, whatever text surrounds them |
| Parser.ParseDigitsKey | utils/parser.go:19-25 | a non-empty prefix with a number part of plain digits, leading zeros included, parses to the prefix and the digits' value |
| Parser.ParseNonDigitKey | utils/parser.go:20-22 | a number part that starts with a digit but holds a non-digit is the invalid-number error |
| Parser.DecimalStringIsAtoiLiteral | internal/jira/fetcher.go:26 | Atoi reads the `%d` rendering of any number up to the largest int back as that number |
| Parser.ParseFormatRoundTrip | internal/jira/fetcher.go:26 | round trip: parsing `prefix-n`, as the fetcher renders it, gives back the prefix and n for every non-empty, hyphen-free prefix |
| Parser.FormatKeyInjective | internal/jira/fetcher.go:26 | different numbers render different candidate keys |
| ParserScenarios.ParseAcceptsAbc123 | internal/utils/parser_test.go:18-24 | `ABC-123` parses to ABC and 123 |
| ParserScenarios.ParseAcceptsLowerCase | internal/utils/parser_test.go:39-45 | `test-123` parses to test and 123: the case of the prefix is not checked |
| ParserScenarios.ParseAcceptsDev1 | internal/utils/parser_test.go:25-31 | `DEV-1` parses to DEV and 1 |
| ParserScenarios.ParseAcceptsProj9999 | internal/utils/parser_test.go:32-38 | `PROJ-9999` parses to PROJ and 9999 |
| ParserScenarios.ParseRejectsEmpty | internal/utils/parser_test.go:48-52 | the empty key is the format error |
| ParserScenarios.ParseRejectsUnhyphenated | internal/utils/parser_test.go:53-57 | `ABC123` is the format error |
| ParserScenarios.ParseRejectsTwoHyphens | internal/utils/parser_test.go:58-62 | `ABC-123-XYZ` is the format error |
| ParserScenarios.ParseRejectsMissingPrefix | internal/utils/parser_test.go:63-67 | `-123` is the empty-segment error |
| ParserScenarios.ParseRejectsMissingNumber | internal/utils/parser_test.go:68-72 | `ABC-` is the empty-segment error |
| ParserScenarios.ParseRejectsLetters | internal/utils/parser_test.go:73-77 | `ABC-XYZ` is the invalid-number error |
| ParserScenarios.ParseRejectsDoubleHyphen | internal/utils/parser_test.go:78-82 | `ABC--123` is the format error: it holds two hyphens, so it never reaches Atoi as a negative number |
| ParserScenarios.ParseRejectsDecimal | internal/utils/parser_test.go:83-87 | `ABC-123.45` is the invalid-number error |
| ParserScenarios.ParseAcceptsLeadingZeros | utils/parser.go:20 | `ABC-007` is accepted as issue 7, because Atoi allows leading zeros |
| ParserScenarios.ParseAcceptsPlusSign | utils/parser.go:20 | `ABC-+5` is accepted as issue 5, because Atoi allows a leading `+` |
| Output.FileName | internal/output/writer.go:17 | `fmt.Sprintf("%s/%s.json", path, issue.Key)`: the file an issue is written to. Output.FileNameShape and Output.FileNameInjective state what it promises |
| Output.WriteSpec | internal/output/writer.go:16-29 | what WriteToFile does to the file map: marshal, then write, with a distinct error for each step. Output.WriteSpecOutcome states what it promises |
| Output.FileNameShape | internal/output/writer.go:17 | the file name is the directory, a slash, the key verbatim, then `.json` |
| Output.FileNameInjective | internal/output/writer.go:17 | within one directory, distinct keys are written to distinct files |
| Output.WriteSpecOutcome | internal/output/writer.go:16-29 | WriteToFile returns nil exactly when marshalling and writing both succeed. A marshal failure is reported before any write. A write failure names the file. A failure changes no file. Success adds exactly the derived file, holding the marshalled bytes, and leaves every other file unchanged |
| Output.Writer.constructor | internal/output/writer.go:10-14 | NewWriter: the writer uses the given JSON encoder |
| Output.Writer.WriteToFile | internal/output/writer.go:16-29 | the error returned and the files left behind are those of WriteSpec on the files before the call |
| Os.FileSystem.WriteFile | internal/output/writer.go:24 | `os.WriteFile` succeeds exactly when the oracle allows the name; success replaces that one file's contents, and failure changes nothing |
| Jira.Walk | internal/jira/fetcher.go:24-45 | the loop, from the current candidate down to 1, with the calls it makes and the files it leaves. The Jira.Walk* lemmas state what it promises |
| Jira.FetchSpec | internal/jira/fetcher.go:18-46 | a whole FetchBackward run: a parse failure returns at once, otherwise the loop runs from the ending number. Jira.FetchBackwardContract states what it promises |
| Jira.AfterAfter | internal/jira/fetcher.go:25-44 | prefixing loop iterations composes: two prefixes in a row equal their concatenation |
| Jira.CandidatesAt | internal/jira/fetcher.go:25-26 | the i-th candidate key is the key of number n - i, so the candidates run from n down to 1 |
| Jira.RequestedConcat | internal/jira/fetcher.go:27 | the keys requested by two traces in a row are those of the first followed by those of the second |
| Jira.StoredNamesConcat | internal/jira/fetcher.go:40 | the files written by two traces in a row are the union of those of each |
| Jira.WalkRequests | internal/jira/fetcher.go:25-27 | the keys requested are an initial part of the candidates, in descending order, and all of them unless a write failed |
| Jira.WalkPaired | internal/jira/fetcher.go:27-43 | every call is a retrieval, and each retrieval that returns an issue is followed at once by exactly one write of that issue into the output directory |
| Jira.WalkIssues | internal/jira/fetcher.go:36-45 | without a write failure the result is exactly the retrieved issues in descending candidate order; a write failure returns nil and an error naming the output directory |
| Jira.WalkFailsIff | internal/jira/fetcher.go:40-43 | the loop fails exactly when some retrieved issue cannot be marshalled or its file cannot be written |
| Jira.AllWritableCons | internal/jira/fetcher.go:40-43 | a list of issues can all be written exactly when its first issue and the rest can |
| Jira.WalkStopsAtFailedWrite | internal/jira/fetcher.go:40-43 | a failed write is the last call. The trace ends with the retrieval of the failing key and the write of the issue the service returned for it. That key is the last one requested. Writing that issue again over the files left behind fails with the reported error |
| Jira.WalkKeepsWrittenFiles | internal/jira/fetcher.go:36-43 | files are not rolled back. After success or failure, every completed write leaves its file holding the marshalled issue, unless a later write names the same file |
| Jira.WalkKeepsOtherFiles | internal/jira/fetcher.go:40 | no file is removed; new files are only files the loop wrote; a file the loop did not write keeps its contents |
| Jira.WalkGrowsKeys | internal/jira/fetcher.go:40 | the loop never removes a file |
| Jira.WalkWritesEveryIssue | internal/jira/fetcher.go:36-45 | after a run without failure, every returned issue has its file `<dir>/<key>.json` |
| Jira.WrittenIssueKept | internal/jira/fetcher.go:36-44 | an issue written in one iteration still has its file when the later iterations end |
| Jira.FetchBackwardContract | internal/jira/fetcher.go:18-46 | a key that does not parse returns nil and the parse error, with no call made and no file touched. Otherwise: the requests follow the candidate order; writes pair with retrievals; the run fails exactly when a write fails, and then returns nil; on success it returns the retrieved issues, at most n of them, each with its file; no file is lost; no unwritten file changes; a failed write is the last call, and nothing is requested after it; files written before a failure stay, holding what was written |
| Jira.RequestsDescendInRange | internal/jira/fetcher.go:25-27 | every requested key parses back to the ending key's prefix and a number from 1 to the ending number; the numbers strictly descend, and no key is requested twice |
| Jira.CandidatesParseBack | internal/jira/fetcher.go:26 | each candidate key parses back to the prefix and its own number |
| Jira.CandidatesDistinct | internal/jira/fetcher.go:26 | no two candidate keys are equal |
| Jira.SkipStep | internal/jira/fetcher.go:27-33 | an iteration whose retrieval fails records the retrieval, keeps the result, and moves to the next candidate |
| Jira.WriteStep | internal/jira/fetcher.go:36-43 | an iteration that retrieves an issue appends it and writes it; a failed write ends the run with nil and the write error |
| Jira.Fetcher.constructor | internal/jira/fetcher.go:14-16 | NewFetcher: the fetcher holds the given client |
| Jira.Fetcher.FetchBackward | internal/jira/fetcher.go:18-46 | the issues returned, the error, the calls made and the files left behind are those of FetchSpec on the files before the call |
| FetcherScenarios.ScenarioAllPresent | internal/jira/fetcher_test.go:18-64 | ending key PROJ-3 with all three issues on the service: no error, `[PROJ-3, PROJ-2, PROJ-1]`, and all three files exist |
| FetcherScenarios.ScenarioSkipsMissing | internal/jira/fetcher_test.go:66-112 | ending key PROJ-3 with PROJ-2 missing: no error, `[PROJ-3, PROJ-1]`, files for 1 and 3, and no file for 2 |
| FetcherScenarios.ScenarioInvalidKey | internal/jira/fetcher_test.go:114-126 | ending key INVALID_KEY: the format error and a nil result, with no call made and no file touched |
| FetcherScenarios.ScenarioWriteError | internal/jira/fetcher_test.go:128-150 | a directory that cannot be written: nil, and a write error for `PROJ-1` naming the file; the one retrieval is followed by the one failed write |
| FetcherScenarios.ScenarioNothingFound | internal/jira/fetcher_test.go:152-170 | ending key PROJ-5 against an empty service: no error, an empty result, no file changed, and five retrievals, PROJ-5 down to PROJ-1 |
| FetcherScenarios.WalkEmptyService | internal/jira/fetcher.go:25-33 | against a service that has nothing, a walk requests every candidate in order, returns nothing, and changes no file |
| FetcherScenarios.WalkWithWritableDir | internal/jira/fetcher.go:36-45 | when every write succeeds, a walk returns exactly the retrieved issues, each with its file |
| Config.Getenv | internal/config/config.go:17 | `os.Getenv` against the environment map: the value, or "" for an unset variable |
| Config.MissingVars | internal/config/config.go:15-25 | the names LoadConfig collects as missing. Config.MissingVarsCases and Config.MissingVarsOrdered state what it promises |
| Config.MissingMessage | internal/config/config.go:28-29 | the error text: the fixed prefix, then the missing names joined by `, `. Config.MessageForOne and Config.MessageForTwo state what it promises |
| Config.LoadConfigCases | internal/config/config_test.go:18-51 | the four table cases: both variables set give the configuration with both values and no error; each missing combination gives no configuration and the exact error text |
| Config.EmptyAmong | internal/config/config.go:16-26 | the names collected are exactly the given names whose environment value is empty, and there are no more of them than names checked |
| Config.MissingVarsCases | internal/config/config.go:16-26 | JIRA_API_TOKEN is listed when it is empty, then JIRA_USER_EMAIL when it is empty |
| Config.LoadConfig | internal/config/config.go:14-36 | exactly one of the configuration and the error is returned. The error is returned exactly when a variable is empty, and its text lists the missing names. A configuration carries both values as read |
| Config.MissingVarsOrdered | internal/config/config.go:16-26 | at most two names are missing, none is listed twice, and JIRA_API_TOKEN comes before JIRA_USER_EMAIL |
| Config.MessageForOne | internal/config/config.go:28-30 | with one name missing, the error text is the fixed prefix followed by that name |
| Config.MessageForTwo | internal/config/config.go:28-30 | with two names missing, the error text is the fixed prefix followed by the two names joined by `, ` |
| Config.MissingMessages | internal/config/config_test.go:30-51 | the exact error texts expected for a missing token, a missing e-mail, and both |

## Left out

- The Jira client is not part of this model: `internal/jira/client.go`, `GetIssue`, HTTP and authentication. A retrieval is a function from key to optional issue, and every failure of `GetIssue` is `None`.
- The command line is not part of this model: `internal/cli/root.go`, `cmd/sigrab/main.go`, and the path helpers in `internal/utils/path.go`.
- JSON encoding is an oracle `Marshal` from issue to optional bytes. The indented layout of `json.MarshalIndent` is not modelled.
- Errors are modelled as kinds with the data they carry (key, directory, file). The wrapped message texts of the parser, fetcher and writer are not modelled. The texts of `LoadConfig` are modelled exactly.
- The file permission 0644 passed to `os.WriteFile` is not modelled. Whether a write succeeds is the oracle `canWrite`.
- A failed `os.WriteFile` is modelled as changing nothing. A real partial write is not modelled.
- Strings are sequences of characters, not of bytes. The parser and the formats only use ASCII, so the two agree on every input the tests use.
- A Go nil slice and an empty slice are both the empty sequence.
- Jira.Fetcher.constructor: NewFetcher also takes the JSON encoder that every Writer it makes uses. In Go that encoder is the fixed package function.
- The Writer is stateless, so making a new one on each iteration, as FetchBackward does, is modelled but has no observable effect.
- The ending number is the Go `int` Atoi returns, checked against the 64-bit range. Arithmetic in the loop cannot overflow, because it only decrements towards 1.
- The documented key format says the number part has no sign. The code passes it straight to `strconv.Atoi`, which accepts a leading `+` and leading zeros. The model follows the code (ParserScenarios.ParseAcceptsPlusSign, ParserScenarios.ParseAcceptsLeadingZeros).
