# Email sorter: classifier, pipeline state and summary, in Dafny

A model of the in-memory logic of a small PHP batch job. The job reads a CSV file of candidate email addresses. It splits the rows into "proper" rows, whose first field passes Symfony's `Assert\Email` validation, and "wrong" rows. It writes each list to its own CSV file. It then writes a summary of both counts and their percentage shares.

Modules:

- `EmailParser` (`email_parser.dfy`) models `CsvEmailDataParserService`. It holds the two filters `ProperEmails` and `WrongEmails`, and the `foreach` loops that compute them. A CSV field is `Option<string>`, where `None` is PHP's `null`. `$email[0]` of a row is `Email(row)`. The validator is a parameter `Cell -> seq<string>` that returns the list of violations. `isEmailValid` holds when that list is empty.
- `Summary` (`summary.dfy`) holds the calculation that `prepareSummaryData` performs in both the service and the command. Shares are exact `real`s: `wrong / total`, and `1 -` that. The `"%.2f%%"` rendering is a parameter `real -> string`.
- `DataToCsv` (`data_to_csv.dfy`) models `DataToCsvService` as a `State` record holding `sourceFilePath`, `records`, `properEmails` and `wrongEmails`. Each operation returns `Step(state, result)`. PHP assigns fields before it throws, so a failed call can still leave a changed state behind, and the model keeps that. Reading the CSV is a parameter `Loader` from path to rows or an error message. Writing is represented by the returned `CsvFile(path, delimiter, rows)` value. `Call`, `Apply` and `Run` describe a sequence of public calls on one service object; a summary call there uses the as-written writer, so a trace writes the `,`-separated file the code produces. Both writers leave the same state, so the trace lemmas hold for either.
- `ExtractCommand` (`extract_command.dfy`) models the in-memory part of `ExtractEmailsFromCsvCommand::execute`: both filters over the same records, the command's own `prepareSummaryData` triple, and the success message. `ParseSuccessMessage` reads the message back.
- `Decimal` (`decimal.dfy`) renders a PHP `int` as decimal text and reads it back. `Wrappers` and `Errors` provide `Option`/`Result` and the exception kinds.

Both `prepareSummaryData` functions compute the wrong share first, as `wrong / (proper + wrong)`, and derive the proper share as `1 -` that (src/Service/DataToCsvService.php:184, src/Command/ExtractEmailsFromCsvCommand.php:168). With exact reals this equals `proper / (proper + wrong)`, and `Summary.ComputeShares` proves it. The service declares `;` as its separator (src/Service/DataToCsvService.php:17), and the command sets `;` on its own summary writer (src/Command/ExtractEmailsFromCsvCommand.php:113). The service's summary file is nevertheless written with `,`; see Findings.

## Model

| member | source | states |
|---|---|---|
| EmailParser.IsEmailValid | src/Service/CsvEmailDataParserService.php:64-77 | An address is valid exactly when the validator reports an empty violation list for it; `null` and `""` get whatever verdict the validator gives. |
| EmailParser.ProperEmails | src/Service/CsvEmailDataParserService.php:30-41 | The proper list is no longer than the input. Each of its rows has exactly one field, and the validator reports no violation for that field. |
| EmailParser.WrongEmails | src/Service/CsvEmailDataParserService.php:47-58 | The wrong list is no longer than the input. Each of its rows has exactly one field, and the validator reports at least one violation for that field. |
| EmailParser.GetProperEmailAddressees | src/Service/CsvEmailDataParserService.php:30-41 | The `foreach` loop that appends `[$email[0]]` for each accepted row computes exactly `ProperEmails`. |
| EmailParser.GetWrongEmailAddressees | src/Service/CsvEmailDataParserService.php:47-58 | The `foreach` loop that appends `[$email[0]]` for each rejected row computes exactly `WrongEmails`. |
| EmailParser.ProperEmailsConcat | src/Service/CsvEmailDataParserService.php:34-38 | Order is stable: filtering `a + b` gives the proper rows of `a` followed by those of `b`. |
| EmailParser.WrongEmailsConcat | src/Service/CsvEmailDataParserService.php:51-55 | Order is stable: filtering `a + b` gives the wrong rows of `a` followed by those of `b`. |
| EmailParser.PartitionMultiset | src/Service/CsvEmailDataParserService.php:30-58 | As multisets, proper plus wrong equals the first fields of all input rows. Every row's first field lands in exactly one of the two lists. |
| EmailParser.PartitionDisjoint | src/Service/CsvEmailDataParserService.php:30-58 | No field value is in both lists: the multiset intersection of the proper and wrong lists is empty. |
| EmailParser.PartitionSizes | src/Service/CsvEmailDataParserService.php:30-58 | The sizes of the two lists add up to the number of input rows, for every input, including the empty one. |
| EmailParser.ProperEmailsMembers | src/Service/CsvEmailDataParserService.php:30-41 | A row is in the proper list iff it is `[first field]` of some input row whose validation reports zero violations. Such a row is never in the wrong list. |
| EmailParser.WrongEmailsMembers | src/Service/CsvEmailDataParserService.php:47-58 | A row is in the wrong list iff it is `[first field]` of some input row whose validation reports a violation. |
| EmailParser.ReclassifyingIsStable | src/Service/CsvEmailDataParserService.php:30-58 | Running the proper filter on the proper list returns the same list, and the wrong filter returns nothing. The mirror statement holds for the wrong list. |
| Decimal.ToNatFromNat | src/Service/DataToCsvService.php:190-191 | Reading the decimal text of a count back gives the count. |
| Decimal.FromNatInjective | src/Service/DataToCsvService.php:190-191 | Two counts get the same decimal text only if they are equal. |
| Summary.ComputeShares | src/Service/DataToCsvService.php:182-185 | This fails with DivisionByZero iff both counts are 0. Otherwise the proper share is `proper / total`, the two shares add up to 1, and both lie in [0, 1]. |
| Summary.ReadCountOfCell | src/Service/DataToCsvService.php:189-192 | A summary cell begins with its count, whatever the percentage text is, and the count can be read back from it. |
| Summary.SummaryRow | src/Command/ExtractEmailsFromCsvCommand.php:173-176 | The row has two cells. The first begins with the proper count and the second with the wrong count. |
| DataToCsv.ValidateSettings | src/Service/DataToCsvService.php:57-62 | Fails exactly when the path is unset, `""` or `"0"` (PHP's `empty`), and then only with InvalidArgument "Source file path not set or not valid". |
| DataToCsv.StoresNeedPath | src/Service/DataToCsvService.php:77-111 | Without a usable path (unset, `""` or `"0"`), every store operation fails with the path exception and leaves the state as it was. |
| DataToCsv.ExtractRecords | src/Service/DataToCsvService.php:161-173 | Only `records` may change. The source is loaded only while the cache is empty, and a non-empty cache is returned unchanged. A loader error is passed on as CsvReadFailure with the state unchanged. An empty file is cached and then rejected with InvalidArgument "Cannot extract data from given csv file". A normal return yields the cache, and it is non-empty. |
| DataToCsv.SetSourceFilePath | src/Service/DataToCsvService.php:67-71 | The path is stored even when the call fails. An existing cache is kept, even for a different path. The call succeeds iff the path is usable and either the cache or the loaded file is non-empty. After success, the cache is non-empty, and a cache that was empty now holds the loaded rows. A loader error fails with CsvReadFailure, an empty file with the no-records exception, and an unusable path with the path exception. A failed call leaves `records` as it was. |
| DataToCsv.StoreProperEmailAddressesInCsv | src/Service/DataToCsvService.php:77-87 | On success, `properEmails` becomes the proper filter of the non-empty records, and exactly those rows are written. `wrongEmails` and the path never change, and a loaded cache stays as it is. The records used are those `extractRecords` yields. A failure leaves `records` as it was, and it is the path exception or exactly the error `extractRecords` raises. |
| DataToCsv.StoreWrongEmailAddressesInCsv | src/Service/DataToCsvService.php:93-103 | This is the mirror case: only `wrongEmails` is set, to the wrong filter of the records `extractRecords` yields. A failure leaves `records` as it was, and it is the path exception or exactly the error `extractRecords` raises. |
| DataToCsv.PrepareSummaryData | src/Service/DataToCsvService.php:180-194 | This fails iff both lists are empty. Otherwise it returns two cells, the proper count with its share `proper/total` first and the wrong count with `wrong/total` second. |
| DataToCsv.SummaryStep | src/Service/DataToCsvService.php:109-123 | After the path check, both lists are recomputed from `records` iff either is empty, and are otherwise kept. The path and records never change. The step fails past the path check iff a recompute was needed on empty records. |
| DataToCsv.StoreSummaryInCsvAsWritten | src/Service/DataToCsvService.php:109-130 | The summary file as written has the header and the data row, separated by the default `,`. |
| DataToCsv.StoreSummaryInCsv | src/Service/DataToCsvService.php:109-130 | The corrected summary file is `;`-separated. It has the header row and a data row whose cells begin with the proper count and then the wrong count. |
| DataToCsv.SummarySeparatorIgnored | src/Service/DataToCsvService.php:124-126 | The written summary file equals the intended one except that its separator is `,` instead of `;`. |
| DataToCsv.LoadedRecordsStay | src/Service/DataToCsvService.php:161-168 | Once records are cached, no call changes them and no call fails with DivisionByZero. |
| DataToCsv.NoDivisionByZeroWhileLoaded | src/Service/DataToCsvService.php:118-123 | From a state with cached records, no call in any sequence of calls fails with DivisionByZero. |
| DataToCsv.NoDivisionByZeroAfterSourceSet | src/Service/DataToCsvService.php:67-71 | Once `setSourceFilePath` has returned normally, no later call on the same service divides by zero. |
| DataToCsv.ApplyKeepsCacheConsistent | src/Service/DataToCsvService.php:118-121 | Every call keeps this invariant: each cached list is either empty or exactly the classification of the cached records. |
| DataToCsv.RunKeepsCacheConsistent | src/Service/DataToCsvService.php:118-121 | The cache invariant holds after any sequence of calls. |
| DataToCsv.SummaryReflectsRecords | src/Service/DataToCsvService.php:118-123 | From every state reachable from a new service, a stored summary counts exactly the proper and wrong rows of the cached records, so it never uses a stale list. |
| DataToCsv.GetProperEmails | src/Service/DataToCsvService.php:207-210 | Returns the cached proper list as it stands, without loading or classifying; StoreThenGet and CacheConsistent say what that list holds. |
| DataToCsv.GetWrongEmails | src/Service/DataToCsvService.php:199-202 | Returns the cached wrong list as it stands, without loading or classifying. |
| DataToCsv.StoreThenGet | src/Service/DataToCsvService.php:199-210 | After a successful store, the getter returns the rows that were written, which are the filter of the records. |
| ExtractCommand.PrepareSummaryData | src/Command/ExtractEmailsFromCsvCommand.php:164-178 | This fails iff both lists are empty. Otherwise it returns `(wrongCount, properCount, row)` with the counts equal to the list lengths, and the row holds the proper cell first and then the wrong cell. |
| ExtractCommand.SuccessMessage | src/Command/ExtractEmailsFromCsvCommand.php:121-126 | The message determines its parts: reading it back gives the file name, then the proper count, then the wrong count. |
| ExtractCommand.Process | src/Command/ExtractEmailsFromCsvCommand.php:97-126 | Both lists come from the same records, so their sizes add up to the record count. The run fails with DivisionByZero iff there are no records. The summary cells and the message carry the two counts. |
| ExtractCommand.ThreeAddressExample | src/Command/ExtractEmailsFromCsvCommand.php:97-126 | For `a@b.com`, `not-an-email` and `x@y.org`, where only the second is rejected: proper is `[a@b.com, x@y.org]` and wrong is `[not-an-email]`. The cells are `2 (pct(200/3))` and `1 (pct(100/3))`, and the message reports 2 proper and 1 wrong. |
| ExtractCommand.ExampleSummaryRow | src/Command/ExtractEmailsFromCsvCommand.php:164-178 | For one wrong and two proper rows, the triple is `(1, 2, ["2 (pct(200/3))", "1 (pct(100/3))"])`. |

## Left out

- CSV reading and writing (League\Csv `Reader`, `Statement`, `Writer`, `insertOne`, `insertAll`, quoting of fields): reading is the `Loader` parameter, and writing is the returned `CsvFile` value. The loader is one fixed function, so the source file is assumed not to change during a run.
- Write failures (`CannotInsertRecord`, and the `\Exception` wrapping at src/Service/DataToCsvService.php:125-129): every write is assumed to succeed.
- File-system and console plumbing: `createFile`, `fopen`/`fclose`, `file_put_contents`, `is_file`, `exit`, `SymfonyStyle`, argument checks and result-directory paths (src/Command/ExtractEmailsFromCsvCommand.php:50-91, 100-105, 128-131, 141-157).
- The email grammar of Symfony's `Assert\Email`: the validator is an uninterpreted parameter. Symfony's `Email` validator accepts `null` and `""` without a violation. The model does not decide either case; it follows whatever the validator parameter reports.
- Percentage text: `sprintf("%.2f%%")` on PHP floats is the abstract `Percent` parameter. Shares are exact reals, not IEEE doubles, and rounding is not modelled.
- Summary.SummaryRow: states where each count sits in the row, but does not say what the percentage text looks like, because that text is left abstract.
- DataToCsv.ValidateSettings: does not model the `is_string` half of the test, because `setSourceFilePath` only accepts strings.
- Division by zero is modelled as a failure. In PHP 8 it throws `DivisionByZeroError`; in PHP 7 it only raises a warning and yields a non-numeric float.
- `src/Service/Interfaces/EmailDataParserInterface.php` contains only signatures. The service is modelled with the concrete parser that the container wires in. The no-division-by-zero theorem depends on that parser's count law.
- Purity of the two filters has no lemma of its own. Dafny functions are deterministic, and their inputs are immutable values.
- The command's filename argument checks (src/Command/ExtractEmailsFromCsvCommand.php:83-85 reports an error but carries on) belong to console plumbing.

## Findings

| source | as written | input that shows it | evidently intended | confidence | as-written member | corrected member |
|---|---|---|---|---|---|---|
| src/Service/DataToCsvService.php:124-126 | `setDelimiter(';')` is called on `$csvWithSummary`, a writer that never writes anything. `putResultsIntoCsv` then opens a new writer with League's default `,` and writes the summary through it. | any successful `storeSummaryInCsv` | the summary file is separated by `;`, as the service's `$delimiter` field says and as the command does by writing through the same writer (src/Command/ExtractEmailsFromCsvCommand.php:113-115) | medium; not executed | DataToCsv.StoreSummaryInCsvAsWritten, exhibited by DataToCsv.SummarySeparatorIgnored | DataToCsv.StoreSummaryInCsv |
