/** The pipeline orchestrator (`DataToCsvService`) as a state record and
    state-to-(state, outcome) transitions. PHP assigns fields before it
    throws, so every operation returns the state it leaves behind together
    with its outcome, also when that outcome is an exception. */
module DataToCsv {
  import opened Wrappers
  import opened Errors
  import opened EmailParser
  import Summary

  /** `$delimiter` of the service: the summary file's field separator. */
  const Delimiter := ';'

  /** Field separator of a freshly created CSV writer. */
  const DefaultDelimiter := ','

  /** Reading the source file (`Reader::createFromPath`, `Statement::process`,
      `iterator_to_array`): the rows of the file at a path, or the reader's
      error message. */
  type Loader = string -> Result<seq<Row>, string>

  /** The collaborators the service talks to. */
  datatype Env = Env(load: Loader, validate: Validator, percent: Summary.Percent)

  datatype State = State(
    sourceFilePath: Option<string>,
    records: seq<Row>,
    properEmails: seq<Row>,
    wrongEmails: seq<Row>)

  /** A freshly constructed service: no path, every cache empty. */
  const Initial := State(None, [], [], [])

  /** A CSV file the service writes: where, with which separator, which rows. */
  datatype CsvFile = CsvFile(path: string, delimiter: char, rows: seq<Row>)

  datatype Step<T> = Step(state: State, result: Result<T, Error>)

  /** PHP's `!empty($path) && is_string($path)` for a path typed `string`
      once set: `""` and `"0"` are both empty. */
  predicate PathIsSet(path: Option<string>) {
    path.Some? && path.value != "" && path.value != "0"
  }

  /** `validateSettings`. */
  function ValidateSettings(s: State): (r: Result<(), Error>)
    ensures r.Failure? <==> s.sourceFilePath in {None, Some(""), Some("0")}
    ensures r.Failure? ==> r.error == InvalidArgument(PathNotSetMessage)
  {
    if PathIsSet(s.sourceFilePath) then Success(()) else Failure(InvalidArgument(PathNotSetMessage))
  }

  /** `extractRecords`: loads the source only while the cache is empty, and
      throws when the cache is still empty afterwards. */
  function ExtractRecords(env: Env, s: State): (r: Step<seq<Row>>)
    ensures r.state == s.(records := r.state.records)
    ensures |s.records| > 0 ==> r.state == s
    ensures !PathIsSet(s.sourceFilePath) ==> r == Step(s, Failure(InvalidArgument(PathNotSetMessage)))
    ensures PathIsSet(s.sourceFilePath) && |s.records| > 0 ==> r.result == Success(s.records)
    ensures PathIsSet(s.sourceFilePath) && |s.records| == 0 ==>
      var loaded := env.load(s.sourceFilePath.value);
      && (r.result.Success? <==> loaded.Success? && |loaded.value| > 0)
      && (r.result.Success? ==> r.state.records == loaded.value)
      && (loaded.Failure? ==> r == Step(s, Failure(CsvReadFailure(loaded.error))))
      && (loaded == Success([]) ==> r.result == Failure(InvalidArgument(NoRecordsMessage)))
    ensures r.result.Success? ==> r.result.value == r.state.records && |r.result.value| > 0
    ensures PathIsSet(s.sourceFilePath) && r.result.Failure? ==> |r.state.records| == 0
  {
    if !PathIsSet(s.sourceFilePath) then Step(s, Failure(InvalidArgument(PathNotSetMessage)))
    else if |s.records| > 0 then Step(s, Success(s.records))
    else
      match env.load(s.sourceFilePath.value)
      case Failure(message) => Step(s, Failure(CsvReadFailure(message)))
      case Success(rows) =>
        var loaded := s.(records := rows);
        if |rows| == 0 then Step(loaded, Failure(InvalidArgument(NoRecordsMessage)))
        else Step(loaded, Success(rows))
  }

  /** `setSourceFilePath`: stores the path, then extracts. The cache is not
      cleared, so a later call with another path keeps the first records. */
  function SetSourceFilePath(env: Env, s: State, sourceFilePath: string): (r: Step<()>)
    ensures r.state.sourceFilePath == Some(sourceFilePath)
    ensures r.state.properEmails == s.properEmails && r.state.wrongEmails == s.wrongEmails
    ensures |s.records| > 0 ==> r.state.records == s.records
    ensures r.result.Success? <==>
      && PathIsSet(Some(sourceFilePath))
      && (|s.records| > 0 || (env.load(sourceFilePath).Success? && |env.load(sourceFilePath).value| > 0))
    ensures r.result.Success? ==> |r.state.records| > 0
    ensures |s.records| == 0 && r.result.Success? ==> r.state.records == env.load(sourceFilePath).value
    ensures PathIsSet(Some(sourceFilePath)) && |s.records| == 0 && env.load(sourceFilePath).Failure? ==>
      r.result == Failure(CsvReadFailure(env.load(sourceFilePath).error))
    ensures PathIsSet(Some(sourceFilePath)) && |s.records| == 0 && env.load(sourceFilePath) == Success([]) ==>
      r.result == Failure(InvalidArgument(NoRecordsMessage))
    ensures !PathIsSet(Some(sourceFilePath)) ==> r.result == Failure(InvalidArgument(PathNotSetMessage))
    ensures r.result.Failure? ==> r.state.records == s.records
  {
    var extracted := ExtractRecords(env, s.(sourceFilePath := Some(sourceFilePath)));
    Step(extracted.state, if extracted.result.Success? then Success(()) else Failure(extracted.result.error))
  }

  /** `putResultsIntoCsv`: a fresh writer (default separator), the header
      row when there is one, then the data rows. */
  function PutResultsIntoCsv(data: seq<Row>, filepath: string, headers: seq<string>): CsvFile {
    CsvFile(filepath, DefaultDelimiter, (if |headers| == 0 then [] else [TextRow(headers)]) + data)
  }

  function TextRow(texts: seq<string>): (row: Row)
    ensures |row| == |texts| && forall i :: 0 <= i < |texts| ==> row[i] == Some(texts[i])
  {
    seq(|texts|, i requires 0 <= i < |texts| => Some(texts[i]))
  }

  /** `storeProperEmailAddressesInCsv`. */
  function StoreProperEmailAddressesInCsv(env: Env, s: State, outputFilePath: string): (r: Step<CsvFile>)
    ensures !PathIsSet(s.sourceFilePath) ==> r == Step(s, Failure(InvalidArgument(PathNotSetMessage)))
    ensures r.state.sourceFilePath == s.sourceFilePath && r.state.wrongEmails == s.wrongEmails
    ensures |s.records| > 0 ==> r.state.records == s.records
    ensures r.result.Success? ==>
      && |r.state.records| > 0
      && r.state.properEmails == ProperEmails(env.validate, r.state.records)
      && r.result.value == CsvFile(outputFilePath, DefaultDelimiter, r.state.properEmails)
    ensures r.result.Failure? ==> r.state.properEmails == s.properEmails
    ensures r.result.Success? ==> r.state.records == ExtractRecords(env, s).state.records
    ensures r.result.Failure? ==>
      && r.state.records == s.records
      && ExtractRecords(env, s).result.Failure?
      && r.result.error == ExtractRecords(env, s).result.error
  {
    if ValidateSettings(s).Failure? then Step(s, Failure(ValidateSettings(s).error))
    else
      var extracted := ExtractRecords(env, s);
      if extracted.result.Failure? then Step(extracted.state, Failure(extracted.result.error))
      else
        var properEmails := ProperEmails(env.validate, extracted.result.value);
        Step(extracted.state.(properEmails := properEmails),
             Success(PutResultsIntoCsv(properEmails, outputFilePath, [])))
  }

  /** `storeWrongEmailAddressesInCsv`. */
  function StoreWrongEmailAddressesInCsv(env: Env, s: State, outputFilePath: string): (r: Step<CsvFile>)
    ensures !PathIsSet(s.sourceFilePath) ==> r == Step(s, Failure(InvalidArgument(PathNotSetMessage)))
    ensures r.state.sourceFilePath == s.sourceFilePath && r.state.properEmails == s.properEmails
    ensures |s.records| > 0 ==> r.state.records == s.records
    ensures r.result.Success? ==>
      && |r.state.records| > 0
      && r.state.wrongEmails == WrongEmails(env.validate, r.state.records)
      && r.result.value == CsvFile(outputFilePath, DefaultDelimiter, r.state.wrongEmails)
    ensures r.result.Failure? ==> r.state.wrongEmails == s.wrongEmails
    ensures r.result.Success? ==> r.state.records == ExtractRecords(env, s).state.records
    ensures r.result.Failure? ==>
      && r.state.records == s.records
      && ExtractRecords(env, s).result.Failure?
      && r.result.error == ExtractRecords(env, s).result.error
  {
    if ValidateSettings(s).Failure? then Step(s, Failure(ValidateSettings(s).error))
    else
      var extracted := ExtractRecords(env, s);
      if extracted.result.Failure? then Step(extracted.state, Failure(extracted.result.error))
      else
        var wrongEmails := WrongEmails(env.validate, extracted.result.value);
        Step(extracted.state.(wrongEmails := wrongEmails),
             Success(PutResultsIntoCsv(wrongEmails, outputFilePath, [])))
  }

  /** The service's `prepareSummaryData(wrong, proper)`: the two summary
      cells, proper first, with the exact shares of the total. */
  function PrepareSummaryData(wrongEmails: seq<Row>, properEmails: seq<Row>, percent: Summary.Percent)
    : (r: Result<seq<string>, Error>)
    ensures r.Failure? <==> |wrongEmails| + |properEmails| == 0
    ensures r.Failure? ==> r.error == DivisionByZero
    ensures r.Success? ==>
      var total := (|wrongEmails| + |properEmails|) as real;
      && r.value == [Summary.Cell(|properEmails|, |properEmails| as real / total, percent),
                     Summary.Cell(|wrongEmails|, |wrongEmails| as real / total, percent)]
      && Summary.ReadCount(r.value[0]) == Some(|properEmails|)
      && Summary.ReadCount(r.value[1]) == Some(|wrongEmails|)
  {
    var shares :- Summary.ComputeShares(|wrongEmails|, |properEmails|);
    Success(Summary.SummaryRow(shares, percent))
  }

  /** The state logic of `storeSummaryInCsv`: after the path check, both
      lists are recomputed from the cached records when either is empty,
      then the summary row is prepared. */
  function SummaryStep(env: Env, s: State): (r: Step<seq<string>>)
    ensures !PathIsSet(s.sourceFilePath) ==> r == Step(s, Failure(InvalidArgument(PathNotSetMessage)))
    ensures r.state.sourceFilePath == s.sourceFilePath && r.state.records == s.records
    ensures PathIsSet(s.sourceFilePath) && (|s.properEmails| == 0 || |s.wrongEmails| == 0) ==>
      && r.state.properEmails == ProperEmails(env.validate, s.records)
      && r.state.wrongEmails == WrongEmails(env.validate, s.records)
    ensures |s.properEmails| > 0 && |s.wrongEmails| > 0 ==> r.state == s
    ensures PathIsSet(s.sourceFilePath) ==>
      (r.result.Failure? <==> (|s.properEmails| == 0 || |s.wrongEmails| == 0) && |s.records| == 0)
    ensures PathIsSet(s.sourceFilePath) && r.result.Failure? ==> r.result.error == DivisionByZero
    ensures r.result.Success? ==>
      r.result == PrepareSummaryData(r.state.wrongEmails, r.state.properEmails, env.percent)
  {
    if ValidateSettings(s).Failure? then Step(s, Failure(ValidateSettings(s).error))
    else
      var refreshed :=
        if |s.properEmails| == 0 || |s.wrongEmails| == 0 then
          s.(wrongEmails := WrongEmails(env.validate, s.records),
             properEmails := ProperEmails(env.validate, s.records))
        else s;
      PartitionSizes(env.validate, s.records);
      Step(refreshed, PrepareSummaryData(refreshed.wrongEmails, refreshed.properEmails, env.percent))
  }

  /** `storeSummaryInCsv` as written: the `;` separator is set on a writer
      that is never used, and `putResultsIntoCsv` writes through a fresh
      writer with the default separator. */
  function StoreSummaryInCsvAsWritten(env: Env, s: State, outputFilePath: string): (r: Step<CsvFile>)
    ensures r.state == SummaryStep(env, s).state
    ensures r.result.Success? <==> SummaryStep(env, s).result.Success?
    ensures r.result.Failure? ==> r.result.error == SummaryStep(env, s).result.error
    ensures r.result.Success? ==>
      r.result.value == CsvFile(outputFilePath, DefaultDelimiter,
                                [TextRow(Summary.SummaryHeaders), TextRow(SummaryStep(env, s).result.value)])
  {
    var summary := SummaryStep(env, s);
    match summary.result
    case Failure(e) => Step(summary.state, Failure(e))
    case Success(summaryData) =>
      Step(summary.state, Success(PutResultsIntoCsv([TextRow(summaryData)], outputFilePath, Summary.SummaryHeaders)))
  }

  /** `storeSummaryInCsv` as intended: header and data row separated by the
      service's `;`. */
  function StoreSummaryInCsv(env: Env, s: State, outputFilePath: string): (r: Step<CsvFile>)
    ensures r.state == SummaryStep(env, s).state
    ensures r.result.Success? <==> SummaryStep(env, s).result.Success?
    ensures r.result.Failure? ==> r.result.error == SummaryStep(env, s).result.error
    ensures r.result.Success? ==>
      && r.result.value.path == outputFilePath
      && r.result.value.delimiter == Delimiter
      && |r.result.value.rows| == 2
      && r.result.value.rows[0] == TextRow(Summary.SummaryHeaders)
      && |r.result.value.rows[1]| == 2
      && r.result.value.rows[1][0].Some? && r.result.value.rows[1][1].Some?
      && Summary.ReadCount(r.result.value.rows[1][0].value) == Some(|r.state.properEmails|)
      && Summary.ReadCount(r.result.value.rows[1][1].value) == Some(|r.state.wrongEmails|)
  {
    var summary := SummaryStep(env, s);
    match summary.result
    case Failure(e) => Step(summary.state, Failure(e))
    case Success(summaryData) =>
      var dataRow := TextRow(summaryData);
      assert dataRow[0].value == summaryData[0] && dataRow[1].value == summaryData[1];
      Step(summary.state, Success(CsvFile(outputFilePath, Delimiter, [TextRow(Summary.SummaryHeaders), dataRow])))
  }

  /** `getProperEmails`: the cached list as it stands; nothing is loaded or
      classified, so it is empty until a store operation has filled it. */
  function GetProperEmails(s: State): (properEmails: seq<Row>)
    ensures properEmails == s.properEmails
  {
    s.properEmails
  }

  /** `getWrongEmails`: the cached list as it stands. */
  function GetWrongEmails(s: State): (wrongEmails: seq<Row>)
    ensures wrongEmails == s.wrongEmails
  {
    s.wrongEmails
  }

  /** The service's public operations. */
  datatype Call =
    | SetSource(sourceFilePath: string)
    | StoreProper(outputFilePath: string)
    | StoreWrong(outputFilePath: string)
    | StoreSummary(outputFilePath: string)
    | ReadProper
    | ReadWrong
  {
    predicate IsStore() {
      StoreProper? || StoreWrong? || StoreSummary?
    }
  }

  datatype Reply = Done | Wrote(file: CsvFile) | Emails(rows: seq<Row>)

  function Apply(env: Env, s: State, call: Call): Step<Reply> {
    match call
    case SetSource(path) =>
      var r := SetSourceFilePath(env, s, path);
      Step(r.state, if r.result.Success? then Success(Done) else Failure(r.result.error))
    case StoreProper(out) => Wrap(StoreProperEmailAddressesInCsv(env, s, out))
    case StoreWrong(out) => Wrap(StoreWrongEmailAddressesInCsv(env, s, out))
    case StoreSummary(out) => Wrap(StoreSummaryInCsvAsWritten(env, s, out))
    case ReadProper => Step(s, Success(Emails(GetProperEmails(s))))
    case ReadWrong => Step(s, Success(Emails(GetWrongEmails(s))))
  }

  function Wrap(r: Step<CsvFile>): Step<Reply> {
    Step(r.state, if r.result.Success? then Success(Wrote(r.result.value)) else Failure(r.result.error))
  }

  datatype Trace = Trace(state: State, replies: seq<Result<Reply, Error>>)

  /** Calls made one after another on one service object. */
  function Run(env: Env, s: State, calls: seq<Call>): (r: Trace)
    ensures |r.replies| == |calls|
    decreases |calls|
  {
    if calls == [] then Trace(s, [])
    else
      var first := Apply(env, s, calls[0]);
      var rest := Run(env, first.state, calls[1..]);
      Trace(rest.state, [first.result] + rest.replies)
  }

  /** No store operation proceeds without a usable source path: each fails
      with the path exception and leaves the state as it was. */
  lemma StoresNeedPath(env: Env, s: State, call: Call)
    requires call.IsStore() && !PathIsSet(s.sourceFilePath)
    ensures Apply(env, s, call) == Step(s, Failure(InvalidArgument(PathNotSetMessage)))
  {
  }

  /** Once records are cached no call changes them, and no call divides by
      zero. */
  lemma LoadedRecordsStay(env: Env, s: State, call: Call)
    requires |s.records| > 0
    ensures Apply(env, s, call).state.records == s.records
    ensures Apply(env, s, call).result != Failure(DivisionByZero)
  {
    if call.StoreSummary? {
      PartitionSizes(env.validate, s.records);
    }
  }

  lemma {:induction false} NoDivisionByZeroWhileLoaded(env: Env, s: State, calls: seq<Call>)
    requires |s.records| > 0
    ensures forall j :: 0 <= j < |calls| ==> Run(env, s, calls).replies[j] != Failure(DivisionByZero)
    decreases |calls|
  {
    if calls != [] {
      LoadedRecordsStay(env, s, calls[0]);
      var next := Apply(env, s, calls[0]).state;
      NoDivisionByZeroWhileLoaded(env, next, calls[1..]);
      forall j | 0 <= j < |calls|
        ensures Run(env, s, calls).replies[j] != Failure(DivisionByZero)
      {
        if j > 0 {
          assert Run(env, s, calls).replies[j] == Run(env, next, calls[1..]).replies[j - 1];
        }
      }
    }
  }

  /** Once `setSourceFilePath` has returned normally, no later call on the
      same service fails with a division by zero. */
  lemma {:induction false} NoDivisionByZeroAfterSourceSet(env: Env, s: State, calls: seq<Call>, i: nat)
    requires i < |calls| && calls[i].SetSource?
    requires Run(env, s, calls).replies[i].Success?
    ensures forall j :: i < j < |calls| ==> Run(env, s, calls).replies[j] != Failure(DivisionByZero)
    decreases |calls|
  {
    var first := Apply(env, s, calls[0]);
    var rest := Run(env, first.state, calls[1..]);
    assert Run(env, s, calls).replies == [first.result] + rest.replies;
    if i == 0 {
      NoDivisionByZeroWhileLoaded(env, first.state, calls[1..]);
    } else {
      assert rest.replies[i - 1] == Run(env, s, calls).replies[i];
      NoDivisionByZeroAfterSourceSet(env, first.state, calls[1..], i - 1);
    }
  }

  /** The cached lists are either empty or exactly the classification of
      the cached records. */
  predicate CacheConsistent(validate: Validator, s: State) {
    && (|s.properEmails| > 0 ==> s.properEmails == ProperEmails(validate, s.records))
    && (|s.wrongEmails| > 0 ==> s.wrongEmails == WrongEmails(validate, s.records))
  }

  lemma ApplyKeepsCacheConsistent(env: Env, s: State, call: Call)
    requires CacheConsistent(env.validate, s)
    ensures CacheConsistent(env.validate, Apply(env, s, call).state)
  {
  }

  lemma {:induction false} RunKeepsCacheConsistent(env: Env, s: State, calls: seq<Call>)
    requires CacheConsistent(env.validate, s)
    ensures CacheConsistent(env.validate, Run(env, s, calls).state)
    decreases |calls|
  {
    if calls != [] {
      ApplyKeepsCacheConsistent(env, s, calls[0]);
      RunKeepsCacheConsistent(env, Apply(env, s, calls[0]).state, calls[1..]);
    }
  }

  /** The summary never uses a stale list: from any state the service can
      reach, a stored summary counts exactly the classification of the
      cached records. */
  lemma SummaryReflectsRecords(env: Env, calls: seq<Call>, outputFilePath: string)
    requires StoreSummaryInCsv(env, Run(env, Initial, calls).state, outputFilePath).result.Success?
    ensures
      var s := Run(env, Initial, calls).state;
      var file := StoreSummaryInCsv(env, s, outputFilePath).result.value;
      && Summary.ReadCount(file.rows[1][0].value) == Some(|ProperEmails(env.validate, s.records)|)
      && Summary.ReadCount(file.rows[1][1].value) == Some(|WrongEmails(env.validate, s.records)|)
  {
    RunKeepsCacheConsistent(env, Initial, calls);
  }

  /** After a successful store, the getter returns what was written. */
  lemma StoreThenGet(env: Env, s: State, outputFilePath: string)
    ensures
      var r := StoreProperEmailAddressesInCsv(env, s, outputFilePath);
      r.result.Success? ==> GetProperEmails(r.state) == r.result.value.rows == ProperEmails(env.validate, r.state.records)
    ensures
      var r := StoreWrongEmailAddressesInCsv(env, s, outputFilePath);
      r.result.Success? ==> GetWrongEmails(r.state) == r.result.value.rows == WrongEmails(env.validate, r.state.records)
  {
  }

  /** The summary file as written differs from the intended one exactly in
      its separator. */
  lemma SummarySeparatorIgnored(env: Env, s: State, outputFilePath: string)
    requires StoreSummaryInCsvAsWritten(env, s, outputFilePath).result.Success?
    ensures
      var written := StoreSummaryInCsvAsWritten(env, s, outputFilePath).result.value;
      var intended := StoreSummaryInCsv(env, s, outputFilePath).result.value;
      && written.delimiter == ',' && intended.delimiter == ';'
      && written == intended.(delimiter := ',')
  {
  }
}
