/** The in-memory part of `ExtractEmailsFromCsvCommand::execute`: both
    lists computed from the same records, the summary triple, and the
    success message that reports the file name and the two counts. */
module ExtractCommand {
  import opened Wrappers
  import opened Errors
  import opened EmailParser
  import Summary
  import Decimal

  const Opening := "File "
  const Processed := " was successfully processed. There were "
  const ProperPart := " proper emails and "
  const Closing := " wrong emails"

  /** The command's `prepareSummaryData(wrong, proper)`: the triple
      `(wrongCount, properCount, summaryRow)`, wrong count first. */
  function PrepareSummaryData(wrongEmails: seq<Row>, properEmails: seq<Row>, percent: Summary.Percent)
    : (r: Result<(nat, nat, seq<string>), Error>)
    ensures r.Failure? <==> |wrongEmails| + |properEmails| == 0
    ensures r.Failure? ==> r.error == DivisionByZero
    ensures r.Success? ==>
      var total := (|wrongEmails| + |properEmails|) as real;
      && r.value.0 == |wrongEmails|
      && r.value.1 == |properEmails|
      && r.value.2 == [Summary.Cell(|properEmails|, 1.0 - |wrongEmails| as real / total, percent),
                       Summary.Cell(|wrongEmails|, |wrongEmails| as real / total, percent)]
      && Summary.ReadCount(r.value.2[0]) == Some(|properEmails|)
      && Summary.ReadCount(r.value.2[1]) == Some(|wrongEmails|)
  {
    var shares :- Summary.ComputeShares(|wrongEmails|, |properEmails|);
    Success((shares.wrongCount, shares.properCount, Summary.SummaryRow(shares, percent)))
  }

  datatype Report = Report(filename: string, properCount: nat, wrongCount: nat)

  function DropPrefix(s: string, prefix: string): Option<string> {
    if |prefix| <= |s| && s[..|prefix|] == prefix then Some(s[|prefix|..]) else None
  }

  function DropSuffix(s: string, suffix: string): Option<string> {
    if |suffix| <= |s| && s[|s| - |suffix|..] == suffix then Some(s[..|s| - |suffix|]) else None
  }

  /** Splits a trailing decimal number off `s`. */
  function SplitCount(s: string): Option<(string, nat)> {
    var k := Decimal.TrailingDigits(s);
    if k == 0 then None else Some((s[..|s| - k], Decimal.ToNat(s[|s| - k..])))
  }

  /** Reads a success message back, from its end, into the name and counts. */
  function ParseSuccessMessage(message: string): Option<Report> {
    var beforeClosing :- DropSuffix(message, Closing);
    var wrong :- SplitCount(beforeClosing);
    var beforeProperPart :- DropSuffix(wrong.0, ProperPart);
    var proper :- SplitCount(beforeProperPart);
    var beforeProcessed :- DropSuffix(proper.0, Processed);
    var filename :- DropPrefix(beforeProcessed, Opening);
    Some(Report(filename, proper.1, wrong.1))
  }

  lemma DropPrefixOfConcat(prefix: string, s: string)
    ensures DropPrefix(prefix + s, prefix) == Some(s)
  {
    assert (prefix + s)[..|prefix|] == prefix;
    assert (prefix + s)[|prefix|..] == s;
  }

  lemma DropSuffixOfConcat(s: string, suffix: string)
    ensures DropSuffix(s + suffix, suffix) == Some(s)
  {
    assert (s + suffix)[|s|..] == suffix;
    assert (s + suffix)[..|s|] == s;
  }

  lemma SplitCountOfConcat(init: string, n: nat)
    requires |init| > 0 && init[|init| - 1] == ' '
    ensures SplitCount(init + Decimal.FromNat(n)) == Some((init, n))
  {
    var digits := Decimal.FromNat(n);
    var s := init + digits;
    Decimal.TrailingDigitsOfConcat(init, digits);
    assert s[..|s| - |digits|] == init;
    assert s[|s| - |digits|..] == digits;
    Decimal.ToNatFromNat(n);
  }

  /** The `sprintf` of the success message: file name, proper count, wrong
      count, in that order. The message determines its parts: reading it
      back returns them, proper count before wrong count. */
  function SuccessMessage(filename: string, properCount: nat, wrongCount: nat): (message: string)
    ensures ParseSuccessMessage(message) == Some(Report(filename, properCount, wrongCount))
  {
    var a := Opening + filename + Processed;
    var b := a + Decimal.FromNat(properCount);
    var c := b + ProperPart;
    var d := c + Decimal.FromNat(wrongCount);
    DropSuffixOfConcat(d, Closing);
    SplitCountOfConcat(c, wrongCount);
    DropSuffixOfConcat(b, ProperPart);
    SplitCountOfConcat(a, properCount);
    DropSuffixOfConcat(Opening + filename, Processed);
    DropPrefixOfConcat(Opening, filename);
    d + Closing
  }

  /** What one run produces in memory: both lists, the summary data row and
      the success message. */
  datatype Outcome = Outcome(properEmails: seq<Row>, wrongEmails: seq<Row>, summaryData: seq<string>, message: string)

  /** Lines 97-126 of `execute`: both filters over the same records, the
      summary, and the message. */
  function Process(validate: Validator, percent: Summary.Percent, records: seq<Row>, inputFilename: string)
    : (r: Result<Outcome, Error>)
    ensures r.Failure? <==> |records| == 0
    ensures r.Failure? ==> r.error == DivisionByZero
    ensures r.Success? ==>
      && |r.value.properEmails| + |r.value.wrongEmails| == |records|
      && r.value.properEmails == ProperEmails(validate, records)
      && r.value.wrongEmails == WrongEmails(validate, records)
      && |r.value.summaryData| == 2
      && Summary.ReadCount(r.value.summaryData[0]) == Some(|r.value.properEmails|)
      && Summary.ReadCount(r.value.summaryData[1]) == Some(|r.value.wrongEmails|)
      && ParseSuccessMessage(r.value.message)
         == Some(Report(inputFilename, |r.value.properEmails|, |r.value.wrongEmails|))
  {
    var properEmails := ProperEmails(validate, records);
    var wrongEmails := WrongEmails(validate, records);
    PartitionSizes(validate, records);
    var summary :- PrepareSummaryData(wrongEmails, properEmails, percent);
    var (wrongEmailsCount, properEmailsCount, summaryData) := summary;
    Success(Outcome(properEmails, wrongEmails, summaryData,
                    SuccessMessage(inputFilename, properEmailsCount, wrongEmailsCount)))
  }

  /** The worked example: two of three addresses accepted. */
  lemma ThreeAddressExample(validate: Validator, percent: Summary.Percent)
    requires validate(Some("a@b.com")) == [] && validate(Some("x@y.org")) == []
    requires validate(Some("not-an-email")) != []
    ensures
      var records := [[Some("a@b.com")], [Some("not-an-email")], [Some("x@y.org")]];
      Process(validate, percent, records, "input.csv") == Success(Outcome(
        [[Some("a@b.com")], [Some("x@y.org")]],
        [[Some("not-an-email")]],
        ["2 (" + percent(200.0 / 3.0) + ")", "1 (" + percent(100.0 / 3.0) + ")"],
        SuccessMessage("input.csv", 2, 1)))
  {
    var records := [[Some("a@b.com")], [Some("not-an-email")], [Some("x@y.org")]];
    var proper := [[Some("a@b.com")], [Some("x@y.org")]];
    var wrong := [[Some("not-an-email")]];
    assert records[1..][1..] == [[Some("x@y.org")]];
    assert ProperEmails(validate, records) == proper;
    assert WrongEmails(validate, records) == wrong;
    ExampleSummaryRow(percent);
  }

  lemma ExampleSummaryRow(percent: Summary.Percent)
    ensures
      var proper := [[Some("a@b.com")], [Some("x@y.org")]];
      var wrong := [[Some("not-an-email")]];
      PrepareSummaryData(wrong, proper, percent)
        == Success((1, 2, ["2 (" + percent(200.0 / 3.0) + ")", "1 (" + percent(100.0 / 3.0) + ")"]))
  {
    assert Decimal.FromNat(2) == "2" && Decimal.FromNat(1) == "1";
    var wrongShare := 1 as real / (1 + 2) as real;
    assert (1.0 - wrongShare) * 100.0 == 200.0 / 3.0 && wrongShare * 100.0 == 100.0 / 3.0;
    assert Summary.Cell(2, 1.0 - wrongShare, percent) == "2 (" + percent(200.0 / 3.0) + ")";
    assert Summary.Cell(1, wrongShare, percent) == "1 (" + percent(100.0 / 3.0) + ")";
  }
}
