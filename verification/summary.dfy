/** The summary calculation shared by the service and the command
    (`prepareSummaryData`): counts, exact shares and the two cells of the
    summary row, proper first. */
module Summary {
  import opened Wrappers
  import opened Errors
  import Decimal

  /** `sprintf("%.2f%%", x)`: rendering of a percentage. Float formatting is
      not part of this model, so the formatter is a parameter. */
  type Percent = real -> string

  /** Header row of the summary CSV file. */
  const SummaryHeaders: seq<string> := ["Proper emails number", "Wrong emails number"]

  datatype Shares = Shares(wrongCount: nat, properCount: nat, wrongShare: real, properShare: real)

  /** `wrong / (proper + wrong)` and `1 -` that; fails when both counts are
      zero, as the source's unguarded division does. */
  function ComputeShares(wrongCount: nat, properCount: nat): (r: Result<Shares, Error>)
    ensures r.Failure? <==> wrongCount + properCount == 0
    ensures r.Failure? ==> r.error == DivisionByZero
    ensures r.Success? ==>
      var total := (wrongCount + properCount) as real;
      && r.value.wrongCount == wrongCount
      && r.value.properCount == properCount
      && r.value.properShare == properCount as real / total
      && r.value.wrongShare == wrongCount as real / total
      && r.value.properShare + r.value.wrongShare == 1.0
      && 0.0 <= r.value.wrongShare <= 1.0
      && 0.0 <= r.value.properShare <= 1.0
  {
    if wrongCount + properCount == 0 then Failure(DivisionByZero)
    else
      var total := (properCount + wrongCount) as real;
      var wrongShare := wrongCount as real / total;
      assert wrongShare + properCount as real / total == 1.0 by {
        assert wrongShare * total == wrongCount as real;
        assert (properCount as real / total) * total == properCount as real;
      }
      Success(Shares(wrongCount, properCount, wrongShare, 1.0 - wrongShare))
  }

  /** `$count . " ($percentage)"`. */
  function Cell(count: nat, share: real, percent: Percent): string {
    Decimal.FromNat(count) + " (" + percent(share * 100.0) + ")"
  }

  /** Reads back the count at the head of a summary cell. */
  function ReadCount(cell: string): Option<nat> {
    var k := Decimal.LeadingDigits(cell);
    if k == 0 then None else Some(Decimal.ToNat(cell[..k]))
  }

  lemma ReadCountOfCell(count: nat, share: real, percent: Percent)
    ensures ReadCount(Cell(count, share, percent)) == Some(count)
  {
    var digits := Decimal.FromNat(count);
    var rest := " (" + percent(share * 100.0) + ")";
    assert Cell(count, share, percent) == digits + rest;
    Decimal.LeadingDigitsOfConcat(digits, rest);
    assert (digits + rest)[..|digits|] == digits;
    Decimal.ToNatFromNat(count);
  }

  /** The data row of the summary: the proper cell first, the wrong cell
      second, each beginning with its own count. */
  function SummaryRow(shares: Shares, percent: Percent): (row: seq<string>)
    ensures |row| == 2
    ensures ReadCount(row[0]) == Some(shares.properCount)
    ensures ReadCount(row[1]) == Some(shares.wrongCount)
  {
    ReadCountOfCell(shares.properCount, shares.properShare, percent);
    ReadCountOfCell(shares.wrongCount, shares.wrongShare, percent);
    [Cell(shares.properCount, shares.properShare, percent), Cell(shares.wrongCount, shares.wrongShare, percent)]
  }
}
