/** The record classifier (`CsvEmailDataParserService`): two filters over the
    rows of a CSV file that keep, in input order, the first field of each row
    whose field the email validator accepts, respectively rejects. */
module EmailParser {
  import opened Wrappers

  /** A CSV field as PHP sees it: a string, or `null` (None) when absent. */
  type Cell = Option<string>

  type Row = seq<Cell>

  /** Symfony's validator applied with the `Assert\Email` constraint: the
      list of violation messages it reports for a value. Its grammar is not
      part of this model, so the validator is a parameter. */
  type Validator = Cell -> seq<string>

  /** `$email[0]`: the first field of a row; PHP yields `null` for a row
      without one. */
  function Email(row: Row): Cell {
    if |row| > 0 then row[0] else None
  }

  /** `isEmailValid`: the validator's violation list is counted, and the
      address is valid exactly when that list is empty. */
  function IsEmailValid(validate: Validator, email: Cell): (valid: bool)
    ensures valid <==> validate(email) == []
  {
    |validate(email)| == 0
  }

  /** `getProperEmailAddressees`: the accepted first fields, each as a
      one-field row, in input order. */
  function ProperEmails(validate: Validator, inputData: seq<Row>): (proper: seq<Row>)
    ensures |proper| <= |inputData|
    ensures forall k :: 0 <= k < |proper| ==> |proper[k]| == 1 && IsEmailValid(validate, proper[k][0])
  {
    if inputData == [] then []
    else
      var email := Email(inputData[0]);
      (if IsEmailValid(validate, email) then [[email]] else []) + ProperEmails(validate, inputData[1..])
  }

  /** `getWrongEmailAddressees`: the rejected first fields, each as a
      one-field row, in input order. */
  function WrongEmails(validate: Validator, inputData: seq<Row>): (wrong: seq<Row>)
    ensures |wrong| <= |inputData|
    ensures forall k :: 0 <= k < |wrong| ==> |wrong[k]| == 1 && !IsEmailValid(validate, wrong[k][0])
  {
    if inputData == [] then []
    else
      var email := Email(inputData[0]);
      (if IsEmailValid(validate, email) then [] else [[email]]) + WrongEmails(validate, inputData[1..])
  }

  /** Every row reduced to its first field, in input order. */
  function FirstFields(inputData: seq<Row>): (fields: seq<Row>)
    ensures |fields| == |inputData|
    ensures forall i :: 0 <= i < |inputData| ==> fields[i] == [Email(inputData[i])]
  {
    seq(|inputData|, i requires 0 <= i < |inputData| => [Email(inputData[i])])
  }

  /** The `foreach` loop of `getProperEmailAddressees`. */
  method GetProperEmailAddressees(validate: Validator, inputData: seq<Row>) returns (properEmails: seq<Row>)
    ensures properEmails == ProperEmails(validate, inputData)
  {
    properEmails := [];
    for i := 0 to |inputData|
      invariant properEmails == ProperEmails(validate, inputData[..i])
    {
      var email := inputData[i];
      var valid := IsEmailValid(validate, Email(email));
      if valid {
        properEmails := properEmails + [[Email(email)]];
      }
      assert inputData[..i + 1] == inputData[..i] + [email];
      ProperEmailsConcat(validate, inputData[..i], [email]);
    }
    assert inputData[..|inputData|] == inputData;
  }

  /** The `foreach` loop of `getWrongEmailAddressees`. */
  method GetWrongEmailAddressees(validate: Validator, inputData: seq<Row>) returns (wrongEmails: seq<Row>)
    ensures wrongEmails == WrongEmails(validate, inputData)
  {
    wrongEmails := [];
    for i := 0 to |inputData|
      invariant wrongEmails == WrongEmails(validate, inputData[..i])
    {
      var email := inputData[i];
      var valid := IsEmailValid(validate, Email(email));
      if !valid {
        wrongEmails := wrongEmails + [[Email(email)]];
      }
      assert inputData[..i + 1] == inputData[..i] + [email];
      WrongEmailsConcat(validate, inputData[..i], [email]);
    }
    assert inputData[..|inputData|] == inputData;
  }

  /** Stable order: classifying a concatenation concatenates the results. */
  lemma {:induction false} ProperEmailsConcat(validate: Validator, a: seq<Row>, b: seq<Row>)
    ensures ProperEmails(validate, a + b) == ProperEmails(validate, a) + ProperEmails(validate, b)
  {
    if a == [] {
      assert a + b == b;
    } else {
      assert (a + b)[0] == a[0];
      assert (a + b)[1..] == a[1..] + b;
      ProperEmailsConcat(validate, a[1..], b);
    }
  }

  lemma {:induction false} WrongEmailsConcat(validate: Validator, a: seq<Row>, b: seq<Row>)
    ensures WrongEmails(validate, a + b) == WrongEmails(validate, a) + WrongEmails(validate, b)
  {
    if a == [] {
      assert a + b == b;
    } else {
      assert (a + b)[0] == a[0];
      assert (a + b)[1..] == a[1..] + b;
      WrongEmailsConcat(validate, a[1..], b);
    }
  }

  /** The two outputs split the reduced input: as multisets they add up to
      the first fields of all rows, so each row lands in exactly one. */
  lemma {:induction false} PartitionMultiset(validate: Validator, inputData: seq<Row>)
    ensures multiset(ProperEmails(validate, inputData)) + multiset(WrongEmails(validate, inputData))
         == multiset(FirstFields(inputData))
  {
    if inputData != [] {
      var rest := inputData[1..];
      PartitionMultiset(validate, rest);
      assert FirstFields(inputData) == [[Email(inputData[0])]] + FirstFields(rest);
    }
  }

  /** The validator's verdict depends only on the field, so no field value
      is both accepted and rejected: the two lists share no element. */
  lemma PartitionDisjoint(validate: Validator, inputData: seq<Row>)
    ensures multiset(ProperEmails(validate, inputData)) * multiset(WrongEmails(validate, inputData)) == multiset{}
  {
    var proper := multiset(ProperEmails(validate, inputData));
    var wrong := multiset(WrongEmails(validate, inputData));
    forall out: Row
      ensures (proper * wrong)[out] == 0
    {
      ProperEmailsMembers(validate, inputData, out);
    }
  }

  /** Count conservation: `|proper| + |wrong| == |input|`. */
  lemma PartitionSizes(validate: Validator, inputData: seq<Row>)
    ensures |ProperEmails(validate, inputData)| + |WrongEmails(validate, inputData)| == |inputData|
  {
    PartitionMultiset(validate, inputData);
    assert |multiset(FirstFields(inputData))| == |FirstFields(inputData)|;
  }

  /** A row is in the proper list iff it is the first field of some input row
      for which the validator reports no violation; it is then never in the
      wrong list. */
  lemma {:induction false} ProperEmailsMembers(validate: Validator, inputData: seq<Row>, out: Row)
    ensures out in ProperEmails(validate, inputData)
        <==> exists i :: 0 <= i < |inputData| && out == [Email(inputData[i])] && validate(Email(inputData[i])) == []
    ensures out in ProperEmails(validate, inputData) ==> out !in WrongEmails(validate, inputData)
  {
    if inputData != [] {
      var rest := inputData[1..];
      ProperEmailsMembers(validate, rest, out);
      if out in ProperEmails(validate, rest) {
        var i :| 0 <= i < |rest| && out == [Email(rest[i])] && validate(Email(rest[i])) == [];
        assert rest[i] == inputData[i + 1];
      }
      if exists i :: 0 <= i < |inputData| && out == [Email(inputData[i])] && validate(Email(inputData[i])) == [] {
        var i :| 0 <= i < |inputData| && out == [Email(inputData[i])] && validate(Email(inputData[i])) == [];
        if i > 0 {
          assert inputData[i] == rest[i - 1];
        }
      }
    }
  }

  /** A row is in the wrong list iff it is the first field of some input row
      for which the validator reports at least one violation. */
  lemma {:induction false} WrongEmailsMembers(validate: Validator, inputData: seq<Row>, out: Row)
    ensures out in WrongEmails(validate, inputData)
        <==> exists i :: 0 <= i < |inputData| && out == [Email(inputData[i])] && validate(Email(inputData[i])) != []
  {
    if inputData != [] {
      var rest := inputData[1..];
      WrongEmailsMembers(validate, rest, out);
      if out in WrongEmails(validate, rest) {
        var i :| 0 <= i < |rest| && out == [Email(rest[i])] && validate(Email(rest[i])) != [];
        assert rest[i] == inputData[i + 1];
      }
      if exists i :: 0 <= i < |inputData| && out == [Email(inputData[i])] && validate(Email(inputData[i])) != [] {
        var i :| 0 <= i < |inputData| && out == [Email(inputData[i])] && validate(Email(inputData[i])) != [];
        if i > 0 {
          assert inputData[i] == rest[i - 1];
        }
      }
    }
  }

  /** Rows that are already one accepted field each pass the proper filter
      unchanged and are all dropped by the wrong filter. */
  lemma {:induction false} AcceptedRowsAreFixed(validate: Validator, rows: seq<Row>)
    requires forall k :: 0 <= k < |rows| ==> |rows[k]| == 1 && IsEmailValid(validate, rows[k][0])
    ensures ProperEmails(validate, rows) == rows
    ensures WrongEmails(validate, rows) == []
  {
    if rows != [] {
      assert [Email(rows[0])] == rows[0];
      AcceptedRowsAreFixed(validate, rows[1..]);
    }
  }

  lemma {:induction false} RejectedRowsAreFixed(validate: Validator, rows: seq<Row>)
    requires forall k :: 0 <= k < |rows| ==> |rows[k]| == 1 && !IsEmailValid(validate, rows[k][0])
    ensures WrongEmails(validate, rows) == rows
    ensures ProperEmails(validate, rows) == []
  {
    if rows != [] {
      assert [Email(rows[0])] == rows[0];
      RejectedRowsAreFixed(validate, rows[1..]);
    }
  }

  /** Classifying an output again changes nothing: each list is a fixpoint
      of its own filter and is emptied by the other. */
  lemma ReclassifyingIsStable(validate: Validator, inputData: seq<Row>)
    ensures ProperEmails(validate, ProperEmails(validate, inputData)) == ProperEmails(validate, inputData)
    ensures WrongEmails(validate, ProperEmails(validate, inputData)) == []
    ensures WrongEmails(validate, WrongEmails(validate, inputData)) == WrongEmails(validate, inputData)
    ensures ProperEmails(validate, WrongEmails(validate, inputData)) == []
  {
    AcceptedRowsAreFixed(validate, ProperEmails(validate, inputData));
    RejectedRowsAreFixed(validate, WrongEmails(validate, inputData));
  }
}
