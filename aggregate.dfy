/**
 * `validateAll`: run every validation once, in order, AND their verdicts and
 * keep their non-empty messages in order.
 */
module Aggregate {
  import opened Results

  /** A zero-argument validation; it is pure, so calling it is evaluating it. */
  type Validation = () -> ValidationResult

  datatype Summary = Summary(isValid: bool, errorMessages: seq<string>)

  /** `validations.map(validation => validation())`. */
  function RunAll(validations: seq<Validation>): seq<ValidationResult> {
    seq(|validations|, i requires 0 <= i < |validations| => validations[i]())
  }

  /** `results.every(result => result.isValid)`. */
  function Every(results: seq<ValidationResult>): bool {
    if results == [] then true else results[0].isValid && Every(results[1..])
  }

  /** `results.map(result => result.errorMessage).filter(message => message !== '')`. */
  function NonEmptyMessages(results: seq<ValidationResult>): seq<string> {
    if results == [] then []
    else
      var kept := if results[0].errorMessage != "" then [results[0].errorMessage] else [];
      kept + NonEmptyMessages(results[1..])
  }

  /** `validateAll`. The aggregate is valid exactly when every validation
      is. */
  function ValidateAll(validations: seq<Validation>): (s: Summary)
    ensures s.isValid <==> forall i :: 0 <= i < |validations| ==> validations[i]().isValid
  {
    var results := RunAll(validations);
    EveryMeansAll(results);
    assert forall i :: 0 <= i < |validations| ==> results[i] == validations[i]();
    Summary(Every(results), NonEmptyMessages(results))
  }

  lemma {:induction false} EveryMeansAll(results: seq<ValidationResult>)
    ensures Every(results) <==> forall i :: 0 <= i < |results| ==> results[i].isValid
  {
    if results != [] {
      EveryMeansAll(results[1..]);
      assert forall i :: 1 <= i < |results| ==> results[i] == results[1..][i - 1];
    }
  }

  lemma {:induction false} NonEmptyMessagesAppend(a: seq<ValidationResult>, b: seq<ValidationResult>)
    ensures NonEmptyMessages(a + b) == NonEmptyMessages(a) + NonEmptyMessages(b)
  {
    if a == [] {
      assert a + b == b;
    } else {
      assert (a + b)[1..] == a[1..] + b;
      NonEmptyMessagesAppend(a[1..], b);
    }
  }

  lemma {:induction false} EveryAppend(a: seq<ValidationResult>, b: seq<ValidationResult>)
    ensures Every(a + b) == (Every(a) && Every(b))
  {
    if a == [] {
      assert a + b == b;
    } else {
      assert (a + b)[1..] == a[1..] + b;
      EveryAppend(a[1..], b);
    }
  }

  /** No validations: valid, no messages. */
  lemma ValidateAllEmpty()
    ensures ValidateAll([]) == Summary(true, [])
  {
  }

  /** One validation: its verdict, and its message unless that is empty. */
  lemma ValidateAllSingle(v: Validation)
    ensures ValidateAll([v]) == Summary(v().isValid, if v().errorMessage == "" then [] else [v().errorMessage])
  {
    var r := v();
    assert RunAll([v]) == [r];
    assert [r][1..] == [];
    assert Every([r]) == r.isValid;
    assert NonEmptyMessages([r]) == if r.errorMessage == "" then [] else [r.errorMessage];
  }

  /** Running two lists one after the other ANDs their verdicts and
      concatenates their messages in call order. With the single case this
      pins `errorMessages` down as the in-order filter of the messages. */
  lemma ValidateAllAppend(a: seq<Validation>, b: seq<Validation>)
    ensures ValidateAll(a + b).isValid == (ValidateAll(a).isValid && ValidateAll(b).isValid)
    ensures ValidateAll(a + b).errorMessages == ValidateAll(a).errorMessages + ValidateAll(b).errorMessages
  {
    assert RunAll(a + b) == RunAll(a) + RunAll(b);
    EveryAppend(RunAll(a), RunAll(b));
    NonEmptyMessagesAppend(RunAll(a), RunAll(b));
  }

  /** Every reported message is non-empty and comes from one of the results. */
  lemma {:induction false} NonEmptyMessagesSound(results: seq<ValidationResult>)
    ensures forall m :: m in NonEmptyMessages(results) ==>
      m != "" && exists i :: 0 <= i < |results| && results[i].errorMessage == m
  {
    if results != [] {
      NonEmptyMessagesSound(results[1..]);
      forall m | m in NonEmptyMessages(results[1..])
        ensures exists i :: 0 <= i < |results| && results[i].errorMessage == m
      {
        var i :| 0 <= i < |results[1..]| && results[1..][i].errorMessage == m;
        assert results[i + 1].errorMessage == m;
      }
    }
  }

  lemma ValidateAllMessagesSound(validations: seq<Validation>)
    ensures forall m :: m in ValidateAll(validations).errorMessages ==>
      m != "" && exists i :: 0 <= i < |validations| && validations[i]().errorMessage == m
  {
    var results := RunAll(validations);
    NonEmptyMessagesSound(results);
    forall m | m in ValidateAll(validations).errorMessages
      ensures exists i :: 0 <= i < |validations| && validations[i]().errorMessage == m
    {
      var i :| 0 <= i < |results| && results[i].errorMessage == m;
      assert validations[i]().errorMessage == m;
    }
  }

  /** The indices of the results that carry a message. */
  ghost function MessageIndices(results: seq<ValidationResult>): set<int> {
    set i | 0 <= i < |results| && results[i].errorMessage != ""
  }

  lemma {:induction false} NonEmptyMessagesCount(results: seq<ValidationResult>)
    ensures |NonEmptyMessages(results)| == |MessageIndices(results)|
    decreases |results|
  {
    if results != [] {
      var n := |results| - 1;
      var init := results[..n];
      assert results == init + [results[n]];
      NonEmptyMessagesAppend(init, [results[n]]);
      NonEmptyMessagesCount(init);
      if results[n].errorMessage != "" {
        assert MessageIndices(results) == MessageIndices(init) + {n};
        assert n !in MessageIndices(init);
      } else {
        assert MessageIndices(results) == MessageIndices(init);
      }
    }
  }

  /** When every validation returns a well-formed result, as every validator
      of this library does, there is exactly one message per invalid result. */
  lemma ValidateAllCountsInvalid(validations: seq<Validation>)
    requires forall i :: 0 <= i < |validations| ==> WellFormed(validations[i]())
    ensures |ValidateAll(validations).errorMessages| ==
      |set i | 0 <= i < |validations| && !validations[i]().isValid|
  {
    var results := RunAll(validations);
    NonEmptyMessagesCount(results);
    assert MessageIndices(results) == set i | 0 <= i < |validations| && !validations[i]().isValid;
  }

  /** Over well-formed results the aggregate is valid exactly when it has no
      messages; in particular all-valid means no messages. */
  lemma ValidateAllValidIffNoMessages(validations: seq<Validation>)
    requires forall i :: 0 <= i < |validations| ==> WellFormed(validations[i]())
    ensures ValidateAll(validations).isValid <==> ValidateAll(validations).errorMessages == []
  {
    ValidateAllCountsInvalid(validations);
    var bad := set i | 0 <= i < |validations| && !validations[i]().isValid;
    if ValidateAll(validations).isValid {
      assert bad == {};
    } else {
      var i :| 0 <= i < |validations| && !validations[i]().isValid;
      assert i in bad;
    }
  }
}
