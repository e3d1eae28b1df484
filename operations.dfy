/**
 The record filter at the start of `AIEngine.generate_bug_recommendations`:
 project each operation record to `{id, status, name}`, keep those whose
 `status` is the string "success", and keep at most the first five.
 */
module OperationFilter {

  /**
   The values of an operation record that the filter can tell apart: `None`, strings,
   integers and booleans. Every other decoded JSON value (a float, a list, an object) is
   the single value `Other`, so its content is not kept.
   */
  datatype Value = Null | Str(s: string) | Int(i: int) | Bool(b: bool) | Other

  /** An operation record as returned by the platform's REST API: a dictionary. */
  type Record = map<string, Value>

  /** The projection `{'id': ..., 'status': ..., 'name': ...}`, keys in that order. */
  datatype Summary = Summary(id: Value, status: Value, name: Value)

  /** The truncation bound of `successful_results[:5]`. */
  const MAX_RESULTS: nat := 5

  /** Python's `op.get(key)`: a missing key reads as `None`. */
  function Get(op: Record, key: string): Value
  {
    if key in op then op[key] else Null
  }

  predicate IsSuccess(op: Record) {
    Get(op, "status") == Str("success")
  }

  function Project(op: Record): Summary
  {
    Summary(Get(op, "id"), Get(op, "status"), Get(op, "name"))
  }

  /** The number of records whose status is "success". */
  function CountSuccess(ops: seq<Record>): nat
  {
    if ops == [] then 0 else (if IsSuccess(ops[0]) then 1 else 0) + CountSuccess(ops[1..])
  }

  /** The list comprehension `successful_results`, before truncation. */
  function SuccessfulResults(ops: seq<Record>): seq<Summary>
  {
    if ops == [] then []
    else (if IsSuccess(ops[0]) then [Project(ops[0])] else []) + SuccessfulResults(ops[1..])
  }

  /**
   The comprehension has one element per success record, so no more than the input,
   and each element has status "success".
   */
  lemma {:induction false} SuccessfulResultsFacts(ops: seq<Record>)
    ensures |SuccessfulResults(ops)| == CountSuccess(ops) <= |ops|
    ensures forall j :: 0 <= j < |SuccessfulResults(ops)| ==> SuccessfulResults(ops)[j].status == Str("success")
  {
    if ops != [] {
      SuccessfulResultsFacts(ops[1..]);
    }
  }

  /** `filtered_results`: the comprehension truncated to its first five elements. */
  function FilterOperations(ops: seq<Record>): (r: seq<Summary>)
    ensures |r| <= MAX_RESULTS
    ensures |r| == if CountSuccess(ops) < MAX_RESULTS then CountSuccess(ops) else MAX_RESULTS
    ensures forall j :: 0 <= j < |r| ==> r[j].status == Str("success")
    ensures |r| <= |SuccessfulResults(ops)| && r == SuccessfulResults(ops)[..|r|]
  {
    var all := SuccessfulResults(ops);
    SuccessfulResultsFacts(ops);
    if |all| <= MAX_RESULTS then all else all[..MAX_RESULTS]
  }

  /**
   Every success record appears in the comprehension, at the position given by the
   number of success records before it.
   */
  lemma {:induction false} SuccessfulResultsComplete(ops: seq<Record>, i: nat)
    requires i < |ops| && IsSuccess(ops[i])
    ensures CountSuccess(ops[..i]) < |SuccessfulResults(ops)|
    ensures SuccessfulResults(ops)[CountSuccess(ops[..i])] == Project(ops[i])
  {
    SuccessfulResultsFacts(ops);
    if i > 0 {
      SuccessfulResultsFacts(ops[1..]);
      SuccessfulResultsComplete(ops[1..], i - 1);
      assert ops[1..][..i - 1] == ops[..i][1..];
      assert ops[1..][i - 1] == ops[i];
    }
  }

  /** Every element of the comprehension comes from a success record, at that record's rank. */
  lemma {:induction false} SuccessfulResultsSound(ops: seq<Record>, j: nat)
    requires j < |SuccessfulResults(ops)|
    ensures exists i :: 0 <= i < |ops| && IsSuccess(ops[i]) && CountSuccess(ops[..i]) == j
                        && SuccessfulResults(ops)[j] == Project(ops[i])
  {
    if IsSuccess(ops[0]) && j == 0 {
      assert ops[..0] == [];
    } else {
      var j' := if IsSuccess(ops[0]) then j - 1 else j;
      SuccessfulResultsSound(ops[1..], j');
      var i' :| 0 <= i' < |ops[1..]| && IsSuccess(ops[1..][i']) && CountSuccess(ops[1..][..i']) == j'
                && SuccessfulResults(ops[1..])[j'] == Project(ops[1..][i']);
      assert ops[..i' + 1][1..] == ops[1..][..i'];
      assert ops[..i' + 1][0] == ops[0];
    }
  }

  /**
   The filter keeps the first five success records: a success record with fewer than
   five success records before it is in the output, at its rank.
   */
  lemma FilterOperationsComplete(ops: seq<Record>, i: nat)
    requires i < |ops| && IsSuccess(ops[i]) && CountSuccess(ops[..i]) < MAX_RESULTS
    ensures CountSuccess(ops[..i]) < |FilterOperations(ops)|
    ensures FilterOperations(ops)[CountSuccess(ops[..i])] == Project(ops[i])
  {
    SuccessfulResultsComplete(ops, i);
  }

  /**
   The filter keeps nothing else: the element at position j is the projection of the
   success record that has exactly j success records before it.
   */
  lemma FilterOperationsSound(ops: seq<Record>, j: nat)
    requires j < |FilterOperations(ops)|
    ensures exists i :: 0 <= i < |ops| && IsSuccess(ops[i]) && CountSuccess(ops[..i]) == j
                        && FilterOperations(ops)[j] == Project(ops[i])
  {
    SuccessfulResultsSound(ops, j);
  }

  /**
   A record that carries the lifecycle field `state` but no `status` field is dropped:
   the filter tests `status`, not the `state` the command line displays.
   */
  lemma StateIsNotStatus(id: int)
    ensures FilterOperations([map["id" := Int(id), "state" := Str("finished"), "name" := Str("op")]]) == []
  {
    var op := map["id" := Int(id), "state" := Str("finished"), "name" := Str("op")];
    assert "status" !in op;
    assert [op][1..] == [];
    assert SuccessfulResults([op]) == [];
  }

  /** Seven records with statuses success, failed, then five successes: records 1, 3, 4, 5 and 6 are kept. */
  lemma SevenRecordsExample(ops: seq<Record>)
    requires |ops| == 7 && Get(ops[1], "status") == Str("failed")
    requires IsSuccess(ops[0]) && IsSuccess(ops[2]) && IsSuccess(ops[3])
    requires IsSuccess(ops[4]) && IsSuccess(ops[5]) && IsSuccess(ops[6])
    ensures FilterOperations(ops) == [Project(ops[0]), Project(ops[2]), Project(ops[3]),
                                      Project(ops[4]), Project(ops[5])]
  {
    assert !IsSuccess(ops[1]);
    assert ops[6..][1..] == [];
    assert SuccessfulResults(ops[6..]) == [Project(ops[6])];
    assert ops[5..][1..] == ops[6..];
    assert SuccessfulResults(ops[5..]) == [Project(ops[5]), Project(ops[6])];
    assert ops[4..][1..] == ops[5..];
    assert SuccessfulResults(ops[4..]) == [Project(ops[4]), Project(ops[5]), Project(ops[6])];
    assert ops[3..][1..] == ops[4..];
    assert SuccessfulResults(ops[3..]) == [Project(ops[3]), Project(ops[4]), Project(ops[5]), Project(ops[6])];
    assert ops[2..][1..] == ops[3..];
    assert SuccessfulResults(ops[2..]) == [Project(ops[2]), Project(ops[3]), Project(ops[4]), Project(ops[5]), Project(ops[6])];
    assert ops[1..][1..] == ops[2..];
    assert SuccessfulResults(ops[1..]) == SuccessfulResults(ops[2..]);
    assert SuccessfulResults(ops) == [Project(ops[0])] + SuccessfulResults(ops[1..]);
  }
}
