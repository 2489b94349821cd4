/** What `create`, `update` and `delete` return, given the record store's
    response: its `success` flag, its `message`, and its optional
    per-record `results` list. */
module WriteResults {
  import opened Wrappers

  /** One entry of `response.results`. */
  datatype RecordResult<D> = RecordResult(success: bool, data: D, message: string)

  /** The store's answer to a write request; `results` may be absent. */
  datatype WriteResponse<D> = WriteResponse(success: bool, message: string, results: Option<seq<RecordResult<D>>>)

  const CreateFailed := "Failed to create expense"
  const UpdateFailed := "Failed to update expense"

  /** Index `i` holds the first successful result of `rs`. */
  ghost predicate FirstSuccess<D>(rs: seq<RecordResult<D>>, i: int)
  {
    0 <= i < |rs| && rs[i].success && forall j :: 0 <= j < i ==> !rs[j].success
  }

  /** `results.filter(result => result.success)`. */
  function Successful<D>(rs: seq<RecordResult<D>>): (r: seq<RecordResult<D>>)
    ensures |r| > 0 <==> exists i :: 0 <= i < |rs| && rs[i].success
    ensures |r| > 0 ==> exists i :: FirstSuccess(rs, i) && r[0] == rs[i]
    ensures forall x :: x in r ==> x in rs && x.success
    ensures forall i :: 0 <= i < |rs| && rs[i].success ==> rs[i] in r
  {
    if |rs| == 0 then []
    else
      var tail := Successful(rs[1..]);
      if rs[0].success then
        assert FirstSuccess(rs, 0);
        KeepSuccesses(rs, tail);
        [rs[0]] + tail
      else
        SkipFailure(rs, tail);
        KeepSuccesses(rs, tail);
        tail
  }

  /** Every successful entry after the first is kept by the rest. */
  lemma KeepSuccesses<D>(rs: seq<RecordResult<D>>, tail: seq<RecordResult<D>>)
    requires |rs| > 0
    requires forall i :: 0 <= i < |rs| - 1 && rs[1..][i].success ==> rs[1..][i] in tail
    ensures forall i :: 1 <= i < |rs| && rs[i].success ==> rs[i] in tail
  {
    forall i | 1 <= i < |rs| && rs[i].success ensures rs[i] in tail {
      assert rs[1..][i - 1] == rs[i];
    }
  }

  /** A failed first entry leaves the first success where the rest has it. */
  lemma SkipFailure<D>(rs: seq<RecordResult<D>>, tail: seq<RecordResult<D>>)
    requires |rs| > 0 && !rs[0].success
    requires |tail| > 0 <==> exists i :: 0 <= i < |rs| - 1 && rs[1..][i].success
    requires |tail| > 0 ==> exists i :: FirstSuccess(rs[1..], i) && tail[0] == rs[1..][i]
    ensures |tail| > 0 <==> exists i :: 0 <= i < |rs| && rs[i].success
    ensures |tail| > 0 ==> exists i :: FirstSuccess(rs, i) && tail[0] == rs[i]
  {
    if |tail| > 0 {
      var i :| FirstSuccess(rs[1..], i) && tail[0] == rs[1..][i];
      assert FirstSuccess(rs, i + 1);
    }
    if exists i :: 0 <= i < |rs| && rs[i].success {
      var i :| 0 <= i < |rs| && rs[i].success;
      assert rs[1..][i - 1].success;
    }
  }

  /** The shared rule of `create` and `update`: an unsuccessful response
      throws its own message; otherwise the `data` of the first successful
      result is returned; with no `results`, or none successful, the
      operation throws `failure`. */
  function WriteOutcome<D>(resp: WriteResponse<D>, failure: string): (r: Result<D, string>)
    ensures !resp.success ==> r == Failure(resp.message)
    ensures r.Success? <==>
      resp.success && resp.results.Some? && exists i :: 0 <= i < |resp.results.value| && resp.results.value[i].success
    ensures r.Success? ==> exists i :: FirstSuccess(resp.results.value, i) && r.value == resp.results.value[i].data
    ensures resp.success && r.Failure? ==> r.error == failure
  {
    if !resp.success then Failure(resp.message)
    else if resp.results.Some? && |Successful(resp.results.value)| > 0 then
      Success(Successful(resp.results.value)[0].data)
    else Failure(failure)
  }

  /** `create`: the first successful record, or an error. */
  function CreateOutcome<D>(resp: WriteResponse<D>): (r: Result<D, string>)
    ensures r.Success? <==>
      resp.success && resp.results.Some? && exists i :: 0 <= i < |resp.results.value| && resp.results.value[i].success
    ensures r.Success? ==> resp.results.Some? && exists i :: FirstSuccess(resp.results.value, i) && r.value == resp.results.value[i].data
    ensures r.Failure? ==> r.error == if resp.success then CreateFailed else resp.message
  {
    WriteOutcome(resp, CreateFailed)
  }

  /** `update`: the same rule with its own failure message. */
  function UpdateOutcome<D>(resp: WriteResponse<D>): (r: Result<D, string>)
    ensures r.Success? <==>
      resp.success && resp.results.Some? && exists i :: 0 <= i < |resp.results.value| && resp.results.value[i].success
    ensures r.Success? ==> resp.results.Some? && exists i :: FirstSuccess(resp.results.value, i) && r.value == resp.results.value[i].data
    ensures r.Failure? ==> r.error == if resp.success then UpdateFailed else resp.message
  {
    WriteOutcome(resp, UpdateFailed)
  }

  /** `delete`: false on an unsuccessful response, true when there is no
      `results` list, and otherwise whether any deletion succeeded. */
  function DeleteOutcome<D>(resp: WriteResponse<D>): (deleted: bool)
    ensures deleted <==>
      resp.success && (resp.results.None? || exists i :: 0 <= i < |resp.results.value| && resp.results.value[i].success)
  {
    if !resp.success then false
    else if resp.results.Some? then |Successful(resp.results.value)| > 0
    else true
  }

  /** An empty `results` list is not the same as an absent one: `delete`
      reports failure for the former and success for the latter, while
      `create` fails on both. */
  lemma EmptyResultsVersusNone<D>(resp: WriteResponse<D>)
    requires resp.success
    ensures resp.results == Some([]) ==> !DeleteOutcome(resp) && CreateOutcome(resp) == Failure(CreateFailed)
    ensures resp.results.None? ==> DeleteOutcome(resp) && CreateOutcome(resp) == Failure(CreateFailed)
  {
  }

  /** Failed entries before the first success do not matter: the outcome
      of `create` and `update` is decided by the first successful entry. */
  lemma {:induction false} LeadingFailuresIgnored<D>(resp: WriteResponse<D>, failed: RecordResult<D>, failure: string)
    requires resp.results.Some? && !failed.success
    ensures WriteOutcome(WriteResponse(resp.success, resp.message, Some([failed] + resp.results.value)), failure)
         == WriteOutcome(resp, failure)
  {
    var rs := resp.results.value;
    assert ([failed] + rs)[1..] == rs;
  }
}
