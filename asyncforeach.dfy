/**
  The completion rule of `async.forEach(items, iterator, callback)` as the
  code relies on it: every item's iterator is started, and the final
  callback runs once with the first error reported, or with none once
  every iterator has succeeded; for an empty list it runs at once. Each
  iterator is assumed to call back at most once.
 */
module AsyncForEach {
  import opened Wrappers

  /**
    The outcome of `async.forEach` over the applications: not begun, still
    waiting for `completed` of `total` iterators, or finished with the
    error it reported (None for success). Every iterator calls back at most
    once.
   */
  datatype Batch = Idle | Running(total: nat, completed: nat) | Done(err: Option<string>)

  /** An empty list finishes at once; otherwise the batch waits for every iterator. */
  function BeginBatch(n: nat): (b: Batch)
    ensures n == 0 ==> b == Done(None)
    ensures n > 0 ==> b == Running(n, 0)
  {
    if n == 0 then Done(None) else Running(n, 0)
  }

  /**
    Whether an iterator's `callback(err)` reports an error: `if (err)` tests
    truthiness, so an empty message counts as success.
   */
  predicate Failed(err: Option<string>) {
    err.Some? && err.value != ""
  }

  /** One iterator callback: the first error finishes the batch, as does the last success; later calls are ignored. */
  function Settle(b: Batch, err: Option<string>): (r: Batch)
    ensures !b.Running? ==> r == b
    ensures b.Running? && Failed(err) ==> r == Done(err)
    ensures b.Running? && !Failed(err) ==> (r == Done(None) <==> b.completed + 1 == b.total)
    ensures b.Running? && !Failed(err) && b.completed + 1 != b.total ==> r == Running(b.total, b.completed + 1)
  {
    match b
    case Running(total, completed) =>
      if Failed(err) then Done(err)
      else if completed + 1 == total then Done(None)
      else Running(total, completed + 1)
    case _ => b
  }

  /** The batch after the iterator callbacks `errs`, in the order they came. */
  function SettleAll(b: Batch, errs: seq<Option<string>>): (r: Batch)
    ensures !b.Running? ==> r == b
    ensures r.Running? ==> b.Running? && r.total == b.total
    ensures r.Done? && !b.Done? && r.err.Some? ==>
      Failed(r.err) && exists i :: 0 <= i < |errs| && errs[i] == r.err
  {
    if |errs| == 0 then b else Settle(SettleAll(b, errs[..|errs| - 1]), errs[|errs| - 1])
  }

  /** While every callback succeeds the batch counts them, and finishes cleanly at the last one. */
  lemma {:induction false} SettleAllClean(t: nat, c: nat, errs: seq<Option<string>>)
    requires c < t
    requires forall i :: 0 <= i < |errs| ==> !Failed(errs[i])
    ensures |errs| < t - c ==> SettleAll(Running(t, c), errs) == Running(t, c + |errs|)
    ensures t - c <= |errs| ==> SettleAll(Running(t, c), errs) == Done(None)
  {
    if |errs| > 0 {
      var n := |errs| - 1;
      SettleAllClean(t, c, errs[..n]);
    }
  }

  /** An error before the last success finishes the batch with that error, whatever follows. */
  lemma {:induction false} SettleAllFirstError(t: nat, c: nat, errs: seq<Option<string>>, j: nat)
    requires c < t
    requires j < |errs| && j < t - c && Failed(errs[j])
    requires forall i :: 0 <= i < j ==> !Failed(errs[i])
    ensures SettleAll(Running(t, c), errs) == Done(errs[j])
  {
    var n := |errs| - 1;
    var p := errs[..n];
    if j == n {
      SettleAllClean(t, c, p);
    } else {
      SettleAllFirstError(t, c, p, j);
    }
  }

  /** One more callback settles the batch reached so far. */
  lemma SettleAllSnoc(b: Batch, errs: seq<Option<string>>, e: Option<string>)
    ensures SettleAll(b, errs + [e]) == Settle(SettleAll(b, errs), e)
  {
    assert (errs + [e])[..|errs|] == errs;
  }

  /** The calls the final callback receives while the callbacks `errs` arrive. */
  function FinalCalls(b: Batch, errs: seq<Option<string>>): (calls: seq<Option<string>>)
    ensures !b.Running? ==> calls == []
    ensures |calls| <= |errs|
    ensures forall k :: 0 <= k < |calls| ==> calls[k].None? || Failed(calls[k])
  {
    if |errs| == 0 then []
    else
      var before := SettleAll(b, errs[..|errs| - 1]);
      var after := Settle(before, errs[|errs| - 1]);
      FinalCalls(b, errs[..|errs| - 1]) + if before.Running? && after.Done? then [after.err] else []
  }

  /** Once begun, the batch calls back at most once, exactly when it has finished, with the outcome it finished with. */
  lemma {:induction false} FinalCallsAtMostOnce(t: nat, c: nat, errs: seq<Option<string>>)
    requires c < t
    ensures |FinalCalls(Running(t, c), errs)| <= 1
    ensures |FinalCalls(Running(t, c), errs)| == 1 <==> SettleAll(Running(t, c), errs).Done?
    ensures |FinalCalls(Running(t, c), errs)| == 1 ==>
      FinalCalls(Running(t, c), errs)[0] == SettleAll(Running(t, c), errs).err
    ensures SettleAll(Running(t, c), errs).Running? ==> SettleAll(Running(t, c), errs).total == t
  {
    if |errs| > 0 {
      FinalCallsAtMostOnce(t, c, errs[..|errs| - 1]);
    }
  }
}
