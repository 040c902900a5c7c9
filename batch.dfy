/** The per-item loop both nodes share: item i either yields an output item
    or throws; a throw becomes an error item paired with i under
    continue-on-fail, and otherwise aborts the batch with that error. */
module Batch {
  import opened Wrappers
  import opened Items

  /** The batch result after running the try block of every item in
      `outcomes`, in order. */
  function Collect(outcomes: seq<Result<OutputItem>>, continueOnFail: bool): Result<seq<OutputItem>>
    decreases |outcomes|
  {
    if outcomes == [] then Ok([])
    else
      var n := |outcomes| - 1;
      match Collect(outcomes[..n], continueOnFail)
      case Err(m) => Err(m)
      case Ok(acc) =>
        match outcomes[n]
        case Ok(item) => Ok(acc + [item])
        case Err(m) => if continueOnFail then Ok(acc + [ErrorItem(m, n)]) else Err(m)
  }

  /** What lands at output position k when item k's try block gave `o`. */
  function Slot(o: Result<OutputItem>, k: nat): OutputItem {
    match o
    case Ok(item) => item
    case Err(m) => ErrorItem(m, k)
  }

  predicate AllOk(outcomes: seq<Result<OutputItem>>) {
    forall k :: 0 <= k < |outcomes| ==> outcomes[k].Ok?
  }

  /** The batch completes exactly when it continues on failure or nothing
      fails; it then holds one output per input, in input order. */
  lemma {:induction false} CollectOk(outcomes: seq<Result<OutputItem>>, continueOnFail: bool)
    ensures Collect(outcomes, continueOnFail).Ok? <==> (continueOnFail || AllOk(outcomes))
    ensures Collect(outcomes, continueOnFail).Ok? ==>
              |Collect(outcomes, continueOnFail).value| == |outcomes| &&
              forall k :: 0 <= k < |outcomes| ==> Collect(outcomes, continueOnFail).value[k] == Slot(outcomes[k], k)
    decreases |outcomes|
  {
    if outcomes != [] {
      var n := |outcomes| - 1;
      var prefix := outcomes[..n];
      CollectOk(prefix, continueOnFail);
      assert forall k :: 0 <= k < n ==> prefix[k] == outcomes[k];
      if !continueOnFail && !AllOk(outcomes) && AllOk(prefix) {
        assert !outcomes[n].Ok?;
      }
    }
  }

  /** Without continue-on-fail the batch aborts with message m exactly when
      some item fails with m and every earlier item succeeded. */
  lemma {:induction false} CollectErr(outcomes: seq<Result<OutputItem>>, continueOnFail: bool, m: string)
    ensures Collect(outcomes, continueOnFail) == Err(m) <==>
              !continueOnFail &&
              exists k :: 0 <= k < |outcomes| && outcomes[k] == Err(m) && AllOk(outcomes[..k])
    decreases |outcomes|
  {
    if outcomes == [] {
      return;
    }
    var n := |outcomes| - 1;
    var prefix := outcomes[..n];
    CollectErr(prefix, continueOnFail, m);
    CollectOk(prefix, continueOnFail);
    assert forall k :: 0 <= k <= n ==> outcomes[..k] == prefix[..k];
    if Collect(outcomes, continueOnFail) == Err(m) {
      if Collect(prefix, continueOnFail) != Err(m) {
        assert outcomes[n] == Err(m) && AllOk(outcomes[..n]);
      }
    }
    if !continueOnFail && exists k :: 0 <= k < |outcomes| && outcomes[k] == Err(m) && AllOk(outcomes[..k]) {
      var k :| 0 <= k < |outcomes| && outcomes[k] == Err(m) && AllOk(outcomes[..k]);
      if k < n {
        assert prefix[k] == Err(m);
      } else {
        assert AllOk(prefix);
      }
    }
  }

  /** `CollectErr` with the earlier items spelled out one by one. */
  lemma CollectFirstErr(outcomes: seq<Result<OutputItem>>, continueOnFail: bool, m: string)
    ensures Collect(outcomes, continueOnFail) == Err(m) <==>
              !continueOnFail &&
              exists k :: 0 <= k < |outcomes| && outcomes[k] == Err(m) && forall j :: 0 <= j < k ==> outcomes[j].Ok?
  {
    CollectErr(outcomes, continueOnFail, m);
    forall k | 0 <= k <= |outcomes| ensures AllOk(outcomes[..k]) <==> forall j :: 0 <= j < k ==> outcomes[j].Ok? {
      assert forall j :: 0 <= j < k ==> outcomes[..k][j] == outcomes[j];
    }
  }

  /** Once the loop has aborted on a prefix, the whole batch aborts with the
      same error: later items are never run. */
  lemma {:induction false} AbortIsFinal(outcomes: seq<Result<OutputItem>>, continueOnFail: bool, n: nat)
    requires n <= |outcomes|
    requires Collect(outcomes[..n], continueOnFail).Err?
    ensures Collect(outcomes, continueOnFail) == Collect(outcomes[..n], continueOnFail)
    decreases |outcomes| - n
  {
    if n < |outcomes| {
      var next := outcomes[..n + 1];
      assert next[..n] == outcomes[..n];
      AbortIsFinal(outcomes, continueOnFail, n + 1);
    } else {
      assert outcomes[..n] == outcomes;
    }
  }

  /** One turn of the loop: the batch over a prefix one item longer. */
  lemma CollectStep(outcomes: seq<Result<OutputItem>>, continueOnFail: bool, i: nat)
    requires i < |outcomes|
    ensures Collect(outcomes[..i + 1], continueOnFail) ==
              match Collect(outcomes[..i], continueOnFail)
              case Err(m) => Err(m)
              case Ok(acc) =>
                match outcomes[i]
                case Ok(item) => Ok(acc + [item])
                case Err(m) => if continueOnFail then Ok(acc + [ErrorItem(m, i)]) else Err(m)
  {
    assert outcomes[..i + 1][..i] == outcomes[..i];
  }

  /** When every successful outcome k is paired with k, so is every output. */
  lemma CollectPairing(outcomes: seq<Result<OutputItem>>, continueOnFail: bool)
    requires forall k :: 0 <= k < |outcomes| && outcomes[k].Ok? ==> outcomes[k].value.pairedItem == k
    ensures Collect(outcomes, continueOnFail).Ok? ==>
              |Collect(outcomes, continueOnFail).value| == |outcomes| &&
              forall k :: 0 <= k < |outcomes| ==> Collect(outcomes, continueOnFail).value[k].pairedItem == k
  {
    CollectOk(outcomes, continueOnFail);
  }
}
