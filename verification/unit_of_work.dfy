/**
 * How a transfer's writes reach the store.
 *
 * The writes of a transfer are an ordered list of effects. `RunWrites` runs
 * them the way the services call their repositories one after another:
 * each call may fail, the first failure stops the run and is returned, and
 * the writes before it have already happened. `Transaction` is the
 * DBTransactionManager contract (pkg/repository/transactionManager.go):
 * commit what the callback did when it returned no error, restore the
 * store otherwise.
 */
module UnitOfWork {

  import opened Optional
  import opened Errors

  /** Index of the first failing call, or |faults| when none fails. */
  function FirstFailure(faults: seq<Option<Error>>): (k: nat)
    ensures k <= |faults|
    ensures forall i | 0 <= i < k :: faults[i].None?
    ensures k < |faults| ==> faults[k].Some?
  {
    if |faults| == 0 then 0
    else if faults[0].Some? then 0
    else 1 + FirstFailure(faults[1..])
  }

  /** The store after applying every write of `ws` in order. */
  function ApplyAll<S, W>(s: S, ws: seq<W>, apply: (S, W) -> S): S
    decreases |ws|
  {
    if |ws| == 0 then s else ApplyAll(apply(s, ws[0]), ws[1..], apply)
  }

  /**
   * Runs the writes in order; `faults[i]` is what the repository reports
   * for the i-th call. Returns the store and the first error.
   */
  function RunWrites<S, W>(s: S, ws: seq<W>, faults: seq<Option<Error>>, apply: (S, W) -> S)
    : (r: (S, Option<Error>))
    requires |faults| == |ws|
    ensures r.1.None? <==> FirstFailure(faults) == |ws|
    ensures r.1.Some? ==> r.1 == faults[FirstFailure(faults)]
    decreases |ws|
  {
    if |ws| == 0 then (s, None)
    else if faults[0].Some? then (s, faults[0])
    else RunWrites(apply(s, ws[0]), ws[1..], faults[1..], apply)
  }

  /**
   * Without a transaction, a run leaves exactly the writes before the
   * first failure in place and reports that failure.
   */
  lemma {:induction false} RunWritesPrefix<S, W>(s: S, ws: seq<W>, faults: seq<Option<Error>>,
                                                 apply: (S, W) -> S)
    requires |faults| == |ws|
    ensures var k := FirstFailure(faults);
            RunWrites(s, ws, faults, apply)
            == (ApplyAll(s, ws[..k], apply), if k < |ws| then faults[k] else None)
    decreases |ws|
  {
    var k := FirstFailure(faults);
    if |ws| == 0 {
    } else if faults[0].Some? {
      assert k == 0;
    } else {
      RunWritesPrefix(apply(s, ws[0]), ws[1..], faults[1..], apply);
      assert k == 1 + FirstFailure(faults[1..]);
      assert ws[..k][1..] == ws[1..][..k - 1];
    }
  }

  /** The three-write plan every transfer uses, unfolded. */
  lemma RunThree<S, W>(s: S, a: W, b: W, c: W, fa: Option<Error>, fb: Option<Error>, fc: Option<Error>,
                       apply: (S, W) -> S)
    ensures RunWrites(s, [a, b, c], [fa, fb, fc], apply)
            == if fa.Some? then (s, fa)
               else if fb.Some? then (apply(s, a), fb)
               else if fc.Some? then (apply(apply(s, a), b), fc)
               else (apply(apply(apply(s, a), b), c), None)
  {
    assert [a, b, c][1..] == [b, c] && [fa, fb, fc][1..] == [fb, fc];
    assert [b, c][1..] == [c] && [fb, fc][1..] == [fc];
    assert [c][1..] == [] && [fc][1..] == [];
    var s1, s2 := apply(s, a), apply(apply(s, a), b);
    if fa.None? {
      assert RunWrites(s, [a, b, c], [fa, fb, fc], apply) == RunWrites(s1, [b, c], [fb, fc], apply);
      if fb.None? {
        assert RunWrites(s1, [b, c], [fb, fc], apply) == RunWrites(s2, [c], [fc], apply);
        if fc.None? {
          assert RunWrites(s2, [c], [fc], apply) == RunWrites(apply(s2, c), [], [], apply);
        }
      }
    }
  }

  /**
   * DBTransactionManager.Transaction: `work` is what the callback left and
   * returned; `commit` is a failure of the commit itself. Any error rolls the
   * store back to `before` and is returned; otherwise the callback's store
   * and value are committed.
   */
  function Transaction<S, T>(before: S, work: Outcome<S, T>, commit: Option<Error>): (r: Outcome<S, T>)
    ensures r.result.Ok? ==> r == work && commit.None?
    ensures r.result.Err? ==> r.store == before
    ensures work.result.Err? ==> r.result == work.result
    ensures work.result.Ok? && commit.None? ==> r == work
    ensures work.result.Ok? && commit.Some? ==> r == Outcome(before, Err(commit.value))
  {
    if work.result.Err? then Outcome(before, work.result)
    else if commit.Some? then Outcome(before, Err(commit.value))
    else work
  }

  /**
   * The writes run inside a transaction are all-or-nothing: the store ends
   * either untouched or with every write applied, and every write applied
   * exactly when no call failed.
   */
  lemma {:induction false} AtomicRun<S, W, T>(s: S, ws: seq<W>, faults: seq<Option<Error>>, apply: (S, W) -> S,
                                             value: T, commit: Option<Error>)
    requires |faults| == |ws|
    ensures var run := RunWrites(s, ws, faults, apply);
            var r := Transaction(s, Outcome(run.0, if run.1.Some? then Err(run.1.value) else Ok(value)), commit);
            && (r.result.Ok? <==> FirstFailure(faults) == |ws| && commit.None?)
            && r.store == (if r.result.Ok? then ApplyAll(s, ws, apply) else s)
  {
    RunWritesPrefix(s, ws, faults, apply);
    assert ws[..|ws|] == ws;
  }
}
