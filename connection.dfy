/** The consumption loop (infrautil/connection.go, RunMessageLoop): read,
    count consecutive read failures, reset the count on every success, mark
    the loop ready on the first success, hand each message to the handler,
    and exit the process once the count reaches `maxFails`.

    The reads are an oracle: a finite sequence of read results. The loop is
    described by a step function and its fold `Run`; `Exited` is the
    terminal state that stands for `os.Exit(1)`. The handler calls are
    recorded, in order, as the `handled` sequence. */
module Connection {
  import opened Base

  datatype ReadResult<M> = Read(msg: M) | ReadFailed(err: Error)

  datatype LoopState<M> = LoopState(failCount: nat, ready: bool, handled: seq<M>)

  /** `Running` when the read results ran out with the loop still alive; `Exited(st, at)`
      when the read at index `at` brought the count to `maxFails`. */
  datatype LoopOutcome<M> = Running(state: LoopState<M>) | Exited(state: LoopState<M>, at: nat)

  function Initial<M>(): LoopState<M> {
    LoopState(0, false, [])
  }

  /** One iteration of the loop. */
  function Step<M>(maxFails: int, s: LoopState<M>, r: ReadResult<M>): (o: LoopOutcome<M>)
    ensures r.ReadFailed? ==> o.state == s.(failCount := s.failCount + 1)
    ensures r.ReadFailed? ==> (o.Exited? <==> s.failCount + 1 >= maxFails)
    ensures r.Read? ==> o == Running(LoopState(0, true, s.handled + [r.msg]))
    ensures s.ready ==> o.state.ready
    ensures o.Exited? ==> o.at == 0
  {
    match r
    case ReadFailed(_) =>
      var failed := s.(failCount := s.failCount + 1);
      if failed.failCount >= maxFails then Exited(failed, 0) else Running(failed)
    case Read(m) =>
      Running(LoopState(0, true, s.handled + [m]))
  }

  function Shift<M>(o: LoopOutcome<M>, k: nat): LoopOutcome<M> {
    match o
    case Running(_) => o
    case Exited(st, at) => Exited(st, at + k)
  }

  /** The loop from state `s` over `results`, stopping at the fatal read. */
  function Run<M>(maxFails: int, s: LoopState<M>, results: seq<ReadResult<M>>): LoopOutcome<M>
    decreases |results|
  {
    if results == [] then Running(s)
    else
      match Step(maxFails, s, results[0])
      case Exited(st, _) => Exited(st, 0)
      case Running(st) => Shift(Run(maxFails, st, results[1..]), 1)
  }

  /** The loop as written, over a finite sequence of read results. */
  method RunMessageLoop<M>(maxFails: int, results: seq<ReadResult<M>>) returns (o: LoopOutcome<M>)
    ensures o == Run(maxFails, Initial(), results)
    ensures o.Exited? ==> o.at < |results| && o.state.failCount >= maxFails
  {
    var failCount: nat := 0;
    var ready := false;
    var handled: seq<M> := [];
    var i := 0;
    while i < |results|
      invariant 0 <= i <= |results|
      invariant Run(maxFails, Initial(), results)
                == Shift(Run(maxFails, LoopState(failCount, ready, handled), results[i..]), i)
      decreases |results| - i
    {
      assert results[i..][0] == results[i] && results[i..][1..] == results[i + 1..];
      if results[i].ReadFailed? {
        failCount := failCount + 1;
        if failCount >= maxFails {
          return Exited(LoopState(failCount, ready, handled), i);
        }
      } else {
        if !ready {
          ready := true;
        }
        failCount := 0;
        handled := handled + [results[i].msg];
      }
      ShiftShift(Run(maxFails, LoopState(failCount, ready, handled), results[i + 1..]), 1, i);
      i := i + 1;
    }
    return Running(LoopState(failCount, ready, handled));
  }

  lemma ShiftShift<M>(o: LoopOutcome<M>, j: nat, k: nat)
    ensures Shift(Shift(o, j), k) == Shift(o, j + k)
  {
  }

  // ---------------------------------------------------------------------------
  // Reference definitions

  /** The messages of the successful reads, in read order. */
  function Messages<M>(results: seq<ReadResult<M>>): seq<M>
    decreases |results|
  {
    if results == [] then []
    else if results[0].Read? then [results[0].msg] + Messages(results[1..])
    else Messages(results[1..])
  }

  /** The number of failures at the start of `results`. */
  function LeadingFailures<M>(results: seq<ReadResult<M>>): nat
    decreases |results|
  {
    if results != [] && results[0].ReadFailed? then 1 + LeadingFailures(results[1..]) else 0
  }

  /** Whether `results` holds `n` failures in a row somewhere. */
  predicate HasFailureRun<M>(n: nat, results: seq<ReadResult<M>>)
    decreases |results|
  {
    LeadingFailures(results) >= n || (results != [] && HasFailureRun(n, results[1..]))
  }

  function Failures<M>(n: nat, e: Error): (r: seq<ReadResult<M>>)
    ensures |r| == n && forall i :: 0 <= i < n ==> r[i] == ReadFailed(e)
  {
    seq(n, _ => ReadFailed(e))
  }

  // ---------------------------------------------------------------------------
  // Properties of the loop

  /** Every successful read's message is among the messages. */
  lemma {:induction false} ReadMessageInMessages<M>(results: seq<ReadResult<M>>, i: nat)
    requires i < |results| && results[i].Read?
    ensures results[i].msg in Messages(results)
    decreases |results|
  {
    if i > 0 {
      ReadMessageInMessages(results[1..], i - 1);
    }
  }

  /** Invariant of the loop head: from a state with `failCount < maxFails` the
      count stays below `maxFails` while the loop runs, and the exit happens
      exactly when it reaches `maxFails`. */
  lemma {:induction false} FailCountBelowMax<M>(maxFails: int, s: LoopState<M>, results: seq<ReadResult<M>>)
    requires s.failCount < maxFails
    ensures var o := Run(maxFails, s, results);
            (o.Running? ==> o.state.failCount < maxFails)
            && (o.Exited? ==> o.state.failCount == maxFails && o.at < |results| && results[o.at].ReadFailed?)
    decreases |results|
  {
    if results != [] {
      var o1 := Step(maxFails, s, results[0]);
      if o1.Running? {
        FailCountBelowMax(maxFails, o1.state, results[1..]);
      }
    }
  }

  /** The handler gets exactly the messages of the successful reads it consumed,
      once each and in read order; a failure calls nothing. */
  lemma {:induction false} HandledAreMessages<M>(maxFails: int, s: LoopState<M>, results: seq<ReadResult<M>>)
    ensures var o := Run(maxFails, s, results);
            (o.Running? ==> o.state.handled == s.handled + Messages(results))
            && (o.Exited? ==> o.at < |results| && o.state.handled == s.handled + Messages(results[..o.at]))
    decreases |results|
  {
    if results != [] {
      var o1 := Step(maxFails, s, results[0]);
      if o1.Running? {
        HandledAreMessages(maxFails, o1.state, results[1..]);
        var o := Run(maxFails, o1.state, results[1..]);
        if o.Exited? {
          assert results[..o.at + 1][0] == results[0];
          assert results[..o.at + 1][1..] == results[1..][..o.at];
        }
      } else {
        assert results[..0] == [];
      }
    }
  }

  /** `ready` never turns false again, and it is true at the end exactly when it
      was true at the start or some consumed read succeeded. */
  lemma {:induction false} ReadyOnFirstSuccess<M>(maxFails: int, s: LoopState<M>, results: seq<ReadResult<M>>)
    ensures var o := Run(maxFails, s, results);
            o.Running? ==> (o.state.ready <==> s.ready || Messages(results) != [])
    ensures var o := Run(maxFails, s, results);
            o.Exited? ==> o.at < |results| && (o.state.ready <==> s.ready || Messages(results[..o.at]) != [])
    decreases |results|
  {
    if results != [] {
      var o1 := Step(maxFails, s, results[0]);
      if o1.Running? {
        ReadyOnFirstSuccess(maxFails, o1.state, results[1..]);
        var o := Run(maxFails, o1.state, results[1..]);
        if o.Exited? {
          assert results[..o.at + 1][0] == results[0];
          assert results[..o.at + 1][1..] == results[1..][..o.at];
        }
      } else {
        assert results[..0] == [];
      }
    }
  }

  lemma {:induction false} LeadingFailuresRun<M>(n: nat, results: seq<ReadResult<M>>)
    requires LeadingFailures(results) >= n
    ensures HasFailureRun(n, results)
  {
  }

  /** The generalised form of ExitIffFailureRun: from a count `c` below `maxFails`. */
  lemma {:induction false} ExitIffFailureRunFrom<M>(maxFails: int, s: LoopState<M>, results: seq<ReadResult<M>>)
    requires 0 < maxFails && s.failCount < maxFails
    ensures Run(maxFails, s, results).Exited?
            <==> s.failCount + LeadingFailures(results) >= maxFails || HasFailureRun(maxFails, results)
    decreases |results|
  {
    if results != [] {
      var o1 := Step(maxFails, s, results[0]);
      var rest := results[1..];
      if o1.Running? {
        ExitIffFailureRunFrom(maxFails, o1.state, rest);
        if results[0].Read? && LeadingFailures(rest) >= maxFails {
          LeadingFailuresRun(maxFails, rest);
        }
      }
    }
  }

  /** The loop exits exactly when `maxFails` results fail in a row: failures do
      not accumulate across a success. */
  lemma ExitIffFailureRun<M>(maxFails: int, results: seq<ReadResult<M>>)
    requires 0 < maxFails
    ensures Run(maxFails, Initial(), results).Exited? <==> HasFailureRun(maxFails, results)
  {
    ExitIffFailureRunFrom(maxFails, Initial(), results);
    if LeadingFailures(results) >= maxFails {
      LeadingFailuresRun(maxFails, results);
    }
  }

  /** Fewer failures than the remaining budget, then a success: the loop goes
      on, the count is back to 0, the loop is ready and the message was handled. */
  lemma {:induction false} RecoversBelowMax<M>(maxFails: int, s: LoopState<M>, k: nat, e: Error, m: M)
    requires s.failCount + k < maxFails
    ensures Run(maxFails, s, Failures(k, e) + [Read(m)]) == Running(LoopState(0, true, s.handled + [m]))
    decreases k
  {
    var results := Failures<M>(k, e) + [Read(m)];
    if k > 0 {
      assert results[1..] == Failures<M>(k - 1, e) + [Read(m)];
      RecoversBelowMax(maxFails, s.(failCount := s.failCount + 1), k - 1, e, m);
    }
  }

  /** `maxFails` failures in a row from a fresh count: the fatal path is taken
      once, at the last of them, and no later read is consumed. */
  lemma {:induction false} ExitsAtMax<M>(maxFails: nat, s: LoopState<M>, e: Error, rest: seq<ReadResult<M>>)
    requires 0 < maxFails && s.failCount == 0
    ensures Run(maxFails, s, Failures(maxFails, e) + rest)
            == Exited(s.(failCount := maxFails), maxFails - 1)
  {
    ExitsAfter(maxFails, s, maxFails, e, rest);
  }

  lemma {:induction false} ExitsAfter<M>(maxFails: nat, s: LoopState<M>, k: nat, e: Error, rest: seq<ReadResult<M>>)
    requires 0 < k && s.failCount + k == maxFails
    ensures Run(maxFails, s, Failures(k, e) + rest) == Exited(s.(failCount := maxFails), k - 1)
    decreases k
  {
    var results := Failures<M>(k, e) + rest;
    assert results[0] == ReadFailed(e);
    if k > 1 {
      assert results[1..] == Failures<M>(k - 1, e) + rest;
      ExitsAfter(maxFails, s.(failCount := s.failCount + 1), k - 1, e, rest);
    }
  }
}
