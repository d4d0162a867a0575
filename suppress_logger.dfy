/** The duplicate-log suppressor (infrautil/logger.go, SuppressLogger): a
    message is dropped when it repeats the last logged message within the
    interval; otherwise it is logged and becomes the new last message.
    Time is an integer number of nanoseconds passed in by the caller. The
    zero state has the empty message and no time: Go's zero time.Time lies
    so far back that the elapsed time saturates at the largest duration,
    which no interval exceeds, so the first call always logs. */
module Suppress {
  import opened Base

  /** The last logged message and when it was logged; `None` before the first. */
  datatype LogState = LogState(lastMsg: string, lastAt: Option<int>)

  /** One ShouldLog decision: whether to log, and the state afterwards. */
  function Decide(s: LogState, msg: string, interval: int, now: int): (r: (bool, LogState))
    ensures !r.0 <==> msg == s.lastMsg && s.lastAt.Some? && now - s.lastAt.value < interval
    ensures r.0 ==> r.1 == LogState(msg, Some(now))
    ensures !r.0 ==> r.1 == s
  {
    if msg == s.lastMsg && s.lastAt.Some? && now - s.lastAt.value < interval then (false, s)
    else (true, LogState(msg, Some(now)))
  }

  class SuppressLogger {
    var lastMsg: string
    var lastAt: Option<int>

    constructor ()
      ensures lastMsg == "" && lastAt == None
    {
      lastMsg := "";
      lastAt := None;
    }

    function State(): LogState
      reads this
    {
      LogState(lastMsg, lastAt)
    }

    method ShouldLog(msg: string, interval: int, now: int) returns (ok: bool)
      modifies this
      ensures (ok, State()) == Decide(old(State()), msg, interval, now)
      ensures ok ==> lastMsg == msg && lastAt == Some(now)
      ensures !ok ==> lastMsg == old(lastMsg) && lastAt == old(lastAt)
    {
      if msg == lastMsg && lastAt.Some? && now - lastAt.value < interval {
        return false;
      }
      lastMsg := msg;
      lastAt := Some(now);
      return true;
    }
  }

  /** ShouldLog over a sequence of calls with the same message and interval at the given instants. */
  function Replay(s: LogState, msg: string, interval: int, times: seq<int>): (r: (seq<bool>, LogState))
    ensures |r.0| == |times|
    decreases |times|
  {
    if times == [] then ([], s)
    else
      var (ok, s') := Decide(s, msg, interval, times[0]);
      var (rest, last) := Replay(s', msg, interval, times[1..]);
      ([ok] + rest, last)
  }

  /** A message other than the last one is always logged. */
  lemma NewMessageLogged(s: LogState, msg: string, interval: int, now: int)
    requires msg != s.lastMsg
    ensures Decide(s, msg, interval, now) == (true, LogState(msg, Some(now)))
  {
  }

  /** From the zero state, the first message is logged, whatever it is. */
  lemma FirstMessageLogged(msg: string, interval: int, now: int)
    ensures Decide(LogState("", None), msg, interval, now) == (true, LogState(msg, Some(now)))
  {
  }

  /** Once a message is logged at `t`, repeats of it at any instants before
      `t + interval` are all dropped and the state stays as it was. */
  lemma {:induction false} RepeatsWithinIntervalDropped(msg: string, t: int, interval: int, times: seq<int>)
    requires forall i :: 0 <= i < |times| ==> times[i] < t + interval
    ensures var r := Replay(LogState(msg, Some(t)), msg, interval, times);
            r.1 == LogState(msg, Some(t)) && forall i :: 0 <= i < |times| ==> !r.0[i]
    decreases |times|
  {
    if times != [] {
      RepeatsWithinIntervalDropped(msg, t, interval, times[1..]);
    }
  }

  /** Logging a message and repeating it at the same instant with a positive
      interval: whatever the first call decides, the second is dropped. */
  lemma ImmediateRepeatDropped(s: LogState, msg: string, interval: int, now: int)
    requires interval > 0
    ensures Replay(s, msg, interval, [now, now]).0[1] == false
  {
    var s1 := Decide(s, msg, interval, now).1;
    assert s1.lastMsg == msg && s1.lastAt.Some? && now - s1.lastAt.value < interval;
    assert [now, now][1..] == [now];
  }
}
