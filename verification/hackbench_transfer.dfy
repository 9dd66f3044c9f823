/**
 * hackbench's workers once the kernel is taken out of them: the loops in
 * `sender` and `receiver` that repeat `write`/`read` until a whole message
 * of `datasize` bytes has passed, and `reap_workers`, which counts the
 * children that did not end well. What a system call returns is an oracle:
 * the k-th call of a transfer, asked for n bytes, returns `io(k, n)`; what
 * `wait` and `pthread_join` report is a sequence of results.
 */
module HackbenchTransfer {

  import opened CInt

  /**
   * How one message transfer ends: every byte moved, a call returned a
   * negative value and the worker panics, or the calls observed ran out
   * before the message was complete (a call returning 0 makes the C loop
   * call again, so a stalled transfer never ends on its own).
   */
  datatype Outcome = Done(calls: nat) | Failed(calls: nat) | Unfinished(calls: nat)

  /** `(int)datasize`: the unsigned message size read as a two's-complement `int`. */
  function AsInt(datasize: nat): (r: int)
    requires datasize < U32
    ensures datasize <= INT_MAX ==> r == datasize
    ensures datasize > INT_MAX ==> r < 0
  {
    Int32(datasize)
  }

  /**
   * The value of `done` after the first k calls when each of them is added
   * in; call j asks for `datasize - done` bytes, computed in `unsigned int`.
   */
  function Sent(datasize: nat, io: (nat, nat) -> int, k: nat): int {
    if k == 0 then 0
    else
      var d := Sent(datasize, io, k - 1);
      d + io(k - 1, Wrap32(datasize - d))
  }

  /** The kernel never reports more bytes than it was asked for. */
  ghost predicate Honest(io: (nat, nat) -> int) {
    forall k, n :: io(k, n) <= n
  }

  /** Every call asked for at least one byte moves at least one byte. */
  ghost predicate Progresses(io: (nat, nat) -> int) {
    forall k, n :: 0 < n ==> 0 < io(k, n)
  }

  /**
   * `while (done < (int)datasize) { ret = write/read(fd, data + done,
   * datasize - done); if (ret < 0) panic(...); done += ret; }`, making at
   * most `budget` calls. A message larger than INT_MAX moves nothing, since
   * `(int)datasize` is negative; otherwise a transfer that completes has
   * moved exactly `datasize` bytes, and one that fails stops at the call
   * that returned a negative value.
   */
  method Transfer(datasize: nat, io: (nat, nat) -> int, budget: nat) returns (outcome: Outcome, done: int)
    requires datasize < U32
    requires Honest(io)
    ensures 0 <= done <= datasize
    ensures outcome.calls <= budget
    ensures outcome.Done? ==> done == (if datasize <= INT_MAX then datasize else 0)
    ensures outcome.Failed? ==> 0 < outcome.calls && done == Sent(datasize, io, outcome.calls - 1)
                                && io(outcome.calls - 1, Wrap32(datasize - done)) < 0
    ensures outcome.Done? || outcome.Unfinished? ==> done == Sent(datasize, io, outcome.calls)
    ensures outcome.Unfinished? ==> outcome.calls == budget && done < datasize
    ensures Progresses(io) && datasize <= budget ==> outcome.Done? && outcome.calls <= datasize
  {
    var limit := AsInt(datasize);
    done := 0;
    var calls := 0;
    while done < limit
      invariant calls <= budget
      invariant done == Sent(datasize, io, calls)
      invariant 0 <= done <= datasize
      invariant limit >= 0 ==> done <= limit
      invariant limit < 0 ==> done == 0
      invariant Progresses(io) ==> calls <= done
      decreases budget - calls
    {
      if calls == budget {
        return Unfinished(calls), done;
      }
      var ret := io(calls, Wrap32(datasize - done));
      assert Wrap32(datasize - done) == datasize - done;
      if ret < 0 {
        return Failed(calls + 1), done;
      }
      done := done + ret;
      calls := calls + 1;
    }
    outcome := Done(calls);
  }

  /** What one `wait` reports: no children are left (ECHILD), or a child with whether it exited normally. */
  datatype WaitResult = NoChildren | Reaped(exited: bool)

  /** The children `wait` reports as not having exited normally, up to the first ECHILD. */
  function Abnormal(waits: seq<WaitResult>): nat {
    if |waits| == 0 || waits[0].NoChildren? then 0
    else (if waits[0].exited then 0 else 1) + Abnormal(waits[1..])
  }

  /** The threads `pthread_join` failed on. */
  function FailedJoins(joins: seq<bool>): nat {
    if |joins| == 0 then 0
    else (if joins[0] then 0 else 1) + FailedJoins(joins[1..])
  }

  /**
   * `reap_workers(child, totchld, dokill)`: with `dokill` every child is sent
   * SIGTERM first, in table order; then, in process mode, `wait` is called
   * once per child until it reports ECHILD, counting the children that did
   * not exit normally, and in thread mode every thread is joined, counting
   * failed joins. The count never exceeds the number of children.
   */
  method ReapWorkers(totchld: nat, dokill: bool, processMode: bool, waits: seq<WaitResult>, joins: seq<bool>)
    returns (rc: nat, killed: seq<nat>)
    requires totchld < U32
    requires processMode ==> |waits| == totchld
    requires !processMode ==> |joins| == totchld
    ensures dokill ==> |killed| == totchld && forall i :: 0 <= i < totchld ==> killed[i] == i
    ensures !dokill ==> killed == []
    ensures processMode ==> rc == Abnormal(waits)
    ensures !processMode ==> rc == FailedJoins(joins)
    ensures rc <= totchld
  {
    killed := [];
    if dokill {
      var i := 0;
      while i < totchld
        invariant i <= totchld && |killed| == i
        invariant forall j :: 0 <= j < i ==> killed[j] == j
      {
        killed := killed + [i];
        i := i + 1;
      }
    }
    rc := 0;
    var i := 0;
    while i < totchld
      invariant i <= totchld
      invariant processMode ==> rc == Abnormal(waits[..i]) && forall j :: 0 <= j < i ==> waits[j].Reaped?
      invariant !processMode ==> rc == FailedJoins(joins[..i])
      invariant rc <= i
    {
      if processMode {
        if waits[i].NoChildren? {
          AbnormalStopsAt(waits, i);
          return;
        }
        AbnormalSnoc(waits[..i], waits[i]);
        assert waits[..i + 1] == waits[..i] + [waits[i]];
        if !waits[i].exited {
          rc := rc + 1;
        }
      } else {
        FailedJoinsSnoc(joins[..i], joins[i]);
        assert joins[..i + 1] == joins[..i] + [joins[i]];
        if !joins[i] {
          rc := rc + 1;
        }
      }
      i := i + 1;
    }
    if processMode {
      assert waits[..i] == waits;
    } else {
      assert joins[..i] == joins;
    }
  }

  /** Counting up to the first ECHILD, one more report that is not ECHILD adds its own verdict. */
  lemma {:induction false} AbnormalSnoc(waits: seq<WaitResult>, w: WaitResult)
    requires forall j :: 0 <= j < |waits| ==> waits[j].Reaped?
    requires w.Reaped?
    ensures Abnormal(waits + [w]) == Abnormal(waits) + (if w.exited then 0 else 1)
    decreases |waits|
  {
    if |waits| > 0 {
      assert (waits + [w])[1..] == waits[1..] + [w];
      AbnormalSnoc(waits[1..], w);
    } else {
      assert (waits + [w])[1..] == [];
    }
  }

  /** Nothing after the first ECHILD is counted. */
  lemma {:induction false} AbnormalStopsAt(waits: seq<WaitResult>, i: nat)
    requires i < |waits| && waits[i].NoChildren?
    requires forall j :: 0 <= j < i ==> waits[j].Reaped?
    ensures Abnormal(waits) == Abnormal(waits[..i])
    decreases i
  {
    if i > 0 {
      AbnormalStopsAt(waits[1..], i - 1);
      assert waits[..i][1..] == waits[1..][..i - 1];
    }
  }

  lemma {:induction false} FailedJoinsSnoc(joins: seq<bool>, b: bool)
    ensures FailedJoins(joins + [b]) == FailedJoins(joins) + (if b then 0 else 1)
    decreases |joins|
  {
    if |joins| > 0 {
      assert (joins + [b])[1..] == joins[1..] + [b];
      FailedJoinsSnoc(joins[1..], b);
    } else {
      assert (joins + [b])[1..] == [];
    }
  }

  /**
   * `reap_workers` returns 0 exactly when every child `wait` reported before
   * the first ECHILD exited normally, and, in thread mode, exactly when
   * every join succeeded.
   */
  lemma {:induction false} NoFailuresMeansAllWell(waits: seq<WaitResult>, joins: seq<bool>)
    ensures Abnormal(waits) == 0 <==>
            forall j :: 0 <= j < |waits| && (forall i :: 0 <= i < j ==> waits[i].Reaped?) && waits[j].Reaped? ==> waits[j].exited
    ensures FailedJoins(joins) == 0 <==> forall j :: 0 <= j < |joins| ==> joins[j]
    decreases |waits| + |joins|
  {
    if |waits| > 0 {
      NoFailuresMeansAllWell(waits[1..], []);
      forall j | 0 < j < |waits| ensures waits[1..][j - 1] == waits[j] { }
    }
    if |joins| > 0 {
      NoFailuresMeansAllWell([], joins[1..]);
      forall j | 0 < j < |joins| ensures joins[1..][j - 1] == joins[j] { }
    }
  }
}
