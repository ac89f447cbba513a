/**
 * What the Rust components of flowd-rs (flowd-rs/src/components/) share: the
 * bounded single-producer single-consumer ring buffers that connect them,
 * the signal dispatcher at the top of their run loops, and the sequential
 * schedule under which their run loops are modelled.
 *
 * A run loop iteration checks for one signal, drains the inport, checks
 * whether the upstream side has gone away, and then blocks until woken. The
 * other threads act while it is blocked; a `Round` records what they did
 * before the next iteration: the signal that arrived (if any), the IPs the
 * upstream component pushed, how many IPs the downstream component took from
 * the outport, and whether the upstream side had been dropped by then.
 *
 * The drain and the check for a dropped upstream side are two steps, and the
 * upstream component can push more IPs between them and then go away. Those
 * IPs are a round's `lost` IPs: the loop sees the upstream side gone, ends,
 * and leaves them in the inport. In a round where the upstream side stays,
 * IPs pushed after the drain are simply the next round's `arrived` IPs, so
 * `lost` matters only in a round that reports the upstream side dropped.
 */
module Components {
  import opened Wrappers
  import opened Text

  /**
   * An `rtrb` ring buffer: at most `capacity` items in order. `popped` is what
   * its consumer side has taken so far, so `popped + items` is everything
   * its producer side has managed to push.
   */
  class RingBuffer {
    const capacity: nat
    var items: seq<string>
    var popped: seq<string>

    predicate Valid()
      reads this
    {
      0 < capacity && |items| <= capacity
    }

    /** Everything ever pushed, oldest first. */
    function Stream(): seq<string>
      reads this
    {
      popped + items
    }

    constructor(capacity: nat)
      requires 0 < capacity
      ensures Valid() && this.capacity == capacity && items == [] && popped == []
    {
      this.capacity := capacity;
      items := [];
      popped := [];
    }

    predicate IsFull()
      reads this
    {
      |items| >= capacity
    }

    /** `Producer::push`: appends unless the buffer is full, and says which. */
    method Push(x: string) returns (ok: bool)
      requires Valid()
      modifies this
      ensures Valid()
      ensures ok <==> old(|items|) < capacity
      ensures items == if ok then old(items) + [x] else old(items)
      ensures popped == old(popped)
      ensures Stream() == if ok then old(Stream()) + [x] else old(Stream())
    {
      if |items| < capacity {
        items := items + [x];
        ok := true;
      } else {
        ok := false;
      }
    }

    /** `Consumer::pop`: the oldest item, or None when the buffer is empty. */
    method Pop() returns (r: Option<string>)
      requires Valid()
      modifies this
      ensures Valid()
      ensures r.None? <==> old(items) == []
      ensures r.Some? ==> r.value == old(items)[0] && items == old(items)[1..] && popped == old(popped) + [r.value]
      ensures r.None? ==> items == old(items) && popped == old(popped)
      ensures Stream() == old(Stream())
    {
      if items == [] {
        r := None;
      } else {
        r := Some(items[0]);
        popped := popped + [items[0]];
        items := items[1..];
      }
    }

    /** The upstream component pushes `xs`, all of which fit. */
    method PushAll(xs: seq<string>)
      requires Valid() && |items| + |xs| <= capacity
      modifies this
      ensures Valid() && items == old(items) + xs && popped == old(popped)
    {
      items := items + xs;
    }

    /** The downstream component takes up to `n` items. */
    method Take(n: nat)
      requires Valid()
      modifies this
      ensures Valid() && Stream() == old(Stream())
      ensures |items| == if n <= old(|items|) then old(|items|) - n else 0
    {
      var k := 0;
      while k < n && items != []
        invariant Valid() && Stream() == old(Stream())
        invariant k <= n && |items| == old(|items|) - k
        decreases n - k
      {
        var _ := Pop();
        k := k + 1;
      }
    }
  }

  /** What the other threads did while a component was blocked, and after its drain. */
  datatype Round = Round(signal: Option<string>, arrived: seq<string>, taken: nat, abandoned: bool, lost: seq<string>)

  datatype SignalAction = Stop | Pong | Ignore

  const StopSignal: string := "stop"
  const PingSignal: string := "ping"
  const PongReply: string := "pong"

  /** The signal check: `stop` ends the run, `ping` is answered, anything else is only logged. */
  function Dispatch(signal: Option<string>): (a: SignalAction)
    ensures a == Stop <==> signal == Some(StopSignal)
    ensures a == Pong <==> signal == Some(PingSignal)
  {
    match signal
    case None => Ignore
    case Some(ip) => if ip == StopSignal then Stop else if ip == PingSignal then Pong else Ignore
  }

  /** Why a run loop stopped: a stop signal, an abandoned inport, a panic, or it is still blocked. */
  datatype Exit = Stopped | Abandoned | Panicked | Waiting

  /** How a run went: why it ended, the IPs taken from the inport, the replies sent. */
  datatype Outcome = Outcome(exit: Exit, taken: seq<string>, replies: seq<string>)

  /** The run accumulated so far, followed by the rest of the run. */
  function Then(taken: seq<string>, replies: seq<string>, rest: Outcome): Outcome
  {
    Outcome(rest.exit, taken + rest.taken, replies + rest.replies)
  }

  /** The IPs that arrived in rounds `j` up to `k`, in order. */
  function Arrivals(rounds: seq<Round>, j: nat, k: nat): seq<string>
    requires j <= k <= |rounds|
    decreases k - j
  {
    if k == j then [] else Arrivals(rounds, j, k - 1) + rounds[k - 1].arrived
  }

  /** The replies sent in rounds `j` up to `k`, in order. */
  function Replies(rounds: seq<Round>, j: nat, k: nat): seq<string>
    requires j <= k <= |rounds|
    decreases k - j
  {
    if k == j then [] else Replies(rounds, j, k - 1) + ReplyOf(rounds[k - 1])
  }

  /** How many of rounds `j` up to `k` brought a ping. */
  function Pings(rounds: seq<Round>, j: nat, k: nat): nat
    requires j <= k <= |rounds|
    decreases k - j
  {
    if k == j then 0 else Pings(rounds, j, k - 1) + (if Dispatch(rounds[k - 1].signal) == Pong then 1 else 0)
  }

  /** One `pong` for every ping in those rounds, and nothing else. */
  lemma {:induction false} RepliesArePongs(rounds: seq<Round>, j: nat, k: nat)
    requires j <= k <= |rounds|
    ensures |Replies(rounds, j, k)| == Pings(rounds, j, k)
    ensures forall i :: 0 <= i < |Replies(rounds, j, k)| ==> Replies(rounds, j, k)[i] == PongReply
    decreases k - j
  {
    if k > j {
      RepliesArePongs(rounds, j, k - 1);
    }
  }

  lemma {:induction false} ArrivalsFront(rounds: seq<Round>, j: nat, k: nat)
    requires j < k <= |rounds|
    ensures Arrivals(rounds, j, k) == rounds[j].arrived + Arrivals(rounds, j + 1, k)
    ensures Replies(rounds, j, k) == ReplyOf(rounds[j]) + Replies(rounds, j + 1, k)
    decreases k - j
  {
    if k > j + 1 {
      ArrivalsFront(rounds, j, k - 1);
      AppendAssoc(rounds[j].arrived, Arrivals(rounds, j + 1, k - 1), rounds[k - 1].arrived);
      AppendAssoc(ReplyOf(rounds[j]), Replies(rounds, j + 1, k - 1), ReplyOf(rounds[k - 1]));
    } else {
      AppendEmpty(rounds[j].arrived);
      AppendEmpty(ReplyOf(rounds[j]));
    }
  }

  /** The reply a round sends: `pong` when its signal was a ping. */
  function ReplyOf(r: Round): seq<string>
  {
    if Dispatch(r.signal) == Pong then [PongReply] else []
  }

  /**
   * The IPs a run loop takes from its inport from round `i` on, when it
   * handles every IP without panicking and `pending` IPs are queued: each
   * round it stops on a stop signal before draining; otherwise it drains
   * everything queued, answers a ping, and ends when the upstream side has
   * been dropped.
   */
  function Drive(rounds: seq<Round>, i: nat, pending: seq<string>): (o: Outcome)
    requires i <= |rounds|
    ensures o.exit != Panicked
    decreases |rounds| - i
  {
    if i == |rounds| then Outcome(Waiting, [], [])
    else
      var r := rounds[i];
      if Dispatch(r.signal) == Stop then Outcome(Stopped, [], [])
      else
        var queue := pending + r.arrived;
        if r.abandoned then Outcome(Abandoned, queue, ReplyOf(r))
        else Then(queue, ReplyOf(r), Drive(rounds, i + 1, []))
  }

  /**
   * How round `i` continues a run that has taken `taken` and replied
   * `replies` so far, read by whether a stop signal came (`stop`).
   */
  lemma DriveRound(rounds: seq<Round>, i: nat, pending: seq<string>, taken: seq<string>, replies: seq<string>,
                   whole: Outcome, queue: seq<string>, stop: bool)
    requires i < |rounds| && whole == Then(taken, replies, Drive(rounds, i, pending))
    requires queue == pending + rounds[i].arrived
    requires stop <==> Dispatch(rounds[i].signal) == Stop
    ensures stop ==> whole == Outcome(Stopped, taken, replies)
    ensures !stop && rounds[i].abandoned ==> whole == Outcome(Abandoned, taken + queue, replies + ReplyOf(rounds[i]))
    ensures !stop && !rounds[i].abandoned ==>
              whole == Then(taken + queue, replies + ReplyOf(rounds[i]), Drive(rounds, i + 1, []))
  {
    if stop {
      ThenLast(taken, replies, [], [], Stopped);
      AppendEmpty(taken);
      AppendEmpty(replies);
    } else if rounds[i].abandoned {
      ThenLast(taken, replies, queue, ReplyOf(rounds[i]), Abandoned);
    } else {
      ThenThen(taken, replies, queue, ReplyOf(rounds[i]), Drive(rounds, i + 1, []));
    }
  }

  lemma ThenThen(a: seq<string>, n: seq<string>, b: seq<string>, m: seq<string>, rest: Outcome)
    ensures Then(a, n, Then(b, m, rest)) == Then(a + b, n + m, rest)
  {
    AppendAssoc(a, b, rest.taken);
    AppendAssoc(n, m, rest.replies);
  }

  lemma ThenLast(a: seq<string>, n: seq<string>, b: seq<string>, m: seq<string>, exit: Exit)
    ensures Then(a, n, Outcome(exit, b, m)) == Outcome(exit, a + b, n + m)
  {
  }

  /** No round from `j` up to `k` stopped the loop or reported the upstream side gone. */
  predicate RunsThrough(rounds: seq<Round>, j: nat, k: nat)
  {
    j <= k < |rounds| && forall i :: j <= i < k ==> Dispatch(rounds[i].signal) != Stop && !rounds[i].abandoned
  }

  /**
   * A run that reaches round `k` and sees the upstream side dropped there
   * ends having taken every IP that arrived up to and including that round,
   * and answered every ping up to then.
   */
  lemma {:induction false} DrainedBeforeAbandon(rounds: seq<Round>, j: nat, pending: seq<string>, k: nat)
    requires RunsThrough(rounds, j, k) && rounds[k].abandoned && Dispatch(rounds[k].signal) != Stop
    ensures Drive(rounds, j, pending) == Outcome(Abandoned, pending + Arrivals(rounds, j, k + 1), Replies(rounds, j, k + 1))
    decreases k - j
  {
    var r := rounds[j];
    if j == k {
      ArrivalsFront(rounds, j, k + 1);
      AppendEmpty(r.arrived);
      AppendEmpty(ReplyOf(r));
    } else {
      DrainedBeforeAbandon(rounds, j + 1, [], k);
      DrainedStep(rounds, j, pending, k);
    }
  }

  /** The step of `DrainedBeforeAbandon`: one more round that runs through, in front. */
  lemma DrainedStep(rounds: seq<Round>, j: nat, pending: seq<string>, k: nat)
    requires j < k < |rounds| && Dispatch(rounds[j].signal) != Stop && !rounds[j].abandoned
    requires Drive(rounds, j + 1, []) == Outcome(Abandoned, [] + Arrivals(rounds, j + 1, k + 1), Replies(rounds, j + 1, k + 1))
    ensures Drive(rounds, j, pending) == Outcome(Abandoned, pending + Arrivals(rounds, j, k + 1), Replies(rounds, j, k + 1))
  {
    var r := rounds[j];
    var later, replies := Arrivals(rounds, j + 1, k + 1), Replies(rounds, j + 1, k + 1);
    assert Drive(rounds, j, pending) == Outcome(Abandoned, (pending + r.arrived) + later, ReplyOf(r) + replies) by {
      AppendEmpty(later);
      ThenLast(pending + r.arrived, ReplyOf(r), later, replies, Abandoned);
    }
    assert (pending + r.arrived) + later == pending + Arrivals(rounds, j, k + 1)
        && ReplyOf(r) + replies == Replies(rounds, j, k + 1) by {
      AppendAssoc(pending, r.arrived, later);
      ArrivalsFront(rounds, j, k + 1);
    }
  }

  /**
   * A run that reaches round `k` and finds a stop signal there ends without
   * draining that round's IPs: it has taken exactly the IPs of the rounds
   * before it.
   */
  lemma {:induction false} StopEndsRun(rounds: seq<Round>, j: nat, pending: seq<string>, k: nat)
    requires RunsThrough(rounds, j, k) && Dispatch(rounds[k].signal) == Stop
    ensures Drive(rounds, j, pending)
            == Outcome(Stopped, if k == j then [] else pending + Arrivals(rounds, j, k), Replies(rounds, j, k))
    decreases k - j
  {
    if j < k {
      StopEndsRun(rounds, j + 1, [], k);
      assert Drive(rounds, j + 1, []) == Outcome(Stopped, Arrivals(rounds, j + 1, k), Replies(rounds, j + 1, k)) by {
        AppendEmpty(Arrivals(rounds, j + 1, k));
      }
      StopStep(rounds, j, pending, k);
    }
  }

  /** One round of a run that goes on to a stop signal. */
  lemma StopStep(rounds: seq<Round>, j: nat, pending: seq<string>, k: nat)
    requires j < k && RunsThrough(rounds, j, k)
    requires Drive(rounds, j + 1, []) == Outcome(Stopped, Arrivals(rounds, j + 1, k), Replies(rounds, j + 1, k))
    ensures Drive(rounds, j, pending) == Outcome(Stopped, pending + Arrivals(rounds, j, k), Replies(rounds, j, k))
  {
    var r := rounds[j];
    assert Dispatch(r.signal) != Stop && !r.abandoned;
    ArrivalsFront(rounds, j, k);
    var later, replies := Arrivals(rounds, j + 1, k), Replies(rounds, j + 1, k);
    ThenLast(pending + r.arrived, ReplyOf(r), later, replies, Stopped);
    AppendAssoc(pending, r.arrived, later);
  }


  /** A signal other than stop and ping changes nothing. */
  lemma UnknownSignalIgnored(rounds: seq<Round>, i: nat, pending: seq<string>, ip: string)
    requires i < |rounds| && ip != StopSignal && ip != PingSignal
    ensures Drive(rounds[i := rounds[i].(signal := Some(ip))], i, pending)
            == Drive(rounds[i := rounds[i].(signal := None)], i, pending)
  {
    var a := rounds[i := rounds[i].(signal := Some(ip))];
    var b := rounds[i := rounds[i].(signal := None)];
    LaterRoundsAlike(a, b, i + 1);
  }

  /** Runs over rounds that agree from `j` on agree from `j` on. */
  lemma {:induction false} LaterRoundsAlike(a: seq<Round>, b: seq<Round>, j: nat)
    requires j <= |a| == |b| && forall i :: j <= i < |a| ==> a[i] == b[i]
    ensures Drive(a, j, []) == Drive(b, j, [])
    decreases |a| - j
  {
    if j < |a| {
      LaterRoundsAlike(a, b, j + 1);
    }
  }
}
