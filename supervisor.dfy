/**
 * The supervisor loop at the end of flowd's `main` (flowd/flowd.go), as a
 * sequential state machine. Each launched process gets a `ComponentInstance`
 * with two drain channels, closed once its stdout and its stderr have been
 * read to the end; when the process exits, `startInstance` sends its name on
 * the unbuffered `exitChan`. `main` receives one name at a time, waits for
 * both of that process's drain channels, clears its instance and counts it
 * down, until the count reaches zero.
 *
 * The goroutines are replaced by a trace of events, delivered one by one;
 * after each event `main` runs as far as it can without blocking. Senders
 * blocked on `exitChan` are served in the order they arrived.
 */
module Supervisor {
  import opened Wrappers
  import opened Text

  /** `ComponentInstance`: whether each of its two drain channels has been closed. */
  datatype Instance = Instance(allOutputtedStdout: bool, allOutputtedStderr: bool)

  /** What the other goroutines do. */
  datatype Event =
    | Exited(proc: Bytes)         // `startInstance` sends the name on `exitChan`
    | StdoutDrained(proc: Bytes)  // `close(AllOutputtedSTDOUT)`
    | StderrDrained(proc: Bytes)  // `close(AllOutputtedSTDERR)`

  /**
   * The supervisor's state: the `Instance` field of every process, the
   * count of running instances, the names waiting to be received on
   * `exitChan`, the name `main` has received and whose drains it awaits,
   * and the names it has finished with.
   */
  datatype State = State(
    instances: map<Bytes, Option<Instance>>,
    instanceCount: int,
    exitChan: seq<Bytes>,
    receiving: Option<Bytes>,
    removed: seq<Bytes>)

  /**
   * A trace the launched processes can produce: only their names, and no
   * event twice. Then no name is sent on `exitChan` twice, so there are at
   * most as many exit notifications as processes.
   */
  predicate ValidTrace(names: set<Bytes>, trace: seq<Event>): (b: bool)
    ensures b ==> |ExitOrder(trace)| <= |names| && Distinct(ExitOrder(trace))
  {
    if && (forall i :: 0 <= i < |trace| ==> trace[i].proc in names)
       && (forall i, j :: 0 <= i < j < |trace| ==> trace[i] != trace[j])
    then
      ExitOrderBound(names, trace);
      true
    else false
  }

  lemma ExitOrderBound(names: set<Bytes>, trace: seq<Event>)
    requires forall i :: 0 <= i < |trace| ==> trace[i].proc in names
    requires forall i, j :: 0 <= i < j < |trace| ==> trace[i] != trace[j]
    ensures |ExitOrder(trace)| <= |names| && Distinct(ExitOrder(trace))
  {
    var order := ExitOrder(trace);
    ExitOrderDistinct(trace);
    DistinctCard(order);
    forall n | n in order ensures n in names {
      SentNameInNames(names, trace, n);
    }
    SubsetCard((set x | x in order), names);
  }

  lemma SentNameInNames(names: set<Bytes>, trace: seq<Event>, n: Bytes)
    requires forall i :: 0 <= i < |trace| ==> trace[i].proc in names
    requires n in ExitOrder(trace)
    ensures n in names
  {
    ExitOrderMembers(trace, n);
    var i :| 0 <= i < |trace| && trace[i] == Exited(n);
  }

  lemma SubsetCard<T>(a: set<T>, b: set<T>)
    requires a <= b
    ensures |a| <= |b|
  {
    assert b == a + (b - a);
  }

  /** Every process has exited and had both outputs drained. */
  predicate Complete(names: set<Bytes>, trace: seq<Event>)
  {
    forall n :: n in names ==> Finished(n, trace)
  }

  predicate Finished(n: Bytes, trace: seq<Event>)
  {
    Exited(n) in trace && StdoutDrained(n) in trace && StderrDrained(n) in trace
  }

  predicate Distinct<T(==)>(s: seq<T>)
  {
    forall i, j :: 0 <= i < j < |s| ==> s[i] != s[j]
  }

  /** The names in the order their exit notifications were sent. */
  function ExitOrder(trace: seq<Event>): seq<Bytes>
  {
    if trace == [] then []
    else
      var e := trace[|trace| - 1];
      ExitOrder(trace[..|trace| - 1]) + (if e.Exited? then [e.proc] else [])
  }

  lemma {:induction false} ExitOrderMembers(trace: seq<Event>, n: Bytes)
    ensures n in ExitOrder(trace) <==> Exited(n) in trace
  {
    if trace != [] {
      var front := trace[..|trace| - 1];
      ExitOrderMembers(front, n);
      assert trace == front + [trace[|trace| - 1]];
    }
  }

  /** A name is sent at most once when no event repeats. */
  lemma {:induction false} ExitOrderDistinct(trace: seq<Event>)
    requires forall i, j :: 0 <= i < j < |trace| ==> trace[i] != trace[j]
    ensures Distinct(ExitOrder(trace))
  {
    if trace != [] {
      var front := trace[..|trace| - 1];
      var e := trace[|trace| - 1];
      ExitOrderDistinct(front);
      if e.Exited? {
        ExitOrderMembers(front, e.proc);
        assert Exited(e.proc) !in front by {
          forall i | 0 <= i < |front| ensures front[i] != e { assert front[i] == trace[i]; }
        }
      }
    }
  }

  lemma {:induction false} DistinctCard<T>(s: seq<T>)
    requires Distinct(s)
    ensures |set x | x in s| == |s|
  {
    if s != [] {
      var front := s[..|s| - 1];
      DistinctCard(front);
      assert (set x | x in s) == (set x | x in front) + {s[|s| - 1]};
      assert s[|s| - 1] !in front by {
        forall i | 0 <= i < |front| ensures front[i] != s[|s| - 1] { assert front[i] == s[i]; }
      }
    }
  }

  /**
   * In a complete trace every process sends its name exactly once, so the
   * supervisor receives exactly as many notifications as it launched processes.
   */
  lemma CompleteExitOrder(names: set<Bytes>, trace: seq<Event>)
    requires ValidTrace(names, trace) && Complete(names, trace)
    ensures (set n | n in ExitOrder(trace)) == names
    ensures |ExitOrder(trace)| == |names| && Distinct(ExitOrder(trace))
  {
    var order := ExitOrder(trace);
    forall n
      ensures n in order <==> n in names
    {
      ExitOrderMembers(trace, n);
      if Exited(n) in trace {
        var i :| 0 <= i < |trace| && trace[i] == Exited(n);
      }
    }
    ExitOrderDistinct(trace);
    DistinctCard(order);
  }

  /** The names waiting for `main`: the one it is serving, then the blocked senders. */
  function Queued(s: State): seq<Bytes>
  {
    (if s.receiving.Some? then [s.receiving.value] else []) + s.exitChan
  }

  /** The drain flags of every live instance record exactly the closes that happened. */
  predicate FlagsMatch(names: set<Bytes>, seen: seq<Event>, s: State)
    requires s.instances.Keys == names
  {
    forall n :: n in names && s.instances[n].Some? ==>
      && (s.instances[n].value.allOutputtedStdout <==> StdoutDrained(n) in seen)
      && (s.instances[n].value.allOutputtedStderr <==> StderrDrained(n) in seen)
  }

  /**
   * What holds after the events `seen`: every launched process still has its
   * instance unless removed; the count is the number not yet removed; the
   * removed names followed by the queued ones are the names in the order they
   * were sent; and the k-th removal happened only after that process's exit
   * and both its drains were among the first `at[k]` events.
   */
  predicate Inv(names: set<Bytes>, seen: seq<Event>, s: State, at: seq<nat>)
  {
    && (forall i :: 0 <= i < |seen| ==> seen[i].proc in names)
    && s.instances.Keys == names
    && 0 <= s.instanceCount == |names| - |s.removed|
    && (s.receiving.Some? ==> s.instanceCount > 0)
    && s.removed + Queued(s) == ExitOrder(seen)
    && (forall n :: n in names ==> (s.instances[n].None? <==> n in s.removed))
    && FlagsMatch(names, seen, s)
    && |at| == |s.removed|
    && (forall k :: 0 <= k < |at| ==> at[k] <= |seen| && Finished(s.removed[k], seen[..at[k]]))
  }

  /** `main` can go no further without another event. */
  predicate Blocked(s: State)
  {
    match s.receiving
    case None => s.instanceCount == 0 || s.exitChan == []
    case Some(p) =>
      p in s.instances && s.instances[p].Some?
      && !(s.instances[p].value.allOutputtedStdout && s.instances[p].value.allOutputtedStderr)
  }

  /** The launch loop: an instance for every process, and the count set to their number. */
  method Launch(names: set<Bytes>) returns (s: State)
    ensures Inv(names, [], s, [])
    ensures s.instanceCount == |names| && s.exitChan == [] && s.receiving.None?
    ensures forall n :: n in names ==> s.instances[n] == Some(Instance(false, false))
  {
    var instances: map<Bytes, Option<Instance>> := map[];
    var todo := names;
    while todo != {}
      invariant todo <= names
      invariant instances.Keys == names - todo
      invariant forall n :: n in instances ==> instances[n] == Some(Instance(false, false))
      decreases |todo|
    {
      var n :| n in todo;
      instances := instances[n := Some(Instance(false, false))];
      todo := todo - {n};
    }
    s := State(instances, |names|, [], None, []);
  }

  /**
   * `main` after an event: it receives the next name whenever the count is
   * positive, and clears and counts down the instance it serves once both
   * drain channels are closed, until it must wait.
   */
  method Advance(names: set<Bytes>, ghost seen: seq<Event>, s: State, ghost at: seq<nat>)
    returns (t: State, ghost at': seq<nat>)
    requires Inv(names, seen, s, at) && Distinct(ExitOrder(seen))
    ensures Inv(names, seen, t, at') && Blocked(t)
  {
    t, at' := s, at;
    while true
      invariant Inv(names, seen, t, at')
      decreases 2 * |t.exitChan| + (if t.receiving.Some? then 1 else 0)
    {
      match t.receiving
      case None =>
        if t.instanceCount == 0 || t.exitChan == [] {
          break;
        }
        ReceiveKeepsInv(names, seen, t, at');
        t := t.(receiving := Some(t.exitChan[0]), exitChan := t.exitChan[1..]);
      case Some(p) =>
        ReceivingIsLive(names, seen, t, at');
        var inst := t.instances[p].value;
        if !(inst.allOutputtedStdout && inst.allOutputtedStderr) {
          break;
        }
        RemoveKeepsInv(names, seen, t, at');
        t := t.(instances := t.instances[p := None], instanceCount := t.instanceCount - 1,
                receiving := None, removed := t.removed + [p]);
        at' := at' + [|seen|];
    }
  }

  /** `procName := <-exitChan`: the first blocked sender is received. */
  lemma ReceiveKeepsInv(names: set<Bytes>, seen: seq<Event>, s: State, at: seq<nat>)
    requires Inv(names, seen, s, at) && s.receiving.None? && s.instanceCount > 0 && s.exitChan != []
    ensures Inv(names, seen, s.(receiving := Some(s.exitChan[0]), exitChan := s.exitChan[1..]), at)
  {
    var t := s.(receiving := Some(s.exitChan[0]), exitChan := s.exitChan[1..]);
    assert Queued(t) == Queued(s);
  }

  /** `procs[procName].Instance = nil; instanceCount--`, once both drains are closed. */
  lemma RemoveKeepsInv(names: set<Bytes>, seen: seq<Event>, s: State, at: seq<nat>)
    requires Inv(names, seen, s, at) && Distinct(ExitOrder(seen)) && s.receiving.Some?
    requires s.receiving.value in s.instances && s.instances[s.receiving.value].Some?
    requires s.instances[s.receiving.value].value.allOutputtedStdout
    requires s.instances[s.receiving.value].value.allOutputtedStderr
    ensures var p := s.receiving.value;
            Inv(names, seen, s.(instances := s.instances[p := None], instanceCount := s.instanceCount - 1,
                                receiving := None, removed := s.removed + [p]), at + [|seen|])
  {
    var p := s.receiving.value;
    ReceivingIsLive(names, seen, s, at);
    var t := s.(instances := s.instances[p := None], instanceCount := s.instanceCount - 1,
                receiving := None, removed := s.removed + [p]);
    QueuedAfterRemove(s, t);
    RemoveKeepsInstances(names, seen, s, t, p);
    RemoveKeepsTimes(names, seen, s, at, t, p);
  }

  lemma QueuedAfterRemove(s: State, t: State)
    requires s.receiving.Some? && t.receiving.None? && t.exitChan == s.exitChan
    requires t.removed == s.removed + [s.receiving.value]
    ensures t.removed + Queued(t) == s.removed + Queued(s)
  {
    assert Queued(t) == s.exitChan;
  }

  lemma RemoveKeepsInstances(names: set<Bytes>, seen: seq<Event>, s: State, t: State, p: Bytes)
    requires s.instances.Keys == names && FlagsMatch(names, seen, s)
    requires forall n :: n in names ==> (s.instances[n].None? <==> n in s.removed)
    requires p in names && p !in s.removed
    requires t == s.(instances := s.instances[p := None], instanceCount := s.instanceCount - 1,
                     receiving := None, removed := s.removed + [p])
    ensures t.instances.Keys == names && FlagsMatch(names, seen, t)
    ensures forall n :: n in names ==> (t.instances[n].None? <==> n in t.removed)
  {
    forall n | n in names
      ensures t.instances[n].None? <==> n in t.removed
    {
      if n != p {
        assert t.instances[n] == s.instances[n];
        assert n in t.removed <==> n in s.removed;
      }
    }
    forall n | n in names && t.instances[n].Some?
      ensures && (t.instances[n].value.allOutputtedStdout <==> StdoutDrained(n) in seen)
              && (t.instances[n].value.allOutputtedStderr <==> StderrDrained(n) in seen)
    {
      assert n != p;
      assert t.instances[n] == s.instances[n];
    }
  }

  lemma RemoveKeepsTimes(names: set<Bytes>, seen: seq<Event>, s: State, at: seq<nat>, t: State, p: Bytes)
    requires s.instances.Keys == names && FlagsMatch(names, seen, s)
    requires p in names && s.instances[p].Some? && p in ExitOrder(seen)
    requires s.instances[p].value.allOutputtedStdout && s.instances[p].value.allOutputtedStderr
    requires |at| == |s.removed|
    requires forall k :: 0 <= k < |at| ==> at[k] <= |seen| && Finished(s.removed[k], seen[..at[k]])
    requires t.removed == s.removed + [p]
    ensures var at' := at + [|seen|];
            |at'| == |t.removed|
            && forall k :: 0 <= k < |at'| ==> at'[k] <= |seen| && Finished(t.removed[k], seen[..at'[k]])
  {
    FinishedWhenFlagged(names, seen, s, p);
    assert seen[..|seen|] == seen;
    var at' := at + [|seen|];
    forall k | 0 <= k < |at'|
      ensures at'[k] <= |seen| && Finished(t.removed[k], seen[..at'[k]])
    {
      if k < |at| {
        assert t.removed[k] == s.removed[k];
      }
    }
  }

  /** The process `main` serves still has its instance. */
  lemma ReceivingIsLive(names: set<Bytes>, seen: seq<Event>, s: State, at: seq<nat>)
    requires Inv(names, seen, s, at) && Distinct(ExitOrder(seen)) && s.receiving.Some?
    ensures s.receiving.value in names && s.receiving.value !in s.removed
    ensures s.instances[s.receiving.value].Some?
  {
    var p := s.receiving.value;
    var order := ExitOrder(seen);
    assert order[|s.removed|] == p;
    ExitOrderMembers(seen, p);
    var i :| 0 <= i < |seen| && seen[i] == Exited(p);
    forall k | 0 <= k < |s.removed|
      ensures s.removed[k] != p
    {
      assert order[k] == s.removed[k];
    }
  }

  lemma FinishedWhenFlagged(names: set<Bytes>, seen: seq<Event>, s: State, p: Bytes)
    requires s.instances.Keys == names && FlagsMatch(names, seen, s)
    requires p in names && s.instances[p].Some?
    requires s.instances[p].value.allOutputtedStdout && s.instances[p].value.allOutputtedStderr
    requires p in ExitOrder(seen)
    ensures Finished(p, seen)
  {
    ExitOrderMembers(seen, p);
  }

  /** The effect of one event on the channels and drain flags. */
  function Deliver(s: State, e: Event): (t: State)
    ensures t.instances.Keys == s.instances.Keys && t.instanceCount == s.instanceCount
    ensures t.receiving == s.receiving && t.removed == s.removed
    ensures t.exitChan == s.exitChan + (if e.Exited? then [e.proc] else [])
    ensures forall n :: n in s.instances && (n != e.proc || e.Exited?) ==> t.instances[n] == s.instances[n]
    ensures e.proc in s.instances && !e.Exited? ==>
              && (t.instances[e.proc].Some? <==> s.instances[e.proc].Some?)
              && (t.instances[e.proc].Some? ==>
                    && (t.instances[e.proc].value.allOutputtedStdout <==> (e.StdoutDrained? || s.instances[e.proc].value.allOutputtedStdout))
                    && (t.instances[e.proc].value.allOutputtedStderr <==> (e.StderrDrained? || s.instances[e.proc].value.allOutputtedStderr)))
  {
    match e
    case Exited(p) => s.(exitChan := s.exitChan + [p])
    case StdoutDrained(p) =>
      if p in s.instances && s.instances[p].Some?
      then s.(instances := s.instances[p := Some(s.instances[p].value.(allOutputtedStdout := true))])
      else s
    case StderrDrained(p) =>
      if p in s.instances && s.instances[p].Some?
      then s.(instances := s.instances[p := Some(s.instances[p].value.(allOutputtedStderr := true))])
      else s
  }

  lemma InPrefix<T>(s: seq<T>, m: nat, x: T)
    requires m <= |s| && x in s[..m]
    ensures x in s
  {
    var i :| 0 <= i < m && s[..m][i] == x;
    assert s[i] == x;
  }

  lemma DeliverKeepsInv(names: set<Bytes>, seen: seq<Event>, s: State, at: seq<nat>, e: Event)
    requires Inv(names, seen, s, at) && e.proc in names && e !in seen
    ensures Inv(names, seen + [e], Deliver(s, e), at)
  {
    var seen' := seen + [e];
    assert seen'[..|seen'| - 1] == seen;
    forall k | 0 <= k < |at|
      ensures seen'[..at[k]] == seen[..at[k]]
    {
    }
    if e.Exited? {
      DeliverExited(names, seen, s, e.proc);
    } else {
      DeliverDrained(names, seen, s, at, e);
    }
  }

  /** The exit notification joins the blocked senders, last. */
  lemma DeliverExited(names: set<Bytes>, seen: seq<Event>, s: State, p: Bytes)
    requires s.instances.Keys == names && FlagsMatch(names, seen, s)
    requires s.removed + Queued(s) == ExitOrder(seen)
    ensures var t := Deliver(s, Exited(p));
            && t.removed + Queued(t) == ExitOrder(seen + [Exited(p)])
            && t.instances == s.instances && t.removed == s.removed
            && FlagsMatch(names, seen + [Exited(p)], t)
  {
    var seen' := seen + [Exited(p)];
    assert seen'[..|seen'| - 1] == seen;
    var t := Deliver(s, Exited(p));
    assert Queued(t) == Queued(s) + [p];
  }

  /** A drain channel's close sets the flag of a process that still has its instance. */
  lemma DeliverDrained(names: set<Bytes>, seen: seq<Event>, s: State, at: seq<nat>, e: Event)
    requires Inv(names, seen, s, at) && e.proc in names && e !in seen && !e.Exited?
    ensures var t := Deliver(s, e);
            && t.removed + Queued(t) == ExitOrder(seen + [e])
            && t.instances.Keys == names && t.removed == s.removed
            && (forall n :: n in names ==> (t.instances[n].None? <==> n in t.removed))
            && FlagsMatch(names, seen + [e], t)
  {
    var seen' := seen + [e];
    assert seen'[..|seen'| - 1] == seen;
    var t := Deliver(s, e);
    forall k | 0 <= k < |at|
      ensures s.removed[k] != e.proc
    {
      InPrefix(seen, at[k], StdoutDrained(s.removed[k]));
      InPrefix(seen, at[k], StderrDrained(s.removed[k]));
    }
    forall n | n in names && t.instances[n].Some?
      ensures (t.instances[n].value.allOutputtedStdout <==> StdoutDrained(n) in seen')
      ensures (t.instances[n].value.allOutputtedStderr <==> StderrDrained(n) in seen')
    {
    }
  }

  /**
   * The supervisor over a trace of events. It launches every process, then
   * delivers the events one at a time and lets `main` run after each.
   *
   * Whatever the trace, the count is the number of processes not yet
   * removed, the removed processes are exactly those without an instance,
   * they were removed in the order their exit notifications were sent, and
   * each only after its exit and both its drains had happened (`at[k]` is how
   * many events had been delivered). When the trace is complete the count
   * is zero and every process has been removed exactly once.
   */
  method Supervise(names: set<Bytes>, trace: seq<Event>) returns (s: State, ghost at: seq<nat>)
    requires ValidTrace(names, trace)
    ensures s.instances.Keys == names
    ensures 0 <= s.instanceCount == |names| - |s.removed|
    ensures forall n :: n in names ==> (s.instances[n].None? <==> n in s.removed)
    ensures |s.removed| <= |ExitOrder(trace)| && s.removed == ExitOrder(trace)[..|s.removed|]
    ensures |at| == |s.removed|
    ensures forall k :: 0 <= k < |at| ==> at[k] <= |trace| && Finished(s.removed[k], trace[..at[k]])
    ensures Complete(names, trace) ==> s.instanceCount == 0 && s.removed == ExitOrder(trace)
  {
    s := Launch(names);
    at := [];
    for i := 0 to |trace|
      invariant Inv(names, trace[..i], s, at) && Blocked(s)
    {
      var e := trace[i];
      NextEvent(names, trace, i);
      DeliverKeepsInv(names, trace[..i], s, at, e);
      s := Deliver(s, e);
      s, at := Advance(names, trace[..i + 1], s, at);
    }
    assert trace[..|trace|] == trace;
    Outcome(names, trace, s, at);
  }

  /** The next event of a valid trace is new, and the notifications up to it are distinct. */
  lemma NextEvent(names: set<Bytes>, trace: seq<Event>, i: nat)
    requires ValidTrace(names, trace) && i < |trace|
    ensures trace[i].proc in names && trace[i] !in trace[..i]
    ensures trace[..i + 1] == trace[..i] + [trace[i]]
    ensures Distinct(ExitOrder(trace[..i + 1]))
  {
    forall k | 0 <= k < i
      ensures trace[..i][k] != trace[i]
    {
    }
    ExitOrderDistinct(trace[..i + 1]);
  }

  lemma Outcome(names: set<Bytes>, trace: seq<Event>, s: State, at: seq<nat>)
    requires ValidTrace(names, trace) && Inv(names, trace, s, at) && Blocked(s)
    ensures |s.removed| <= |ExitOrder(trace)| && s.removed == ExitOrder(trace)[..|s.removed|]
    ensures Complete(names, trace) ==> s.instanceCount == 0 && s.removed == ExitOrder(trace)
  {
    assert s.removed == ExitOrder(trace)[..|s.removed|];
    if Complete(names, trace) {
      CompleteAll(names, trace, s, at);
    }
  }

  /** Once every event of a complete trace has been delivered, `main` has removed every process. */
  lemma CompleteAll(names: set<Bytes>, trace: seq<Event>, s: State, at: seq<nat>)
    requires ValidTrace(names, trace) && Complete(names, trace)
    requires Inv(names, trace, s, at) && Blocked(s)
    ensures s.instanceCount == 0 && s.removed == ExitOrder(trace)
  {
    CompleteExitOrder(names, trace);
    var order := ExitOrder(trace);
    if s.receiving.Some? {
      ReceivingIsLive(names, trace, s, at);
    }
  }
}
