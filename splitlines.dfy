/**
 * The SplitLines component of flowd-rs (flowd-rs/src/components/splitlines.rs):
 * every text IP taken from its inport is split with Rust's `str::lines()`
 * and each line is sent on as an IP of its own; when the outport is full the
 * component wakes the downstream component, waits until there is room and
 * pushes the same line again.
 */
module SplitLines {
  import opened Wrappers
  import opened Text
  import opened Components

  const LF: char := '\n'
  const CR: char := '\r'

  /** One carriage return removed from the end of a line, if it has one. */
  function StripCR(line: string): string
  {
    if |line| > 0 && line[|line| - 1] == CR then line[..|line| - 1] else line
  }

  /**
   * `str::lines()`: the pieces between line feeds. A line ended by a line
   * feed loses it and one carriage return before it; a last line without a
   * line feed is kept whole; there is no empty line after a final line feed.
   */
  function Lines(s: string): (r: seq<string>)
    ensures forall k :: 0 <= k < |r| ==> LF !in r[k]
    decreases |s|
  {
    if s == [] then []
    else
      match IndexOf(s, LF)
      case None => [s]
      case Some(i) => [StripCR(s[..i])] + Lines(s[i + 1..])
  }

  /** A line that `str::lines()` gives back unchanged when it is followed by a line feed. */
  predicate IsPlainLine(line: string)
  {
    LF !in line && !(|line| > 0 && line[|line| - 1] == CR)
  }

  /** Lines each followed by a line feed. */
  function Terminated(lines: seq<string>): string
  {
    if lines == [] then [] else lines[0] + [LF] + Terminated(lines[1..])
  }

  /** A line ended by a line feed comes out whole, followed by the lines after it. */
  lemma LinesLF(line: string, rest: string)
    requires LF !in line
    ensures Lines(line + [LF] + rest) == [StripCR(line)] + Lines(rest)
  {
    var s := line + [LF] + rest;
    IndexOfJoin(line, LF, rest);
    assert s[..|line|] == line;
    assert s[|line| + 1..] == rest;
  }

  /** A line ended by CR LF comes out without either. */
  lemma LinesCRLF(line: string, rest: string)
    requires LF !in line
    ensures Lines(line + [CR, LF] + rest) == [line] + Lines(rest)
  {
    assert line + [CR, LF] + rest == (line + [CR]) + [LF] + rest;
    LinesLF(line + [CR], rest);
    assert StripCR(line + [CR]) == line;
  }

  /** One plain line ended by a line feed, in front of text that splits into `tail`. */
  lemma LinesStep(line: string, t: string, tail: seq<string>)
    requires IsPlainLine(line) && Lines(t) == tail
    ensures Lines(line + [LF] + t) == [line] + tail
  {
    LinesLF(line, t);
  }

  /** The first terminated line, then the others, then the rest. */
  lemma TerminatedFront(lines: seq<string>, rest: string)
    requires lines != []
    ensures Terminated(lines) + rest == lines[0] + [LF] + (Terminated(lines[1..]) + rest)
  {
    AppendAssoc(lines[0] + [LF], Terminated(lines[1..]), rest);
  }

  /** Text made of terminated lines is split back into those lines, followed by the rest. */
  lemma {:induction false} LinesOfTerminated(lines: seq<string>, rest: string)
    requires forall k :: 0 <= k < |lines| ==> IsPlainLine(lines[k])
    ensures Lines(Terminated(lines) + rest) == lines + Lines(rest)
  {
    if lines == [] {
      assert Terminated(lines) + rest == rest;
    } else {
      LinesOfTerminated(lines[1..], rest);
      LinesOfTerminatedStep(lines, rest);
    }
  }

  /** The step of `LinesOfTerminated`: one more plain line in front. */
  lemma LinesOfTerminatedStep(lines: seq<string>, rest: string)
    requires lines != [] && IsPlainLine(lines[0])
    requires Lines(Terminated(lines[1..]) + rest) == lines[1..] + Lines(rest)
    ensures Lines(Terminated(lines) + rest) == lines + Lines(rest)
  {
    TerminatedFront(lines, rest);
    LinesStep(lines[0], Terminated(lines[1..]) + rest, lines[1..] + Lines(rest));
    HeadThenTail(lines, Lines(rest));
  }

  /** A last line without a line feed is emitted all the same. */
  lemma UnterminatedLastLine(lines: seq<string>, last: string)
    requires forall k :: 0 <= k < |lines| ==> IsPlainLine(lines[k])
    requires last != [] && LF !in last
    ensures Lines(Terminated(lines) + last) == lines + [last]
  {
    LinesOfTerminated(lines, last);
  }

  /** How many line feeds `s` holds. */
  function LineFeeds(s: string): nat
  {
    if s == [] then 0 else LineFeeds(s[..|s| - 1]) + (if s[|s| - 1] == LF then 1 else 0)
  }

  lemma {:induction false} LineFeedsConcat(a: string, b: string)
    ensures LineFeeds(a + b) == LineFeeds(a) + LineFeeds(b)
  {
    if b != [] {
      LineFeedsConcat(a, b[..|b| - 1]);
      assert (a + b)[..|a + b| - 1] == a + b[..|b| - 1];
    } else {
      assert a + b == a;
    }
  }

  lemma {:induction false} NoLineFeeds(s: string)
    requires LF !in s
    ensures LineFeeds(s) == 0
  {
    if s != [] {
      NoLineFeeds(s[..|s| - 1]);
    }
  }

  /** A line feed after a line without one adds one to the count of what follows. */
  lemma LineFeedsAfterLine(line: string, rest: string)
    requires LF !in line
    ensures LineFeeds(line + [LF] + rest) == 1 + LineFeeds(rest)
  {
    NoLineFeeds(line);
    LineFeedsConcat(line + [LF], rest);
    LineFeedsConcat(line, [LF]);
    assert LineFeeds([LF]) == 1 by { assert [LF][..0] == []; }
  }

  /** One line per line feed, and one more for a non-empty last line without one. */
  lemma {:induction false} LinesCount(s: string)
    ensures |Lines(s)| == LineFeeds(s) + (if s != [] && s[|s| - 1] != LF then 1 else 0)
    decreases |s|
  {
    if s != [] {
      match IndexOf(s, LF)
      case None =>
        NoLineFeeds(s);
      case Some(i) =>
        var line, rest := s[..i], s[i + 1..];
        assert s == line + [LF] + rest;
        LinesLF(line, rest);
        LinesCount(rest);
        LineFeedsAfterLine(line, rest);
        if rest != [] {
          assert s[|s| - 1] == rest[|rest| - 1];
        }
    }
  }

  /** The IPs sent for a sequence of input IPs: each one's lines, in order. */
  function Emitted(ips: seq<string>): seq<string>
  {
    if ips == [] then [] else Emitted(ips[..|ips| - 1]) + Lines(ips[|ips| - 1])
  }

  lemma {:induction false} EmittedConcat(a: seq<string>, b: seq<string>)
    ensures Emitted(a + b) == Emitted(a) + Emitted(b)
  {
    if b != [] {
      EmittedConcat(a, b[..|b| - 1]);
      assert (a + b)[..|a + b| - 1] == a + b[..|b| - 1];
    } else {
      assert a + b == a;
    }
  }

  lemma EmittedSnoc(ips: seq<string>, ip: string)
    ensures Emitted(ips + [ip]) == Emitted(ips) + Lines(ip)
  {
    assert (ips + [ip])[..|ips|] == ips;
  }

  /**
   * `SplitLinesComponent`: its inport and outport ring buffers and the
   * replies it has sent on its signal output.
   */
  class SplitLinesComponent {
    const inn: RingBuffer
    const out: RingBuffer
    var signalsOut: seq<string>

    predicate Valid()
      reads this, inn, out
    {
      inn != out && inn.Valid() && out.Valid()
    }

    constructor(inn: RingBuffer, out: RingBuffer)
      requires inn != out && inn.Valid() && out.Valid()
      ensures Valid() && this.inn == inn && this.out == out && signalsOut == []
    {
      this.inn := inn;
      this.out := out;
      signalsOut := [];
    }

    /**
     * Sends one line. When the outport is full the downstream component is
     * woken and takes IPs until there is room; the second push then
     * succeeds, so the line is neither lost nor sent twice.
     */
    method PushLine(line: string)
      requires Valid()
      modifies out
      ensures Valid()
      ensures out.Stream() == old(out.Stream()) + [line]
    {
      var ok := out.Push(line);
      if !ok {
        while out.IsFull()
          invariant out.Valid() && out.Stream() == old(out.Stream())
          decreases |out.items|
        {
          var _ := out.Pop();
        }
        ok := out.Push(line);
        assert ok;
      }
    }

    /** Sends the lines of one IP, in order. */
    method PushLines(lines: seq<string>)
      requires Valid()
      modifies out
      ensures Valid()
      ensures out.Stream() == old(out.Stream()) + lines
    {
      for k := 0 to |lines|
        invariant Valid()
        invariant out.Stream() == old(out.Stream()) + lines[..k]
      {
        PushLine(lines[k]);
        assert lines[..k + 1] == lines[..k] + [lines[k]];
      }
      assert lines[..|lines|] == lines;
    }

    /** The inner loop: pops until the inport is empty, sending the lines of every IP. */
    method DrainInport()
      requires Valid()
      modifies inn, out
      ensures Valid() && inn.items == []
      ensures inn.popped == old(inn.popped) + old(inn.items)
      ensures out.Stream() == old(out.Stream()) + Emitted(old(inn.items))
    {
      ghost var done: seq<string> := [];
      while true
        invariant Valid()
        invariant inn.popped == old(inn.popped) + done && done + inn.items == old(inn.items)
        invariant out.Stream() == old(out.Stream()) + Emitted(done)
        decreases |inn.items|
      {
        ghost var before := inn.items;
        var ip := inn.Pop();
        if ip.None? {
          break;
        }
        HeadTail(before);
        AppendAssoc(done, [ip.value], inn.items);
        AppendAssoc(old(inn.popped), done, [ip.value]);
        PushLines(Lines(ip.value));
        EmittedSnoc(done, ip.value);
        AppendAssoc(old(out.Stream()), Emitted(done), Lines(ip.value));
        done := done + [ip.value];
      }
      AppendEmpty(done);
    }

    /**
     * One iteration of the run loop after the other threads have acted: a
     * stop signal ends it at once; otherwise a ping is answered and the
     * inport drained.
     */
    method Iterate(r: Round) returns (stop: bool)
      requires Valid() && |inn.items| + |r.arrived| <= inn.capacity
      modifies this, inn, out
      ensures Valid()
      ensures stop <==> Dispatch(r.signal) == Stop
      ensures stop ==> inn.popped == old(inn.popped) && out.Stream() == old(out.Stream())
                       && signalsOut == old(signalsOut)
      ensures !stop ==> && inn.items == []
                        && inn.popped == old(inn.popped) + (old(inn.items) + r.arrived)
                        && out.Stream() == old(out.Stream()) + Emitted(old(inn.items) + r.arrived)
                        && signalsOut == old(signalsOut) + ReplyOf(r)
    {
      inn.PushAll(r.arrived);
      out.Take(r.taken);
      var action := Dispatch(r.signal);
      if action == Stop {
        return true;
      }
      if action == Pong {
        signalsOut := signalsOut + [PongReply];
      }
      DrainInport();
      return false;
    }

    /** What the run has shown downstream since `popped0`, `stream0` and `signals0`. */
    ghost predicate Shows(popped0: seq<string>, stream0: seq<string>, signals0: seq<string>, taken: seq<string>, replies: seq<string>)
      reads this, inn, out
    {
      && inn.popped == popped0 + taken
      && out.Stream() == stream0 + Emitted(taken)
      && signalsOut == signals0 + replies
    }

    /** `Iterate`, accounted against everything shown so far. */
    method Step(r: Round, ghost popped0: seq<string>, ghost stream0: seq<string>, ghost signals0: seq<string>,
                ghost taken: seq<string>, ghost replies: seq<string>) returns (stop: bool)
      requires Valid() && |inn.items| + |r.arrived| <= inn.capacity
      requires Shows(popped0, stream0, signals0, taken, replies)
      modifies this, inn, out
      ensures Valid()
      ensures stop <==> Dispatch(r.signal) == Stop
      ensures stop ==> Shows(popped0, stream0, signals0, taken, replies)
      ensures !stop ==> inn.items == [] && Shows(popped0, stream0, signals0, taken + (old(inn.items) + r.arrived), replies + ReplyOf(r))
    {
      ghost var queue := inn.items + r.arrived;
      stop := Iterate(r);
      if !stop {
        EmittedConcat(taken, queue);
        AppendAssoc(popped0, taken, queue);
        AppendAssoc(stream0, Emitted(taken), Emitted(queue));
        AppendAssoc(signals0, replies, ReplyOf(r));
      }
    }

    /**
     * Round `i` of a run whose outcome is `whole`: either the run ends here,
     * as `whole` says, or it goes on to round `i + 1` with everything shown
     * so far accounted for.
     */
    method Advance(rounds: seq<Round>, i: nat, ghost whole: Outcome,
                   ghost popped0: seq<string>, ghost stream0: seq<string>, ghost signals0: seq<string>,
                   ghost taken: seq<string>, ghost replies: seq<string>)
      returns (done: bool, exit: Exit, ghost taken': seq<string>, ghost replies': seq<string>)
      requires i < |rounds| && Valid() && |inn.items| + |rounds[i].arrived| <= inn.capacity
      requires whole == Then(taken, replies, Drive(rounds, i, inn.items))
      requires Shows(popped0, stream0, signals0, taken, replies)
      modifies this, inn, out
      ensures Valid() && Shows(popped0, stream0, signals0, taken', replies')
      ensures !done ==> && inn.items == [] && whole == Then(taken', replies', Drive(rounds, i + 1, []))
                        && Dispatch(rounds[i].signal) != Stop && !rounds[i].abandoned
      ensures done ==> && exit == whole.exit && exit != Waiting
                       && taken' == whole.taken && replies' == whole.replies
                       && (exit == Stopped ==> Dispatch(rounds[i].signal) == Stop)
                       && (exit == Abandoned ==> inn.items == [] && rounds[i].abandoned)
    {
      var r := rounds[i];
      ghost var queue := inn.items + r.arrived;
      DriveRound(rounds, i, inn.items, taken, replies, whole, queue, Dispatch(r.signal) == Stop);
      var stop := Step(r, popped0, stream0, signals0, taken, replies);
      if stop {
        return true, Stopped, taken, replies;
      }
      taken', replies' := taken + queue, replies + ReplyOf(r);
      if r.abandoned {
        return true, Abandoned, taken', replies';
      }
      return false, Waiting, taken', replies';
    }

    /** The upstream component pushes `lost` into the drained inport and goes away. */
    method LeaveInport(lost: seq<string>, ghost popped0: seq<string>, ghost stream0: seq<string>, ghost signals0: seq<string>,
                       ghost taken: seq<string>, ghost replies: seq<string>)
      requires Valid() && inn.items == [] && |lost| <= inn.capacity
      requires Shows(popped0, stream0, signals0, taken, replies)
      modifies inn
      ensures Valid() && inn.items == lost
      ensures Shows(popped0, stream0, signals0, taken, replies)
    {
      inn.PushAll(lost);
    }

    /**
     * The run loop over the given rounds: which way it ends, the IPs it takes
     * from the inport and the replies it sends are those `Drive` describes,
     * and the outport receives the lines of every IP taken, in order. `ended`
     * is the round the loop ended in. When it ends because the upstream side
     * is gone, the inport holds exactly the IPs pushed after that round's
     * drain, which nobody takes.
     */
    method Run(rounds: seq<Round>) returns (exit: Exit, ended: nat)
      requires Valid()
      requires |rounds| > 0 ==> |inn.items| + |rounds[0].arrived| <= inn.capacity
      requires forall i :: 1 <= i < |rounds| ==> |rounds[i].arrived| <= inn.capacity
      requires forall i :: 0 <= i < |rounds| && rounds[i].abandoned ==> |rounds[i].lost| <= inn.capacity
      modifies this, inn, out
      ensures Valid()
      ensures var o := Drive(rounds, 0, old(inn.items));
              && exit == o.exit
              && inn.popped == old(inn.popped) + o.taken
              && out.Stream() == old(out.Stream()) + Emitted(o.taken)
              && signalsOut == old(signalsOut) + o.replies
      ensures exit == Waiting ==> ended == |rounds|
      ensures exit == Stopped ==> RunsThrough(rounds, 0, ended) && Dispatch(rounds[ended].signal) == Stop
      ensures exit == Abandoned ==> RunsThrough(rounds, 0, ended) && rounds[ended].abandoned && inn.items == rounds[ended].lost
    {
      ghost var pending := inn.items;
      ghost var whole := Drive(rounds, 0, pending);
      ghost var taken: seq<string> := [];
      ghost var replies: seq<string> := [];
      ThenLast([], [], whole.taken, whole.replies, whole.exit);
      AppendEmpty(inn.popped);
      AppendEmpty(out.Stream());
      AppendEmpty(signalsOut);
      var i := 0;
      while i < |rounds|
        invariant i <= |rounds| && Valid()
        invariant (i == 0 ==> inn.items == pending) && (i > 0 ==> inn.items == [])
        invariant forall k :: 0 <= k < i ==> Dispatch(rounds[k].signal) != Stop && !rounds[k].abandoned
        invariant whole == Then(taken, replies, Drive(rounds, i, inn.items))
        invariant Shows(old(inn.popped), old(out.Stream()), old(signalsOut), taken, replies)
        decreases |rounds| - i
      {
        var done;
        done, exit, taken, replies := Advance(rounds, i, whole, old(inn.popped), old(out.Stream()), old(signalsOut), taken, replies);
        if done {
          if exit == Abandoned {
            LeaveInport(rounds[i].lost, old(inn.popped), old(out.Stream()), old(signalsOut), taken, replies);
          }
          return exit, i;
        }
        i := i + 1;
      }
      ThenLast(taken, replies, [], [], Waiting);
      AppendEmpty(taken);
      AppendEmpty(replies);
      return Waiting, |rounds|;
    }
  }
}
