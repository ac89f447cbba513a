/**
 * The Trim component of flowd-rs (flowd-rs/src/components/trim.rs): every
 * text IP taken from its inport is sent on with the whitespace at either end
 * removed, by Rust's `str::trim`. A push into a full outport is not retried:
 * the component panics, and the IP it had taken is lost.
 */
module Trim {
  import opened Wrappers
  import opened Text
  import opened Components

  /** Whitespace for `str::trim`: the characters with the Unicode White_Space property. */
  predicate IsWhitespace(c: char): (b: bool)
    ensures c as int < 0x80 ==> (b <==> c == ' ' || '\t' <= c <= '\r')
  {
    var n := c as int;
    || 0x09 <= n <= 0x0D || n == 0x20 || n == 0x85 || n == 0xA0 || n == 0x1680
    || 0x2000 <= n <= 0x200A || n == 0x2028 || n == 0x2029 || n == 0x202F || n == 0x205F || n == 0x3000
  }

  /*
   * `str::trim` is `trim_matches(char::is_whitespace)`; the trimming below
   * is written for any character class `p` and then used with
   * `IsWhitespace`.
   */

  predicate All(p: char -> bool, s: string)
  {
    forall i :: 0 <= i < |s| ==> p(s[i])
  }

  /** Neither end is in `p`. */
  predicate IsTrimmedBy(p: char -> bool, s: string)
  {
    s == [] || (!p(s[0]) && !p(s[|s| - 1]))
  }

  /** `trim_start_matches`: what is left after the leading characters in `p`. */
  function TrimStartBy(p: char -> bool, s: string): string
  {
    if s != [] && p(s[0]) then TrimStartBy(p, s[1..]) else s
  }

  /** `trim_end_matches`: what is left before the trailing characters in `p`. */
  function TrimEndBy(p: char -> bool, s: string): string
  {
    if s != [] && p(s[|s| - 1]) then TrimEndBy(p, s[..|s| - 1]) else s
  }

  /** Trimming the start drops a run of characters in `p` and stops at one that is not. */
  lemma {:induction false} TrimStartShape(p: char -> bool, s: string)
    ensures var r := TrimStartBy(p, s);
            && |r| <= |s| && r == s[|s| - |r|..] && All(p, s[..|s| - |r|])
            && (r == [] || !p(r[0]))
  {
    if s != [] && p(s[0]) {
      TrimStartShape(p, s[1..]);
      var r := TrimStartBy(p, s[1..]);
      assert s[..|s| - |r|] == [s[0]] + s[1..][..|s| - 1 - |r|];
    }
  }

  /** Trimming the end drops a run of characters in `p` and stops at one that is not. */
  lemma {:induction false} TrimEndShape(p: char -> bool, s: string)
    ensures var r := TrimEndBy(p, s);
            && |r| <= |s| && r == s[..|r|] && All(p, s[|r|..])
            && (r == [] || !p(r[|r| - 1]))
  {
    if s != [] && p(s[|s| - 1]) {
      TrimEndShape(p, s[..|s| - 1]);
      var r := TrimEndBy(p, s[..|s| - 1]);
      assert s[|r|..] == s[..|s| - 1][|r|..] + [s[|s| - 1]];
    }
  }

  /** `trim_matches`: both. */
  function TrimBy(p: char -> bool, s: string): (r: string)
    ensures |r| <= |s| && IsTrimmedBy(p, r)
  {
    var t := TrimStartBy(p, s);
    TrimStartShape(p, s);
    TrimEndShape(p, t);
    assert TrimEndBy(p, t) != [] ==> TrimEndBy(p, t)[0] == t[0];
    TrimEndBy(p, t)
  }

  /** `str::trim`: no whitespace at either end, and text without any there is kept whole. */
  function Trim(s: string): (r: string)
    ensures |r| <= |s| && IsTrimmedBy(IsWhitespace, r)
    ensures IsTrimmedBy(IsWhitespace, s) ==> r == s
  {
    if IsTrimmedBy(IsWhitespace, s) then
      assert s == [] + s + [];
      TrimOfPadded(IsWhitespace, [], s, []);
      TrimBy(IsWhitespace, s)
    else TrimBy(IsWhitespace, s)
  }

  /**
   * What trimming keeps is one piece of the text, with only trimmed
   * characters before and after it, and neither of its ends is one.
   */
  lemma TrimIsInnerPiece(p: char -> bool, s: string)
    ensures var r := TrimBy(p, s);
            var i := |s| - |TrimStartBy(p, s)|;
            && 0 <= i && i + |r| <= |s| && r == s[i..i + |r|]
            && All(p, s[..i]) && All(p, s[i + |r|..]) && IsTrimmedBy(p, r)
  {
    var t := TrimStartBy(p, s);
    var r := TrimBy(p, s);
    assert r == TrimEndBy(p, t);
    var i := |s| - |t|;
    TrimStartShape(p, s);
    TrimEndShape(p, t);
    SliceOfSuffix(s, i, |r|);
  }

  lemma {:induction false} TrimStartOfPadding(p: char -> bool, a: string, t: string)
    requires All(p, a) && (t == [] || !p(t[0]))
    ensures TrimStartBy(p, a + t) == t
  {
    if a != [] {
      assert (a + t)[1..] == a[1..] + t;
      TrimStartOfPadding(p, a[1..], t);
    } else {
      assert a + t == t;
    }
  }

  lemma {:induction false} TrimEndOfPadding(p: char -> bool, t: string, b: string)
    requires All(p, b) && (t == [] || !p(t[|t| - 1]))
    ensures TrimEndBy(p, t + b) == t
  {
    if b != [] {
      assert (t + b)[..|t + b| - 1] == t + b[..|b| - 1];
      TrimEndOfPadding(p, t, b[..|b| - 1]);
    } else {
      assert t + b == t;
    }
  }

  /**
   * Trimming text made of padding, a piece whose ends are not padding, and
   * padding again gives that piece: padding inside it is kept, and text that
   * is all padding trims to nothing.
   */
  lemma TrimOfPadded(p: char -> bool, a: string, m: string, b: string)
    requires All(p, a) && All(p, b) && IsTrimmedBy(p, m)
    ensures TrimBy(p, a + m + b) == m
  {
    if m == [] {
      assert a + m + b == (a + b) + [];
      TrimStartOfPadding(p, a + b, []);
    } else {
      assert a + m + b == a + (m + b);
      TrimStartOfPadding(p, a, m + b);
      TrimEndOfPadding(p, m, b);
    }
  }

  /** Trimming twice is trimming once. */
  lemma TrimIdempotent(p: char -> bool, s: string)
    ensures TrimBy(p, TrimBy(p, s)) == TrimBy(p, s)
  {
    var r := TrimBy(p, s);
    TrimIsInnerPiece(p, s);
    assert r == [] + r + [];
    TrimOfPadded(p, [], r, []);
  }

  /** The trimmed texts of `ips`, one per IP, in order. */
  function TrimAll(ips: seq<string>): seq<string>
  {
    Map(Trim, ips)
  }

  /**
   * The run of the Trim loop from round `i` on, when `pending` IPs are queued
   * on the inport and `occupied` slots of the outport are in use. Like
   * `Drive`, except that a round whose IPs do not all fit into the room the
   * downstream component has left ends in a panic: the run has then taken
   * the IPs that fitted and one more, the one whose push failed.
   */
  function TrimDrive(rounds: seq<Round>, i: nat, pending: seq<string>, occupied: nat, capacity: nat): (o: Outcome)
    requires i <= |rounds| && occupied <= capacity
    ensures |o.replies| <= |rounds| - i
    decreases |rounds| - i
  {
    if i == |rounds| then Outcome(Waiting, [], [])
    else
      var r := rounds[i];
      if Dispatch(r.signal) == Stop then Outcome(Stopped, [], [])
      else
        var left := if r.taken <= occupied then occupied - r.taken else 0;
        var queue := pending + r.arrived;
        if left + |queue| > capacity then Outcome(Panicked, queue[..capacity - left + 1], ReplyOf(r))
        else if r.abandoned then Outcome(Abandoned, queue, ReplyOf(r))
        else Then(queue, ReplyOf(r), TrimDrive(rounds, i + 1, [], left + |queue|, capacity))
  }

  /** The IPs of a run that reached the outport: all it took, except the one lost in a panic. */
  function Forwarded(o: Outcome): seq<string>
  {
    if o.exit == Panicked && o.taken != [] then o.taken[..|o.taken| - 1] else o.taken
  }

  lemma ForwardedOfPanic(taken: seq<string>, lost: seq<string>, replies: seq<string>, k: nat)
    requires |lost| == k + 1
    ensures Forwarded(Outcome(Panicked, taken + lost, replies)) == taken + lost[..k]
  {
    DropLastOfAppend(taken, lost);
  }

  /** How round `i` continues a run that has taken `taken` and replied `replies` so far. */
  lemma TrimRound(rounds: seq<Round>, i: nat, pending: seq<string>, occupied: nat, capacity: nat,
                  taken: seq<string>, replies: seq<string>)
    requires i < |rounds| && occupied <= capacity
    ensures var r := rounds[i];
            var left := if r.taken <= occupied then occupied - r.taken else 0;
            var queue := pending + r.arrived;
            var whole := Then(taken, replies, TrimDrive(rounds, i, pending, occupied, capacity));
            && (Dispatch(r.signal) == Stop ==> whole == Outcome(Stopped, taken, replies) && Forwarded(whole) == taken)
            && (Dispatch(r.signal) != Stop && left + |queue| > capacity ==>
                  && whole == Outcome(Panicked, taken + queue[..capacity - left + 1], replies + ReplyOf(r))
                  && Forwarded(whole) == taken + queue[..capacity - left])
            && (Dispatch(r.signal) != Stop && left + |queue| <= capacity && r.abandoned ==>
                  whole == Outcome(Abandoned, taken + queue, replies + ReplyOf(r)))
            && (Dispatch(r.signal) != Stop && left + |queue| <= capacity && !r.abandoned ==>
                  whole == Then(taken + queue, replies + ReplyOf(r), TrimDrive(rounds, i + 1, [], left + |queue|, capacity)))
  {
    var r := rounds[i];
    var left := if r.taken <= occupied then occupied - r.taken else 0;
    var queue := pending + r.arrived;
    if Dispatch(r.signal) == Stop {
      AppendEmpty(taken);
      AppendEmpty(replies);
    } else if left + |queue| > capacity {
      var room := capacity - left;
      var lost := queue[..room + 1];
      ThenLast(taken, replies, lost, ReplyOf(r), Panicked);
      ForwardedOfPanic(taken, lost, replies + ReplyOf(r), room);
      assert lost[..room] == queue[..room];
    } else if r.abandoned {
      ThenLast(taken, replies, queue, ReplyOf(r), Abandoned);
    } else {
      ThenThen(taken, replies, queue, ReplyOf(r), TrimDrive(rounds, i + 1, [], left + |queue|, capacity));
    }
  }

  /**
   * `TrimRound` read by how the iteration went: `stop` says a stop signal
   * came, `panicked` that the queue did not fit into the outport's room.
   */
  lemma RoundEnds(rounds: seq<Round>, i: nat, pending: seq<string>, occupied: nat, capacity: nat,
                  taken: seq<string>, replies: seq<string>, whole: Outcome,
                  queue: seq<string>, left: nat, stop: bool, panicked: bool)
    requires i < |rounds| && occupied <= capacity
    requires whole == Then(taken, replies, TrimDrive(rounds, i, pending, occupied, capacity))
    requires queue == pending + rounds[i].arrived
    requires left == if rounds[i].taken <= occupied then occupied - rounds[i].taken else 0
    requires stop <==> Dispatch(rounds[i].signal) == Stop
    requires !stop ==> (panicked <==> |queue| > capacity - left)
    ensures stop ==> whole == Outcome(Stopped, taken, replies) && Forwarded(whole) == taken
    ensures !stop && panicked ==>
              && whole.exit == Panicked && whole.taken == taken + queue[..capacity - left + 1]
              && whole.replies == replies + ReplyOf(rounds[i])
              && Forwarded(whole) == taken + queue[..capacity - left]
    ensures !stop && !panicked && rounds[i].abandoned ==>
              whole == Outcome(Abandoned, taken + queue, replies + ReplyOf(rounds[i]))
    ensures !stop && !panicked && !rounds[i].abandoned ==>
              whole == Then(taken + queue, replies + ReplyOf(rounds[i]), TrimDrive(rounds, i + 1, [], left + |queue|, capacity))
  {
    TrimRound(rounds, i, pending, occupied, capacity, taken, replies);
  }

  /** A run of Trim that does not panic is the run every component makes. */
  lemma {:induction false} TrimDriveWithoutPanic(rounds: seq<Round>, i: nat, pending: seq<string>, occupied: nat, capacity: nat)
    requires i <= |rounds| && occupied <= capacity
    requires TrimDrive(rounds, i, pending, occupied, capacity).exit != Panicked
    ensures TrimDrive(rounds, i, pending, occupied, capacity) == Drive(rounds, i, pending)
    decreases |rounds| - i
  {
    if i < |rounds| && Dispatch(rounds[i].signal) != Stop && !rounds[i].abandoned {
      var r := rounds[i];
      var left := if r.taken <= occupied then occupied - r.taken else 0;
      var queue := pending + r.arrived;
      if left + |queue| <= capacity {
        TrimDriveWithoutPanic(rounds, i + 1, [], left + |queue|, capacity);
      }
    }
  }

  /** A panic loses exactly one IP: the run has taken at least one. */
  lemma {:induction false} PanicTakesOne(rounds: seq<Round>, i: nat, pending: seq<string>, occupied: nat, capacity: nat)
    requires i <= |rounds| && occupied <= capacity
    requires TrimDrive(rounds, i, pending, occupied, capacity).exit == Panicked
    ensures TrimDrive(rounds, i, pending, occupied, capacity).taken != []
    decreases |rounds| - i
  {
    var r := rounds[i];
    var left := if r.taken <= occupied then occupied - r.taken else 0;
    var queue := pending + r.arrived;
    if left + |queue| <= capacity {
      PanicTakesOne(rounds, i + 1, [], left + |queue|, capacity);
    }
  }

  /** When the outport has room for everything still to come, Trim never panics. */
  lemma {:induction false} RoomMeansNoPanic(rounds: seq<Round>, i: nat, pending: seq<string>, occupied: nat, capacity: nat)
    requires i <= |rounds| && occupied + |pending| + |Arrivals(rounds, i, |rounds|)| <= capacity
    ensures TrimDrive(rounds, i, pending, occupied, capacity).exit != Panicked
    decreases |rounds| - i
  {
    if i < |rounds| {
      var r := rounds[i];
      var left := if r.taken <= occupied then occupied - r.taken else 0;
      var queue := pending + r.arrived;
      ArrivalsFront(rounds, i, |rounds|);
      RoomMeansNoPanic(rounds, i + 1, [], left + |queue|, capacity);
    }
  }

  /**
   * `TrimComponent`: its inport and outport ring buffers and the replies it
   * has sent on its signal output.
   */
  class TrimComponent {
    const inn: RingBuffer
    const out: RingBuffer
    var signalsOut: seq<string>

    predicate Valid()
      reads this, inn, out
    {
      inn != out && inn.Valid() && out.Valid()
    }

    constructor(inn: RingBuffer, out: RingBuffer)
      requires inn != out && inn.Valid() && out.Valid()
      ensures Valid() && this.inn == inn && this.out == out && signalsOut == []
    {
      this.inn := inn;
      this.out := out;
      signalsOut := [];
    }

    /**
     * The inner loop: pops until the inport is empty and pushes the trimmed
     * text of every IP. It panics when the outport has no room left, having
     * taken the IP it could not push.
     */
    method DrainInport() returns (panicked: bool)
      requires Valid()
      modifies inn, out
      ensures Valid() && out.popped == old(out.popped)
      ensures panicked <==> |old(inn.items)| > out.capacity - old(|out.items|)
      ensures !panicked ==> && inn.items == []
                            && inn.popped == old(inn.popped) + old(inn.items)
                            && out.items == old(out.items) + TrimAll(old(inn.items))
      ensures panicked ==> var room := out.capacity - old(|out.items|);
                           && inn.popped == old(inn.popped) + old(inn.items)[..room + 1]
                           && out.items == old(out.items) + TrimAll(old(inn.items)[..room])
    {
      ghost var done: seq<string> := [];
      ghost var room := out.capacity - |out.items|;
      while true
        invariant Valid() && out.popped == old(out.popped)
        invariant inn.popped == old(inn.popped) + done && done + inn.items == old(inn.items)
        invariant out.items == old(out.items) + TrimAll(done)
        invariant |out.items| == old(|out.items|) + |done|
        decreases |inn.items|
      {
        ghost var before := inn.items;
        var ip := inn.Pop();
        if ip.None? {
          AppendEmpty(done);
          return false;
        }
        HeadTail(before);
        AppendAssoc(done, [ip.value], inn.items);
        AppendAssoc(old(inn.popped), done, [ip.value]);
        var ok := out.Push(Trim(ip.value));
        if !ok {
          PrefixOfAppend(done + [ip.value], inn.items, old(inn.items));
          PrefixOfAppend(done, [ip.value] + inn.items, old(inn.items));
          return true;
        }
        MapConcat(Trim, done, [ip.value]);
        assert Map(Trim, [ip.value]) == [Trim(ip.value)] by { assert [ip.value][..0] == []; }
        AppendAssoc(old(out.items), TrimAll(done), [Trim(ip.value)]);
        done := done + [ip.value];
      }
    }

    /** What the run has shown so far: the IPs taken, those forwarded trimmed, the replies. */
    ghost predicate Shows(popped0: seq<string>, stream0: seq<string>, signals0: seq<string>,
                          taken: seq<string>, forwarded: seq<string>, replies: seq<string>)
      reads this, inn, out
    {
      && inn.popped == popped0 + taken
      && out.Stream() == stream0 + TrimAll(forwarded)
      && signalsOut == signals0 + replies
    }

    /**
     * One iteration of the run loop after the other threads have acted: a
     * stop signal ends it at once; otherwise a ping is answered and the
     * inport drained, which panics when the outport has too little room.
     */
    method Iterate(r: Round) returns (stop: bool, panicked: bool)
      requires Valid() && |inn.items| + |r.arrived| <= inn.capacity
      modifies this, inn, out
      ensures Valid()
      ensures stop <==> Dispatch(r.signal) == Stop
      ensures stop ==> inn.popped == old(inn.popped) && out.Stream() == old(out.Stream()) && signalsOut == old(signalsOut)
      ensures var left := if r.taken <= old(|out.items|) then old(|out.items|) - r.taken else 0;
              var queue := old(inn.items) + r.arrived;
              var room := out.capacity - left;
              !stop ==> && (panicked <==> |queue| > room)
                        && signalsOut == old(signalsOut) + ReplyOf(r)
                        && (!panicked ==> && inn.items == [] && |out.items| == left + |queue|
                                          && inn.popped == old(inn.popped) + queue
                                          && out.Stream() == old(out.Stream()) + TrimAll(queue))
                        && (panicked ==> && inn.popped == old(inn.popped) + queue[..room + 1]
                                         && out.Stream() == old(out.Stream()) + TrimAll(queue[..room]))
    {
      Receive(r);
      if Dispatch(r.signal) == Stop {
        return true, false;
      }
      panicked := Answer(r);
      return false, panicked;
    }

    /** An iteration that was not stopped: a ping is answered, then the inport drained. */
    method Answer(r: Round) returns (panicked: bool)
      requires Valid() && Dispatch(r.signal) != Stop
      modifies this, inn, out
      ensures Valid()
      ensures var queue := old(inn.items);
              var room := out.capacity - old(|out.items|);
              && (panicked <==> |queue| > room)
              && signalsOut == old(signalsOut) + ReplyOf(r)
              && (!panicked ==> && inn.items == [] && |out.items| == old(|out.items|) + |queue|
                                && inn.popped == old(inn.popped) + queue
                                && out.Stream() == old(out.Stream()) + TrimAll(queue))
              && (panicked ==> && inn.popped == old(inn.popped) + queue[..room + 1]
                               && out.Stream() == old(out.Stream()) + TrimAll(queue[..room]))
    {
      if Dispatch(r.signal) == Pong {
        signalsOut := signalsOut + [PongReply];
      }
      ghost var queue, popped, items := inn.items, out.popped, out.items;
      panicked := DrainInport();
      AppendAssoc(popped, items, TrimAll(if panicked then queue[..out.capacity - |items|] else queue));
    }

    /** What the other threads did before an iteration: IPs arrived upstream, some taken downstream. */
    method Receive(r: Round)
      requires Valid() && |inn.items| + |r.arrived| <= inn.capacity
      modifies inn, out
      ensures Valid() && inn.items == old(inn.items) + r.arrived && inn.popped == old(inn.popped)
      ensures out.Stream() == old(out.Stream())
      ensures |out.items| == if r.taken <= old(|out.items|) then old(|out.items|) - r.taken else 0
    {
      inn.PushAll(r.arrived);
      out.Take(r.taken);
    }

    /** `Iterate`, accounted against everything shown so far. */
    method Step(r: Round, ghost popped0: seq<string>, ghost stream0: seq<string>, ghost signals0: seq<string>,
                ghost taken: seq<string>, ghost replies: seq<string>, ghost queue: seq<string>, ghost left: nat)
      returns (stop: bool, panicked: bool)
      requires Valid() && |inn.items| + |r.arrived| <= inn.capacity
      requires Shows(popped0, stream0, signals0, taken, taken, replies)
      requires queue == inn.items + r.arrived
      requires left == if r.taken <= |out.items| then |out.items| - r.taken else 0
      modifies this, inn, out
      ensures Valid()
      ensures stop <==> Dispatch(r.signal) == Stop
      ensures stop ==> Shows(popped0, stream0, signals0, taken, taken, replies)
      ensures !stop ==> (panicked <==> |queue| > out.capacity - left)
      ensures !stop && !panicked ==> && inn.items == [] && |out.items| == left + |queue|
                                     && Shows(popped0, stream0, signals0, taken + queue, taken + queue, replies + ReplyOf(r))
      ensures !stop && panicked ==> var room := out.capacity - left;
                Shows(popped0, stream0, signals0, taken + queue[..room + 1], taken + queue[..room], replies + ReplyOf(r))
    {
      ghost var room := out.capacity - left;
      stop, panicked := Iterate(r);
      if !stop {
        ghost var took := if panicked then queue[..room + 1] else queue;
        ghost var sent := if panicked then queue[..room] else queue;
        AppendAssoc(signals0, replies, ReplyOf(r));
        AppendAssoc(popped0, taken, took);
        MapConcat(Trim, taken, sent);
        AppendAssoc(stream0, TrimAll(taken), TrimAll(sent));
      }
    }

    /**
     * Round `i` of a run whose outcome is `whole`: either the run ends here,
     * as `whole` says, or it goes on to round `i + 1` with everything shown
     * so far accounted for.
     */
    method Advance(rounds: seq<Round>, i: nat, ghost whole: Outcome,
                   ghost popped0: seq<string>, ghost stream0: seq<string>, ghost signals0: seq<string>,
                   ghost taken: seq<string>, ghost replies: seq<string>)
      returns (done: bool, exit: Exit, ghost taken': seq<string>, ghost forwarded': seq<string>, ghost replies': seq<string>)
      requires i < |rounds| && Valid() && |inn.items| + |rounds[i].arrived| <= inn.capacity
      requires whole == Then(taken, replies, TrimDrive(rounds, i, inn.items, |out.items|, out.capacity))
      requires Shows(popped0, stream0, signals0, taken, taken, replies)
      modifies this, inn, out
      ensures Valid() && Shows(popped0, stream0, signals0, taken', forwarded', replies')
      ensures !done ==> && inn.items == [] && forwarded' == taken'
                        && whole == Then(taken', replies', TrimDrive(rounds, i + 1, [], |out.items|, out.capacity))
                        && Dispatch(rounds[i].signal) != Stop && !rounds[i].abandoned
      ensures done ==> && exit == whole.exit && exit != Waiting
                       && taken' == whole.taken && forwarded' == Forwarded(whole) && replies' == whole.replies
                       && (exit == Stopped ==> Dispatch(rounds[i].signal) == Stop)
                       && (exit == Abandoned ==> inn.items == [] && rounds[i].abandoned)
    {
      var r := rounds[i];
      ghost var before, occ := inn.items, |out.items|;
      ghost var queue := before + r.arrived;
      ghost var capacity := out.capacity;
      ghost var left := if r.taken <= occ then occ - r.taken else 0;
      ghost var room := capacity - left;
      var stop, panicked := Step(r, popped0, stream0, signals0, taken, replies, queue, left);
      if stop {
        assert whole == Outcome(Stopped, taken, replies) && Forwarded(whole) == taken by {
          RoundEnds(rounds, i, before, occ, capacity, taken, replies, whole, queue, left, stop, panicked);
        }
        return true, Stopped, taken, taken, replies;
      }
      if panicked {
        assert && whole.exit == Panicked && whole.taken == taken + queue[..room + 1]
               && whole.replies == replies + ReplyOf(r) && Forwarded(whole) == taken + queue[..room] by {
          RoundEnds(rounds, i, before, occ, capacity, taken, replies, whole, queue, left, stop, panicked);
        }
        return true, Panicked, taken + queue[..room + 1], taken + queue[..room], replies + ReplyOf(r);
      }
      taken', replies' := taken + queue, replies + ReplyOf(r);
      if r.abandoned {
        assert whole == Outcome(Abandoned, taken', replies') by {
          RoundEnds(rounds, i, before, occ, capacity, taken, replies, whole, queue, left, stop, panicked);
        }
        return true, Abandoned, taken', taken', replies';
      }
      assert whole == Then(taken', replies', TrimDrive(rounds, i + 1, [], |out.items|, out.capacity)) by {
        RoundEnds(rounds, i, before, occ, capacity, taken, replies, whole, queue, left, stop, panicked);
      }
      return false, Waiting, taken', taken', replies';
    }

    /** The upstream component pushes `lost` into the drained inport and goes away. */
    method LeaveInport(lost: seq<string>, ghost popped0: seq<string>, ghost stream0: seq<string>, ghost signals0: seq<string>,
                       ghost taken: seq<string>, ghost forwarded: seq<string>, ghost replies: seq<string>)
      requires Valid() && inn.items == [] && |lost| <= inn.capacity
      requires Shows(popped0, stream0, signals0, taken, forwarded, replies)
      modifies inn
      ensures Valid() && inn.items == lost
      ensures Shows(popped0, stream0, signals0, taken, forwarded, replies)
    {
      inn.PushAll(lost);
    }

    /**
     * The run loop over the given rounds: which way it ends, the IPs it takes
     * from the inport and the replies it sends are those `TrimDrive`
     * describes, and the outport receives the trimmed text of every IP taken,
     * in order, except the one lost in a panic. `ended` is the round the loop
     * ended in. When it ends because the upstream side is gone, the inport
     * holds exactly the IPs pushed after that round's drain, which nobody
     * takes.
     */
    method Run(rounds: seq<Round>) returns (exit: Exit, ended: nat)
      requires Valid()
      requires |rounds| > 0 ==> |inn.items| + |rounds[0].arrived| <= inn.capacity
      requires forall i :: 1 <= i < |rounds| ==> |rounds[i].arrived| <= inn.capacity
      requires forall i :: 0 <= i < |rounds| && rounds[i].abandoned ==> |rounds[i].lost| <= inn.capacity
      modifies this, inn, out
      ensures Valid()
      ensures var o := TrimDrive(rounds, 0, old(inn.items), old(|out.items|), out.capacity);
              && exit == o.exit
              && inn.popped == old(inn.popped) + o.taken
              && out.Stream() == old(out.Stream()) + TrimAll(Forwarded(o))
              && signalsOut == old(signalsOut) + o.replies
      ensures exit == Waiting ==> ended == |rounds|
      ensures exit == Stopped ==> RunsThrough(rounds, 0, ended) && Dispatch(rounds[ended].signal) == Stop
      ensures exit == Abandoned ==> RunsThrough(rounds, 0, ended) && rounds[ended].abandoned && inn.items == rounds[ended].lost
    {
      ghost var pending := inn.items;
      ghost var whole := TrimDrive(rounds, 0, pending, |out.items|, out.capacity);
      ghost var taken: seq<string> := [];
      ghost var replies: seq<string> := [];
      ThenLast([], [], whole.taken, whole.replies, whole.exit);
      AppendEmpty(inn.popped);
      AppendEmpty(out.Stream());
      AppendEmpty(signalsOut);
      var i := 0;
      while i < |rounds|
        invariant i <= |rounds| && Valid()
        invariant (i == 0 ==> inn.items == pending) && (i > 0 ==> inn.items == [])
        invariant forall k :: 0 <= k < i ==> Dispatch(rounds[k].signal) != Stop && !rounds[k].abandoned
        invariant whole == Then(taken, replies, TrimDrive(rounds, i, inn.items, |out.items|, out.capacity))
        invariant Shows(old(inn.popped), old(out.Stream()), old(signalsOut), taken, taken, replies)
        decreases |rounds| - i
      {
        var done;
        ghost var forwarded;
        done, exit, taken, forwarded, replies := Advance(rounds, i, whole, old(inn.popped), old(out.Stream()), old(signalsOut), taken, replies);
        if done {
          if exit == Abandoned {
            LeaveInport(rounds[i].lost, old(inn.popped), old(out.Stream()), old(signalsOut), taken, forwarded, replies);
          }
          return exit, i;
        }
        i := i + 1;
      }
      ThenLast(taken, replies, [], [], Waiting);
      AppendEmpty(taken);
      AppendEmpty(replies);
      return Waiting, |rounds|;
    }
  }
}
