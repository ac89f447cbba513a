/**
 * The example component examples/header-set-regex: it reads its
 * configuration from the `CONF` IIP (a header field name, a debug switch and
 * a regular expression), then forwards every frame of its input to port
 * `OUT`, setting the configured extension header to the first submatch of
 * the expression in the body, until a `control.PortClose` frame arrives.
 * The regular expression engine is a parameter: `matcher(body)` is what
 * `FindSubmatch` returns, None for Go's nil, otherwise the whole match
 * followed by the submatches.
 */
module HeaderSetRegex {
  import opened Wrappers
  import opened Text
  import opened Framing

  //
  // Configuration from the IIP
  //

  const FieldFlag: Bytes := "field"
  const DebugFlag: Bytes := "debug"
  const HelpFlag: Bytes := "help"
  const ShortHelpFlag: Bytes := "h"
  const DefaultField: Bytes := "myfield"
  const TrueWords: set<Bytes> := {"1", "t", "T", "TRUE", "true", "True"}
  const FalseWords: set<Bytes> := {"0", "f", "F", "FALSE", "false", "False"}

  /** The settings the component runs with. */
  datatype Config = Config(field: Bytes, debug: bool, expr: Bytes)

  /** Why the configuration is refused; the component then exits with status 2. */
  datatype ConfigError =
    | BadFlagSyntax(arg: Bytes)          // "bad flag syntax: ..."
    | HelpRequested                      // `-h` or `-help`: flag.ErrHelp
    | UndefinedFlag(name: Bytes)         // "flag provided but not defined: ..."
    | InvalidBoolean(value: Bytes)       // "invalid boolean value ... for -debug"
    | MissingFlagValue(name: Bytes)      // "flag needs an argument: ..."
    | MissingExpression                  // "missing regular expression"
    | ExpressionDoesNotCompile(expr: Bytes)

  /** `strconv.ParseBool`, as the flag package uses it for `-debug=value`. */
  function ParseBool(v: Bytes): (r: Option<bool>)
    ensures r == Some(true) <==> v in TrueWords
    ensures r == Some(false) <==> v in FalseWords
  {
    if v in TrueWords then Some(true) else if v in FalseWords then Some(false) else None
  }

  /** What one flag argument does: the two flag values after it, and how many arguments it used. */
  datatype Setting = Setting(field: Bytes, debug: bool, used: nat)

  /**
   * The flag `name` (the first argument without its leading dashes): its
   * value follows a '=' and, for the string flag `-field` only, may instead
   * be the next argument.
   */
  function ApplyFlag(name: Bytes, args: seq<Bytes>, field: Bytes, debug: bool): (r: Result<Setting, ConfigError>)
    requires args != []
    ensures r.Success? ==> 1 <= r.value.used <= |args|
  {
    var split := SplitFirst<Byte>(name, '=');
    var flag := if split.Some? then split.value.0 else name;
    if flag == DebugFlag then
      if split.None? then Success(Setting(field, true, 1))
      else
        match ParseBool(split.value.1)
        case None => Failure(InvalidBoolean(split.value.1))
        case Some(b) => Success(Setting(field, b, 1))
    else if flag == FieldFlag then
      if split.Some? then Success(Setting(split.value.1, debug, 1))
      else if |args| < 2 then Failure(MissingFlagValue(flag))
      else Success(Setting(args[1], debug, 2))
    else if flag == HelpFlag || flag == ShortHelpFlag then Failure(HelpRequested)
    else Failure(UndefinedFlag(flag))
  }

  /**
   * A `flag.FlagSet` with the string flag `-field` and the boolean flag
   * `-debug`, parsing `args` with ContinueOnError: flags are read until the
   * first argument that is not one (shorter than two bytes or not starting
   * with '-') or until a `--`, which is consumed. The result is the two flag
   * values and the free arguments.
   */
  function ParseFlags(args: seq<Bytes>, field: Bytes, debug: bool): (r: Result<(Bytes, bool, seq<Bytes>), ConfigError>)
    ensures r.Success? ==> IsSuffixOf(r.value.2, args)
    decreases |args|
  {
    if args == [] then Success((field, debug, []))
    else
      var s := args[0];
      if |s| < 2 || s[0] != '-' then Success((field, debug, args))
      else if s[1] == '-' && |s| == 2 then
        ConsumedSuffix(args, 1, args[1..]);
        Success((field, debug, args[1..]))
      else
        var name := if s[1] == '-' then s[2..] else s[1..];
        if name[0] == '-' || name[0] == '=' then Failure(BadFlagSyntax(s))
        else
          match ApplyFlag(name, args, field, debug)
          case Failure(e) => Failure(e)
          case Success(st) =>
            var r := ParseFlags(args[st.used..], st.field, st.debug);
            if r.Success? then ConsumedSuffix(args, st.used, r.value.2); r else r
  }

  /** A suffix of what is left after consuming `n` arguments is a suffix of all of them. */
  lemma ConsumedSuffix(args: seq<Bytes>, n: nat, t: seq<Bytes>)
    requires n <= |args| && IsSuffixOf(t, args[n..])
    ensures IsSuffixOf(t, args)
  {
    assert args[..n] + args[n..] == args;
    SuffixOfConcat(args[..n], args[n..]);
    SuffixTransitive(t, args[n..], args);
  }

  /**
   * The IIP handling of main: split the IIP at every single space, parse the
   * flags, join the free arguments with spaces into the expression (it may
   * contain spaces) and compile it; `compiles` stands for `regexp.Compile`
   * succeeding. The expression is always the end of the IIP.
   */
  function Configure(iip: Bytes, compiles: Bytes -> bool): (r: Result<Config, ConfigError>)
    ensures r.Success? ==> compiles(r.value.expr) && IsSuffixOf(r.value.expr, iip)
    ensures var p := ParseFlags(Split<Byte>(iip, ' '), DefaultField, false);
      && (p.Failure? ==> r == Failure(p.error))
      && (p.Success? && p.value.2 == [] ==> r == Failure(MissingExpression))
      && (p.Success? && p.value.2 != [] ==>
            var expr := Join<Byte>(p.value.2, ' ');
            r == if compiles(expr) then Success(Config(p.value.0, p.value.1, expr))
                 else Failure(ExpressionDoesNotCompile(expr)))
  {
    var args := Split<Byte>(iip, ' ');
    match ParseFlags(args, DefaultField, false)
    case Failure(e) => Failure(e)
    case Success((field, debug, free)) =>
      if |free| == 0 then Failure(MissingExpression)
      else
        var expr := Join<Byte>(free, ' ');
        JoinOfSplitSuffix<Byte>(iip, free, ' ');
        if compiles(expr) then Success(Config(field, debug, expr))
        else Failure(ExpressionDoesNotCompile(expr))
  }

  /** The first piece of a split is where the text starts. */
  lemma SplitHead(s: Bytes)
    ensures var w := Split<Byte>(s, ' ')[0]; |w| <= |s| && w == s[..|w|]
  {
    match SplitFirst<Byte>(s, ' ')
    case None =>
    case Some((a, b)) =>
      assert Split<Byte>(s, ' ')[0] == a;
      PrefixOfAppend(a, [' '] + b, s);
  }

  /**
   * An IIP that does not start with '-' has no flags: the whole IIP, spaces
   * included, is the expression, with the default field and no debug output.
   * The empty IIP is one of them: it configures the empty expression rather
   * than reporting a missing one.
   */
  lemma PlainExpression(iip: Bytes, compiles: Bytes -> bool)
    requires iip == [] || iip[0] != '-'
    ensures Configure(iip, compiles)
         == if compiles(iip) then Success(Config(DefaultField, false, iip)) else Failure(ExpressionDoesNotCompile(iip))
  {
    var args := Split<Byte>(iip, ' ');
    SplitHead(iip);
    assert |args[0]| < 2 || args[0][0] != '-';
    assert ParseFlags(args, DefaultField, false) == Success((DefaultField, false, args));
    JoinSplit<Byte>(iip, ' ');
  }

  /** The prefix of the one-argument form of the `-field` flag. */
  const FieldAssign: Bytes := "-field="

  lemma FieldAssignShape()
    ensures ' ' !in FieldAssign && FieldAssign == ['-'] + FieldFlag + ['=']
  {
    assert FieldAssign == ['-', 'f', 'i', 'e', 'l', 'd', '='];
  }

  /** `-field=<name>` sets the field to `name` and parsing goes on with the next argument. */
  lemma FieldArgument(name: Bytes, more: seq<Bytes>, field: Bytes, debug: bool)
    ensures ParseFlags([FieldAssign + name] + more, field, debug) == ParseFlags(more, name, debug)
  {
    FieldAssignShape();
    var args := [FieldAssign + name] + more;
    var s := args[0];
    assert s[0] == '-' && s[1] == 'f' && |s| >= 2;
    assert s[1..] == FieldFlag + ['='] + name;
    SplitFirstOfJoin<Byte>(FieldFlag, '=', name);
    assert ApplyFlag(s[1..], args, field, debug) == Success(Setting(name, debug, 1));
    assert args[1..] == more;
  }

  /**
   * `-field=<name> <expression>`: the named field is set, and the rest of
   * the IIP after the first space is the expression.
   */
  lemma FieldThenExpression(name: Bytes, expr: Bytes, compiles: Bytes -> bool)
    requires ' ' !in name && expr != [] && expr[0] != '-'
    ensures Configure(FieldAssign + name + " " + expr, compiles)
         == if compiles(expr) then Success(Config(name, false, expr)) else Failure(ExpressionDoesNotCompile(expr))
  {
    FieldAssignShape();
    var flag: Bytes := FieldAssign + name;
    assert ' ' !in flag;
    assert flag + " " + expr == flag + [' '] + expr;
    SplitFirstOfJoin<Byte>(flag, ' ', expr);
    var more := Split<Byte>(expr, ' ');
    assert Split<Byte>(flag + " " + expr, ' ') == [flag] + more;
    FieldArgument(name, more, DefaultField, false);
    SplitHead(expr);
    assert |more[0]| < 2 || more[0][0] != '-';
    assert ParseFlags(more, name, false) == Success((name, false, more));
    JoinSplit<Byte>(expr, ' ');
  }

  //
  // The frame loop
  //

  const ControlType: Bytes := "control"
  const PortCloseType: Bytes := "PortClose"
  const OutPort: Bytes := "OUT"

  /** The notification that the input port was closed. */
  predicate IsPortClose(f: Frame)
  {
    f.typ == ControlType && f.bodyType == PortCloseType
  }

  /** How the frame loop ends. */
  datatype Exit =
    | PortClosed                     // a PortClose frame: main returns
    | EndOfInput                     // ParseFrame returned io.EOF: main returns
    | ReadFailed(error: ErrorValue)  // any other ParseFrame error: os.Exit(1)
    | NoSubmatch                     // `matches[1]` out of range: a runtime panic

  /**
   * The frame forwarded for `f`: on a match with submatch `sub`, the
   * extension `field` is set to it (a nil extension map is made first) and
   * every other extension stays; without a match the extensions stay as they
   * are. In both cases the port becomes `OUT` and nothing else changes.
   */
  function Rewritten(f: Frame, field: Bytes, sub: Option<Bytes>): (g: Frame)
    ensures g.port == OutPort
    ensures g.(port := f.port, extensions := f.extensions) == f
    ensures sub.None? ==> g.extensions == f.extensions
    ensures sub.Some? ==>
      && g.extensions.Some? && field in g.extensions.value && g.extensions.value[field] == sub.value
      && forall k :: k != field ==>
           && (k in g.extensions.value <==> f.extensions.Some? && k in f.extensions.value)
           && (k in g.extensions.value ==> g.extensions.value[k] == f.extensions.value[k])
  {
    var ext := match sub
      case None => f.extensions
      case Some(v) => Some((if f.extensions.None? then map[] else f.extensions.value)[field := v]);
    f.(extensions := ext, port := OutPort)
  }

  /** The outcome of the frame loop: how it ended and the frames it forwarded. */
  datatype Filtered = Filtered(exit: Exit, forwarded: seq<Frame>)

  function Prepend(f: Frame, r: Filtered): Filtered
  {
    Filtered(r.exit, [f] + r.forwarded)
  }

  /**
   * The frame loop over the input stream `s`. A read error ends it (and
   * since ParseFrame never returns `io.EOF` itself, the loop never ends by
   * the `io.EOF` test), so does a PortClose frame, which is not forwarded;
   * every other frame is forwarded rewritten.
   */
  function Filter(s: Bytes, field: Bytes, matcher: Bytes -> Option<seq<Bytes>>): (r: Filtered)
    ensures r.exit != EndOfInput
    decreases |s|
  {
    var p := Parse(s);
    if p.Failure? then Filtered(ReadFailed(p.error), [])
    else
      var f, rest := p.value.0, p.value.1;
      var m := matcher(f.body);
      if IsPortClose(f) then Filtered(PortClosed, [])
      else if m.None? then Prepend(Rewritten(f, field, None), Filter(rest, field, matcher))
      else if |m.value| < 2 then Filtered(NoSubmatch, [])
      else Prepend(Rewritten(f, field, Some(m.value[1])), Filter(rest, field, matcher))
  }

  /**
   * The loop of main as it runs: parse a frame, stop on PortClose, set the
   * field from the submatch, set the port, marshal. `out` is what the loop
   * writes to the buffered standard output.
   */
  method FilterStream(stream: Bytes, field: Bytes, matcher: Bytes -> Option<seq<Bytes>>)
      returns (exit: Exit, out: Bytes, ghost orders: seq<seq<Bytes>>)
    ensures exit == Filter(stream, field, matcher).exit && exit != EndOfInput
    ensures OrdersFor(Filter(stream, field, matcher).forwarded, orders)
    ensures out == Wires(Filter(stream, field, matcher).forwarded, orders)
  {
    var rest := stream;
    out := [];
    orders := [];
    ghost var forwarded: seq<Frame> := [];
    while true
      invariant OrdersFor(forwarded, orders) && out == Wires(forwarded, orders)
      invariant Filter(stream, field, matcher).exit == Filter(rest, field, matcher).exit
      invariant Filter(stream, field, matcher).forwarded == forwarded + Filter(rest, field, matcher).forwarded
      decreases |rest|
    {
      var r := ParseFrame(rest);
      if r.Failure? {
        if r.error == IoEOF {
          exit := EndOfInput;
          break;
        }
        exit := ReadFailed(r.error);
        AppendEmpty(forwarded);
        break;
      }
      var frame := r.value.0;
      if frame.typ == ControlType && frame.bodyType == PortCloseType {
        exit := PortClosed;
        AppendEmpty(forwarded);
        break;
      }
      ghost var read := frame;
      var matches := matcher(frame.body);
      if matches.Some? {
        if |matches.value| < 2 {
          exit := NoSubmatch;
          AppendEmpty(forwarded);
          break;
        }
        if frame.extensions.None? {
          frame := frame.(extensions := Some(map[]));
        }
        frame := frame.(extensions := Some(frame.extensions.value[field := matches.value[1]]));
      }
      frame := frame.(port := OutPort);
      assert frame == Rewritten(read, field, if matches.Some? then Some(matches.value[1]) else None);
      out, orders := MarshalNext(out, forwarded, orders, frame);
      AppendAssoc(forwarded, [frame], Filter(r.value.1, field, matcher).forwarded);
      forwarded := forwarded + [frame];
      rest := r.value.1;
    }
  }

  //
  // Properties of the loop
  //

  /** Frames sent to `OUT` that are not PortClose notifications. */
  predicate Relayed(fs: seq<Frame>)
  {
    forall i :: 0 <= i < |fs| ==> fs[i].port == OutPort && !IsPortClose(fs[i])
  }

  /** Every forwarded frame goes to `OUT`, and no PortClose frame is forwarded. */
  lemma {:induction false} ForwardedFrames(s: Bytes, field: Bytes, matcher: Bytes -> Option<seq<Bytes>>)
    ensures Relayed(Filter(s, field, matcher).forwarded)
    decreases |s|
  {
    var p := Parse(s);
    if p.Success? && !IsPortClose(p.value.0) && Answers(matcher(p.value.0.body)) {
      var f, rest := p.value.0, p.value.1;
      ForwardedFrames(rest, field, matcher);
      var g := Rewritten(f, field, Submatch(matcher(f.body)));
      var t := Filter(rest, field, matcher).forwarded;
      assert Filter(s, field, matcher).forwarded == [g] + t;
      assert g.typ == f.typ && g.bodyType == f.bodyType;
      RelayedCons(g, t);
    }
  }

  lemma RelayedCons(g: Frame, t: seq<Frame>)
    requires g.port == OutPort && !IsPortClose(g) && Relayed(t)
    ensures Relayed([g] + t)
  {
    assert forall i :: 0 < i < |[g] + t| ==> ([g] + t)[i] == t[i - 1];
  }

  /** The submatch a FindSubmatch result provides, when it provides one. */
  predicate Answers(m: Option<seq<Bytes>>)
  {
    m.None? || |m.value| >= 2
  }

  function Submatch(m: Option<seq<Bytes>>): Option<Bytes>
    requires Answers(m)
  {
    if m.None? then None else Some(m.value[1])
  }

  /** The frames `fs`, each rewritten by the submatch of its body. */
  function RewriteAll(fs: seq<Frame>, field: Bytes, matcher: Bytes -> Option<seq<Bytes>>): (r: seq<Frame>)
    requires forall i :: 0 <= i < |fs| ==> Forwardable(fs[i], matcher)
    ensures |r| == |fs|
  {
    if fs == [] then []
    else
      assert Forwardable(fs[0], matcher);
      [Rewritten(fs[0], field, Submatch(matcher(fs[0].body)))] + RewriteAll(fs[1..], field, matcher)
  }

  /** A frame the loop forwards and goes on after: not a PortClose notification, and no submatch missing. */
  predicate Forwardable(f: Frame, matcher: Bytes -> Option<seq<Bytes>>)
  {
    !IsPortClose(f) && Answers(matcher(f.body))
  }

  /**
   * For an input that holds the frames `fs` and then a PortClose
   * notification, the component forwards exactly those frames, rewritten,
   * in order, and ends at the notification.
   */
  lemma {:induction false} ForwardsUntilPortClose(s: Bytes, fs: seq<Frame>, closing: Bytes,
                                                  field: Bytes, matcher: Bytes -> Option<seq<Bytes>>)
    requires ParsesAs(s, fs, closing) && forall i :: 0 <= i < |fs| ==> Forwardable(fs[i], matcher)
    requires Parse(closing).Success? && IsPortClose(Parse(closing).value.0)
    ensures Filter(s, field, matcher) == Filtered(PortClosed, RewriteAll(fs, field, matcher))
    decreases |fs|
  {
    if fs != [] {
      var rest := Parse(s).value.1;
      assert ParsesAs(rest, fs[1..], closing) && forall i :: 0 <= i < |fs[1..]| ==> Forwardable(fs[1..][i], matcher) by {
        forall i | 0 <= i < |fs[1..]| ensures Forwardable(fs[1..][i], matcher) { assert fs[1..][i] == fs[i + 1]; }
      }
      ForwardsUntilPortClose(rest, fs[1..], closing, field, matcher);
      var g := Rewritten(fs[0], field, Submatch(matcher(fs[0].body)));
      assert Filter(s, field, matcher) == Prepend(g, Filter(rest, field, matcher)) by {
        assert Forwardable(fs[0], matcher) && Parse(s).value.0 == fs[0];
      }
      assert RewriteAll(fs, field, matcher) == [g] + RewriteAll(fs[1..], field, matcher);
    }
  }

  /** The same for a marshalled stream: well-formed frames written by Marshal, then the notification. */
  lemma ForwardsMarshalledUntilPortClose(fs: seq<Frame>, orders: seq<seq<Bytes>>, closing: Bytes,
                                         field: Bytes, matcher: Bytes -> Option<seq<Bytes>>)
    requires OrdersFor(fs, orders) && forall i :: 0 <= i < |fs| ==> WellFormed(fs[i]) && Forwardable(fs[i], matcher)
    requires Parse(closing).Success? && IsPortClose(Parse(closing).value.0)
    ensures Filter(Wires(fs, orders) + closing, field, matcher) == Filtered(PortClosed, RewriteAll(fs, field, matcher))
  {
    WiresParse(fs, orders, closing);
    ForwardsUntilPortClose(Wires(fs, orders) + closing, fs, closing, field, matcher);
  }
}
