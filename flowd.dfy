/**
 * The deterministic core of the flowd orchestrator (flowd/flowd.go):
 *   - the argument vector `startInstance` builds for a component subprocess,
 *     with the named-pipe path chosen for each of its ports;
 *   - the dependency report of `flowd -deps`;
 *   - the supervisor loop of `main` that waits until every launched process
 *     has exited and had its output drained.
 *
 * Go maps are iterated in an unspecified order; the loops over them here pick
 * an arbitrary remaining key (`:|`), and a method whose result depends on the
 * order it happened to take reports that choice in a ghost out-parameter.
 */
module Flowd {
  import opened Wrappers
  import opened Text

  /** A port a process reads from. */
  datatype InPort = InPort(localPort: Bytes)

  /** A port a process writes to, and the process and port it is connected to. */
  datatype OutPort = OutPort(localPort: Bytes, remoteProc: Bytes, remotePort: Bytes)

  /** An initial information packet: destination port and literal data. */
  datatype IIP = IIP(port: Bytes, data: Bytes)

  /** The static definition of one process of the network. */
  datatype Process = Process(name: Bytes, path: Bytes, inPorts: seq<InPort>, outPorts: seq<OutPort>, iips: seq<IIP>)

  /** A process and one of its ports, as a graph INPORT or OUTPORT names it. */
  datatype Endpoint = Endpoint(process: Bytes, port: Bytes)

  /**
   * The graph boundary: the network's INPORTs (name -> the process port they
   * feed) and OUTPORTs (name -> the process port feeding them), and the paths
   * supplied for them on flowd's command line (`unixfbp.InPorts[name].Path`,
   * `unixfbp.OutPorts[name].Path`).
   */
  datatype Boundary = Boundary(
    inports: map<Bytes, Endpoint>,
    outports: map<Bytes, Endpoint>,
    inPath: Bytes -> Bytes,
    outPath: Bytes -> Bytes)

  const ShmPrefix: Bytes := "/dev/shm/"
  const InportFlag: Bytes := "-inport"
  const InpathFlag: Bytes := "-inpath"
  const OutportFlag: Bytes := "-outport="
  const OutpathFlag: Bytes := "-outpath="
  const ArgsPort: Bytes := "ARGS"

  /**
   * The named pipe flowd creates for an internal connection ending at
   * `proc`.`port`: a file in `/dev/shm/`, named by the process and the port
   * joined by a dot.
   */
  function FifoPath(proc: Bytes, port: Bytes): (r: Bytes)
    ensures ShmPrefix <= r && |r| == |ShmPrefix| + |proc| + 1 + |port|
    ensures r[|ShmPrefix|..|ShmPrefix| + |proc|] == proc && r[|ShmPrefix| + |proc|] == '.' && r[|ShmPrefix| + |proc| + 1..] == port
  {
    ShmPrefix + proc + "." + port
  }

  /** Processes whose names hold no dot never share a named pipe unless the ports agree too. */
  lemma FifoPathsDistinct(a: Bytes, x: Bytes, c: Bytes, y: Bytes)
    requires '.' !in a && '.' !in c
    ensures FifoPath(a, x) == FifoPath(c, y) <==> a == c && x == y
  {
  }

  // ---------------------------------------------------------------------------
  // Pipe paths
  // ---------------------------------------------------------------------------

  /**
   * `found` is what the search of a boundary map for `target` may return: a
   * boundary port attached to `target`, or None exactly when there is none.
   */
  predicate IsSearchResult(ports: map<Bytes, Endpoint>, target: Endpoint, found: Option<Bytes>)
  {
    match found
    case Some(n) => n in ports && ports[n] == target
    case None => forall n :: n in ports ==> ports[n] != target
  }

  /** Whether no non-empty boundary path applies, so that flowd makes a named pipe. */
  predicate MakesFifo(supplied: Bytes -> Bytes, found: Option<Bytes>)
  {
    found.None? || supplied(found.value) == []
  }

  /** The path of a port: the supplied boundary path, or else the named pipe `fifo`. */
  function PortPath(supplied: Bytes -> Bytes, found: Option<Bytes>, fifo: Bytes): Bytes
  {
    if MakesFifo(supplied, found) then fifo else supplied(found.value)
  }

  /** The path of inport `port` of process `proc`; its pipe is named after the process itself. */
  function InPath(b: Boundary, found: Option<Bytes>, proc: Bytes, port: InPort): Bytes
  {
    PortPath(b.inPath, found, FifoPath(proc, port.localPort))
  }

  /** The path of an outport; its pipe is named after the process and port it feeds. */
  function OutPath(b: Boundary, found: Option<Bytes>, port: OutPort): Bytes
  {
    PortPath(b.outPath, found, FifoPath(port.remoteProc, port.remotePort))
  }

  /** Finds a boundary port attached to `target`, visiting the map in any order. */
  method FindBoundary(ports: map<Bytes, Endpoint>, target: Endpoint) returns (found: Option<Bytes>)
    ensures IsSearchResult(ports, target, found)
  {
    var todo := ports.Keys;
    while todo != {}
      invariant todo <= ports.Keys
      invariant forall n :: n in ports && n !in todo ==> ports[n] != target
      decreases |todo|
    {
      var n :| n in todo;
      if ports[n] == target {
        return Some(n);
      }
      todo := todo - {n};
    }
    return None;
  }

  // ---------------------------------------------------------------------------
  // Argument vector
  // ---------------------------------------------------------------------------

  /** The `-inport <name> -inpath <path>` arguments of the first `n` inports. */
  function InArgs(p: Process, b: Boundary, found: seq<Option<Bytes>>, n: nat): (r: seq<Bytes>)
    requires n <= |p.inPorts| && n <= |found|
    ensures |r| == 4 * n
  {
    if n == 0 then []
    else
      var port := p.inPorts[n - 1];
      InArgs(p, b, found, n - 1) + [InportFlag, port.localPort, InpathFlag, InPath(b, found[n - 1], p.name, port)]
  }

  /** The `-outport=<name> -outpath=<path>` arguments of the first `n` outports. */
  function OutArgs(p: Process, b: Boundary, found: seq<Option<Bytes>>, n: nat): (r: seq<Bytes>)
    requires n <= |p.outPorts| && n <= |found|
    ensures |r| == 2 * n
  {
    if n == 0 then []
    else
      var port := p.outPorts[n - 1];
      OutArgs(p, b, found, n - 1) + [OutportFlag + port.localPort, OutpathFlag + OutPath(b, found[n - 1], port)]
  }

  /**
   * `shellquote.Split`: the words it split, and whether it split the whole
   * text without an error. On an error the words are those split before it.
   */
  type Splitter = Bytes -> (seq<Bytes>, bool)

  /**
   * The free arguments: only a first IIP addressed to port ARGS gives any,
   * and it gives every word `split` returns for it, whether or not `split`
   * also reported an error.
   */
  function FreeArgs(p: Process, split: Splitter): (r: seq<Bytes>)
    ensures r != [] ==> |p.iips| > 0 && p.iips[0].port == ArgsPort
    ensures |p.iips| > 0 && p.iips[0].port == ArgsPort ==> r == split(p.iips[0].data).0
  {
    if |p.iips| > 0 && p.iips[0].port == ArgsPort then split(p.iips[0].data).0 else []
  }

  /** The argument vector: the process name first and the free arguments last. */
  function Argv(p: Process, b: Boundary, inFound: seq<Option<Bytes>>, outFound: seq<Option<Bytes>>,
                split: Splitter): (argv: seq<Bytes>)
    requires |inFound| == |p.inPorts| && |outFound| == |p.outPorts|
    ensures |argv| == 1 + 4 * |p.inPorts| + 2 * |p.outPorts| + |FreeArgs(p, split)| && argv[0] == p.name
    ensures argv[|argv| - |FreeArgs(p, split)|..] == FreeArgs(p, split)
  {
    [p.name] + InArgs(p, b, inFound, |p.inPorts|) + OutArgs(p, b, outFound, |p.outPorts|) + FreeArgs(p, split)
  }

  /** The named pipes made for the first `n` inports, in order. */
  function InFifos(p: Process, b: Boundary, found: seq<Option<Bytes>>, n: nat): seq<Bytes>
    requires n <= |p.inPorts| && n <= |found|
  {
    if n == 0 then []
    else
      InFifos(p, b, found, n - 1)
      + (if MakesFifo(b.inPath, found[n - 1]) then [FifoPath(p.name, p.inPorts[n - 1].localPort)] else [])
  }

  /** The named pipes made for the first `n` outports, in order. */
  function OutFifos(p: Process, b: Boundary, found: seq<Option<Bytes>>, n: nat): seq<Bytes>
    requires n <= |p.outPorts| && n <= |found|
  {
    if n == 0 then []
    else
      var port := p.outPorts[n - 1];
      OutFifos(p, b, found, n - 1)
      + (if MakesFifo(b.outPath, found[n - 1]) then [FifoPath(port.remoteProc, port.remotePort)] else [])
  }

  /** The results of the boundary searches for every inport and every outport of `p`. */
  predicate AreSearchResults(p: Process, b: Boundary, inFound: seq<Option<Bytes>>, outFound: seq<Option<Bytes>>)
  {
    && |inFound| == |p.inPorts| && |outFound| == |p.outPorts|
    && (forall i :: 0 <= i < |p.inPorts| ==>
          IsSearchResult(b.inports, Endpoint(p.name, p.inPorts[i].localPort), inFound[i]))
    && (forall j :: 0 <= j < |p.outPorts| ==>
          IsSearchResult(b.outports, Endpoint(p.name, p.outPorts[j].localPort), outFound[j]))
  }

  /**
   * The argument part of `startInstance`: the argument vector of the
   * subprocess, and the named pipes made for it (in the order `Mkfifo` is
   * called), given the searches' results.
   */
  method StartInstanceArgs(p: Process, b: Boundary, split: Splitter)
    returns (argv: seq<Bytes>, fifos: seq<Bytes>, splitFailed: bool,
             ghost inFound: seq<Option<Bytes>>, ghost outFound: seq<Option<Bytes>>)
    ensures AreSearchResults(p, b, inFound, outFound)
    ensures argv == Argv(p, b, inFound, outFound, split)
    ensures fifos == InFifos(p, b, inFound, |p.inPorts|) + OutFifos(p, b, outFound, |p.outPorts|)
    ensures |argv| == 1 + 4 * |p.inPorts| + 2 * |p.outPorts| + |FreeArgs(p, split)| && argv[0] == p.name
    ensures argv[1 + 4 * |p.inPorts| + 2 * |p.outPorts|..] == FreeArgs(p, split)
    ensures splitFailed <==> |p.iips| > 0 && p.iips[0].port == ArgsPort && !split(p.iips[0].data).1
  {
    var inArgs, inFifos, outArgs, outFifos;
    inArgs, inFifos, inFound := InportArgs(p, b);
    outArgs, outFifos, outFound := OutportArgs(p, b);
    argv := [p.name] + inArgs + outArgs;
    fifos := inFifos + outFifos;
    splitFailed := false;
    if |p.iips| > 0 && p.iips[0].port == ArgsPort {
      var (words, ok) := split(p.iips[0].data);
      splitFailed := !ok;
      argv := argv + words;
    }
    ArgvLayout(p, b, inFound, outFound, split);
  }

  /** The loop over the inports: their arguments and the named pipes made for them. */
  method InportArgs(p: Process, b: Boundary)
    returns (args: seq<Bytes>, fifos: seq<Bytes>, ghost found: seq<Option<Bytes>>)
    ensures |found| == |p.inPorts|
    ensures forall k :: 0 <= k < |p.inPorts| ==>
              IsSearchResult(b.inports, Endpoint(p.name, p.inPorts[k].localPort), found[k])
    ensures args == InArgs(p, b, found, |p.inPorts|)
    ensures fifos == InFifos(p, b, found, |p.inPorts|)
    ensures |args| == 4 * |p.inPorts|
    ensures forall i :: 0 <= i < |p.inPorts| ==>
              args[4 * i] == InportFlag && args[4 * i + 1] == p.inPorts[i].localPort && args[4 * i + 2] == InpathFlag
  {
    args, fifos, found := [], [], [];
    for i := 0 to |p.inPorts|
      invariant |found| == i
      invariant forall k :: 0 <= k < i ==>
                  IsSearchResult(b.inports, Endpoint(p.name, p.inPorts[k].localPort), found[k])
      invariant args == InArgs(p, b, found, i)
      invariant fifos == InFifos(p, b, found, i)
    {
      var port := p.inPorts[i];
      var hit := FindBoundary(b.inports, Endpoint(p.name, port.localPort));
      var path: Bytes := [];
      if hit.Some? {
        path := b.inPath(hit.value);
      }
      if path == [] {
        path := FifoPath(p.name, port.localPort);
        fifos := fifos + [path];
      }
      args := args + [InportFlag, port.localPort, InpathFlag, path];
      ghost var before := found;
      found := found + [hit];
      assert found[..i] == before;
      InArgsPrefix(p, b, before, found, i);
      InFifosPrefix(p, b, before, found, i);
    }
    InArgsLayout(p, b, found, |p.inPorts|);
    forall i | 0 <= i < |p.inPorts|
      ensures args[4 * i] == InportFlag && args[4 * i + 1] == p.inPorts[i].localPort && args[4 * i + 2] == InpathFlag
    {
      var piece := args[4 * i .. 4 * i + 4];
      assert piece == [InportFlag, p.inPorts[i].localPort, InpathFlag, InPath(b, found[i], p.name, p.inPorts[i])];
      assert piece[0] == args[4 * i] && piece[1] == args[4 * i + 1] && piece[2] == args[4 * i + 2];
    }
  }

  /** The loop over the outports: their arguments and the named pipes made for them. */
  method OutportArgs(p: Process, b: Boundary)
    returns (args: seq<Bytes>, fifos: seq<Bytes>, ghost found: seq<Option<Bytes>>)
    ensures |found| == |p.outPorts|
    ensures forall k :: 0 <= k < |p.outPorts| ==>
              IsSearchResult(b.outports, Endpoint(p.name, p.outPorts[k].localPort), found[k])
    ensures args == OutArgs(p, b, found, |p.outPorts|)
    ensures fifos == OutFifos(p, b, found, |p.outPorts|)
    ensures |args| == 2 * |p.outPorts|
    ensures forall j :: 0 <= j < |p.outPorts| ==>
              args[2 * j] == OutportFlag + p.outPorts[j].localPort && OutpathFlag <= args[2 * j + 1]
  {
    args, fifos, found := [], [], [];
    for j := 0 to |p.outPorts|
      invariant |found| == j
      invariant forall k :: 0 <= k < j ==>
                  IsSearchResult(b.outports, Endpoint(p.name, p.outPorts[k].localPort), found[k])
      invariant args == OutArgs(p, b, found, j)
      invariant fifos == OutFifos(p, b, found, j)
    {
      var port := p.outPorts[j];
      var hit := FindBoundary(b.outports, Endpoint(p.name, port.localPort));
      var path: Bytes := [];
      if hit.Some? {
        path := b.outPath(hit.value);
      }
      if path == [] {
        path := FifoPath(port.remoteProc, port.remotePort);
        fifos := fifos + [path];
      }
      args := args + [OutportFlag + port.localPort, OutpathFlag + path];
      ghost var before := found;
      found := found + [hit];
      assert found[..j] == before;
      OutArgsPrefix(p, b, before, found, j);
      OutFifosPrefix(p, b, before, found, j);
    }
    OutArgsLayout(p, b, found, |p.outPorts|);
    forall j | 0 <= j < |p.outPorts|
      ensures args[2 * j] == OutportFlag + p.outPorts[j].localPort && OutpathFlag <= args[2 * j + 1]
    {
      var piece := args[2 * j .. 2 * j + 2];
      assert piece == [OutportFlag + p.outPorts[j].localPort, OutpathFlag + OutPath(b, found[j], p.outPorts[j])];
      assert piece[0] == args[2 * j] && piece[1] == args[2 * j + 1];
    }
  }

  /** The arguments of the first `n` inports depend only on the first `n` search results. */
  lemma {:induction false} InArgsPrefix(p: Process, b: Boundary, f: seq<Option<Bytes>>, g: seq<Option<Bytes>>, n: nat)
    requires n <= |p.inPorts| && n <= |f| && n <= |g| && f[..n] == g[..n]
    ensures InArgs(p, b, f, n) == InArgs(p, b, g, n)
  {
    if n > 0 {
      assert f[n - 1] == f[..n][n - 1] == g[..n][n - 1] == g[n - 1];
      assert f[..n - 1] == f[..n][..n - 1];
      assert g[..n - 1] == g[..n][..n - 1];
      InArgsPrefix(p, b, f, g, n - 1);
    }
  }

  lemma {:induction false} OutArgsPrefix(p: Process, b: Boundary, f: seq<Option<Bytes>>, g: seq<Option<Bytes>>, n: nat)
    requires n <= |p.outPorts| && n <= |f| && n <= |g| && f[..n] == g[..n]
    ensures OutArgs(p, b, f, n) == OutArgs(p, b, g, n)
  {
    if n > 0 {
      assert f[n - 1] == f[..n][n - 1] == g[..n][n - 1] == g[n - 1];
      assert f[..n - 1] == f[..n][..n - 1];
      assert g[..n - 1] == g[..n][..n - 1];
      OutArgsPrefix(p, b, f, g, n - 1);
    }
  }

  lemma {:induction false} InFifosPrefix(p: Process, b: Boundary, f: seq<Option<Bytes>>, g: seq<Option<Bytes>>, n: nat)
    requires n <= |p.inPorts| && n <= |f| && n <= |g| && f[..n] == g[..n]
    ensures InFifos(p, b, f, n) == InFifos(p, b, g, n)
  {
    if n > 0 {
      assert f[n - 1] == f[..n][n - 1] == g[..n][n - 1] == g[n - 1];
      assert f[..n - 1] == f[..n][..n - 1];
      assert g[..n - 1] == g[..n][..n - 1];
      InFifosPrefix(p, b, f, g, n - 1);
    }
  }

  lemma {:induction false} OutFifosPrefix(p: Process, b: Boundary, f: seq<Option<Bytes>>, g: seq<Option<Bytes>>, n: nat)
    requires n <= |p.outPorts| && n <= |f| && n <= |g| && f[..n] == g[..n]
    ensures OutFifos(p, b, f, n) == OutFifos(p, b, g, n)
  {
    if n > 0 {
      assert f[n - 1] == f[..n][n - 1] == g[..n][n - 1] == g[n - 1];
      assert f[..n - 1] == f[..n][..n - 1];
      assert g[..n - 1] == g[..n][..n - 1];
      OutFifosPrefix(p, b, f, g, n - 1);
    }
  }

  /** Inport `i` contributes the four arguments at 4i .. 4i+3. */
  lemma {:induction false} InArgsLayout(p: Process, b: Boundary, found: seq<Option<Bytes>>, n: nat)
    requires n <= |p.inPorts| && n <= |found|
    ensures forall i :: 0 <= i < n ==>
              InArgs(p, b, found, n)[4 * i .. 4 * i + 4]
              == [InportFlag, p.inPorts[i].localPort, InpathFlag, InPath(b, found[i], p.name, p.inPorts[i])]
  {
    if n > 0 {
      InArgsLayout(p, b, found, n - 1);
      var front := InArgs(p, b, found, n - 1);
      var all := InArgs(p, b, found, n);
      forall i | 0 <= i < n
        ensures all[4 * i .. 4 * i + 4]
                == [InportFlag, p.inPorts[i].localPort, InpathFlag, InPath(b, found[i], p.name, p.inPorts[i])]
      {
        if i < n - 1 {
          assert all[4 * i .. 4 * i + 4] == front[4 * i .. 4 * i + 4];
        }
      }
    }
  }

  /** Outport `j` contributes the two arguments at 2j and 2j+1. */
  lemma {:induction false} OutArgsLayout(p: Process, b: Boundary, found: seq<Option<Bytes>>, n: nat)
    requires n <= |p.outPorts| && n <= |found|
    ensures forall j :: 0 <= j < n ==>
              OutArgs(p, b, found, n)[2 * j .. 2 * j + 2]
              == [OutportFlag + p.outPorts[j].localPort, OutpathFlag + OutPath(b, found[j], p.outPorts[j])]
  {
    if n > 0 {
      OutArgsLayout(p, b, found, n - 1);
      var front := OutArgs(p, b, found, n - 1);
      var all := OutArgs(p, b, found, n);
      forall j | 0 <= j < n
        ensures all[2 * j .. 2 * j + 2]
                == [OutportFlag + p.outPorts[j].localPort, OutpathFlag + OutPath(b, found[j], p.outPorts[j])]
      {
        if j < n - 1 {
          assert all[2 * j .. 2 * j + 2] == front[2 * j .. 2 * j + 2];
        }
      }
    }
  }

  /**
   * The argument vector is the process name, four arguments per inport in
   * declared order, two per outport in declared order, then the free arguments.
   */
  lemma ArgvLayout(p: Process, b: Boundary, inFound: seq<Option<Bytes>>, outFound: seq<Option<Bytes>>,
                   split: Splitter)
    requires |inFound| == |p.inPorts| && |outFound| == |p.outPorts|
    ensures var argv := Argv(p, b, inFound, outFound, split);
            var ins, outs := |p.inPorts|, |p.outPorts|;
            && |argv| == 1 + 4 * ins + 2 * outs + |FreeArgs(p, split)|
            && argv[0] == p.name
            && (forall i :: 0 <= i < ins ==>
                  argv[1 + 4 * i .. 5 + 4 * i]
                  == [InportFlag, p.inPorts[i].localPort, InpathFlag, InPath(b, inFound[i], p.name, p.inPorts[i])])
            && (forall j :: 0 <= j < outs ==>
                  argv[1 + 4 * ins + 2 * j .. 3 + 4 * ins + 2 * j]
                  == [OutportFlag + p.outPorts[j].localPort, OutpathFlag + OutPath(b, outFound[j], p.outPorts[j])])
            && argv[1 + 4 * ins + 2 * outs ..] == FreeArgs(p, split)
  {
    var ins, outs := |p.inPorts|, |p.outPorts|;
    var inArgs := InArgs(p, b, inFound, ins);
    var outArgs := OutArgs(p, b, outFound, outs);
    InArgsLayout(p, b, inFound, ins);
    OutArgsLayout(p, b, outFound, outs);
    var argv := Argv(p, b, inFound, outFound, split);
    assert argv == [p.name] + inArgs + outArgs + FreeArgs(p, split);
    forall i | 0 <= i < ins
      ensures argv[1 + 4 * i .. 5 + 4 * i] == inArgs[4 * i .. 4 * i + 4]
    {
    }
    forall j | 0 <= j < outs
      ensures argv[1 + 4 * ins + 2 * j .. 3 + 4 * ins + 2 * j] == outArgs[2 * j .. 2 * j + 2]
    {
    }
  }

  /**
   * Both ends of an internal connection get the same path: when outport `j`
   * of `a` feeds inport `i` of `c` and no non-empty boundary path applies to
   * either end, the `-outpath=` argument of `a` carries the `-inpath`
   * argument of `c`.
   */
  lemma EdgeEndsAgree(a: Process, aIn: seq<Option<Bytes>>, aOut: seq<Option<Bytes>>,
                      c: Process, cIn: seq<Option<Bytes>>, cOut: seq<Option<Bytes>>,
                      b: Boundary, split: Splitter, j: nat, i: nat)
    requires AreSearchResults(a, b, aIn, aOut) && AreSearchResults(c, b, cIn, cOut)
    requires j < |a.outPorts| && i < |c.inPorts|
    requires a.outPorts[j].remoteProc == c.name && a.outPorts[j].remotePort == c.inPorts[i].localPort
    requires MakesFifo(b.outPath, aOut[j]) && MakesFifo(b.inPath, cIn[i])
    ensures Argv(a, b, aIn, aOut, split)[2 + 4 * |a.inPorts| + 2 * j]
            == OutpathFlag + Argv(c, b, cIn, cOut, split)[4 + 4 * i]
    ensures Argv(c, b, cIn, cOut, split)[4 + 4 * i] == FifoPath(c.name, c.inPorts[i].localPort)
  {
    ArgvLayout(a, b, aIn, aOut, split);
    ArgvLayout(c, b, cIn, cOut, split);
    var argvA := Argv(a, b, aIn, aOut, split);
    var argvC := Argv(c, b, cIn, cOut, split);
    assert argvA[2 + 4 * |a.inPorts| + 2 * j] == argvA[1 + 4 * |a.inPorts| + 2 * j .. 3 + 4 * |a.inPorts| + 2 * j][1];
    assert argvC[4 + 4 * i] == argvC[1 + 4 * i .. 5 + 4 * i][3];
  }

  /** A named pipe is made for an inport exactly when no non-empty boundary path applies to it. */
  lemma {:induction false} InFifosMembers(p: Process, b: Boundary, found: seq<Option<Bytes>>, n: nat, x: Bytes)
    requires n <= |p.inPorts| && n <= |found|
    ensures x in InFifos(p, b, found, n)
            <==> exists i :: 0 <= i < n && MakesFifo(b.inPath, found[i]) && x == FifoPath(p.name, p.inPorts[i].localPort)
  {
    if n > 0 {
      InFifosMembers(p, b, found, n - 1, x);
    }
  }

  /** A named pipe is made for an outport exactly when no non-empty boundary path applies to it. */
  lemma {:induction false} OutFifosMembers(p: Process, b: Boundary, found: seq<Option<Bytes>>, n: nat, x: Bytes)
    requires n <= |p.outPorts| && n <= |found|
    ensures x in OutFifos(p, b, found, n)
            <==> exists j :: 0 <= j < n && MakesFifo(b.outPath, found[j])
                             && x == FifoPath(p.outPorts[j].remoteProc, p.outPorts[j].remotePort)
  {
    if n > 0 {
      OutFifosMembers(p, b, found, n - 1, x);
    }
  }

  /**
   * An inport that a graph INPORT with a non-empty supplied path targets uses
   * that path, whatever boundary port the search found.
   */
  lemma BoundaryInPath(p: Process, b: Boundary, inFound: seq<Option<Bytes>>, outFound: seq<Option<Bytes>>,
                       split: Splitter, i: nat, n: Bytes)
    requires AreSearchResults(p, b, inFound, outFound) && i < |p.inPorts|
    requires n in b.inports && b.inports[n] == Endpoint(p.name, p.inPorts[i].localPort)
    requires forall m :: m in b.inports && b.inports[m] == b.inports[n] ==> b.inPath(m) == b.inPath(n)
    requires b.inPath(n) != []
    ensures Argv(p, b, inFound, outFound, split)[4 + 4 * i] == b.inPath(n)
    ensures !MakesFifo(b.inPath, inFound[i])
  {
    ArgvLayout(p, b, inFound, outFound, split);
    var argv := Argv(p, b, inFound, outFound, split);
    assert argv[4 + 4 * i] == argv[1 + 4 * i .. 5 + 4 * i][3];
    assert inFound[i].Some?;
  }

  /** The same for an outport that a graph OUTPORT with a non-empty supplied path is fed by. */
  lemma BoundaryOutPath(p: Process, b: Boundary, inFound: seq<Option<Bytes>>, outFound: seq<Option<Bytes>>,
                        split: Splitter, j: nat, n: Bytes)
    requires AreSearchResults(p, b, inFound, outFound) && j < |p.outPorts|
    requires n in b.outports && b.outports[n] == Endpoint(p.name, p.outPorts[j].localPort)
    requires forall m :: m in b.outports && b.outports[m] == b.outports[n] ==> b.outPath(m) == b.outPath(n)
    requires b.outPath(n) != []
    ensures Argv(p, b, inFound, outFound, split)[2 + 4 * |p.inPorts| + 2 * j] == OutpathFlag + b.outPath(n)
    ensures !MakesFifo(b.outPath, outFound[j])
  {
    ArgvLayout(p, b, inFound, outFound, split);
    var argv := Argv(p, b, inFound, outFound, split);
    var k := 1 + 4 * |p.inPorts| + 2 * j;
    assert argv[k + 1] == argv[k .. k + 2][1];
    assert outFound[j].Some?;
  }

  // ---------------------------------------------------------------------------
  // Dependency report
  // ---------------------------------------------------------------------------

  /** A process as the network definition declares it: its component and metadata. */
  datatype Declaration = Declaration(component: Bytes, metadata: map<Bytes, Bytes>)

  const DepKey: Bytes := "dep"

  /** Whether `d` names `x` as its component or under its `dep` metadata key. */
  predicate Needs(d: Declaration, x: Bytes)
  {
    d.component == x || (DepKey in d.metadata && d.metadata[DepKey] == x)
  }

  /** The components the first declarations need, collected in declaration order. */
  function Dependencies(ds: seq<Declaration>): set<Bytes>
  {
    if ds == [] then {}
    else
      var d := ds[|ds| - 1];
      Dependencies(ds[..|ds| - 1]) + {d.component} + (if DepKey in d.metadata then {d.metadata[DepKey]} else {})
  }

  /** The `-deps` loop: every component and every `dep` metadata value, without duplicates. */
  method ListDependencies(ds: seq<Declaration>) returns (deps: set<Bytes>)
    ensures deps == Dependencies(ds)
  {
    deps := {};
    for i := 0 to |ds|
      invariant deps == Dependencies(ds[..i])
    {
      var d := ds[i];
      assert ds[..i + 1][..i] == ds[..i];
      deps := deps + {d.component};
      var todo := d.metadata.Keys;
      ghost var base := deps;
      while todo != {}
        invariant todo <= d.metadata.Keys
        invariant deps == base + (if DepKey in d.metadata && DepKey !in todo then {d.metadata[DepKey]} else {})
        decreases |todo|
      {
        var key :| key in todo;
        if key == DepKey {
          deps := deps + {d.metadata[key]};
        }
        todo := todo - {key};
      }
    }
    assert ds[..|ds|] == ds;
  }

  /** The report holds exactly what some declaration needs. */
  lemma {:induction false} DependenciesExactly(ds: seq<Declaration>, x: Bytes)
    ensures x in Dependencies(ds) <==> exists i :: 0 <= i < |ds| && Needs(ds[i], x)
  {
    if ds != [] {
      var front := ds[..|ds| - 1];
      DependenciesExactly(front, x);
      if x in Dependencies(front) {
        var i :| 0 <= i < |front| && Needs(front[i], x);
        assert ds[i] == front[i];
      }
      if i :| 0 <= i < |ds| && Needs(ds[i], x) {
        if i < |front| {
          assert front[i] == ds[i];
        }
      }
    }
  }

  /** The report does not depend on the order of the declarations. */
  lemma DependenciesOrderFree(a: seq<Declaration>, b: seq<Declaration>)
    requires multiset(a) == multiset(b)
    ensures Dependencies(a) == Dependencies(b)
  {
    forall x
      ensures x in Dependencies(a) <==> x in Dependencies(b)
    {
      DependenciesExactly(a, x);
      DependenciesExactly(b, x);
      if i :| 0 <= i < |a| && Needs(a[i], x) {
        assert a[i] in multiset(b);
        var k :| 0 <= k < |b| && b[k] == a[i];
      }
      if i :| 0 <= i < |b| && Needs(b[i], x) {
        assert b[i] in multiset(a);
        var k :| 0 <= k < |a| && a[k] == b[i];
      }
    }
  }
}
