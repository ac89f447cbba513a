/**
 * The example component examples/cmd: the `-mode` flag value, and the two
 * relays from the command's standard output into the network (framed
 * output re-addressed to `OUT`, and raw output cut into `data.Data`
 * frames).
 */
module Cmd {
  import opened Wrappers
  import opened Text
  import opened Framing

  /** `2 ^ 16` in Go is exclusive or, not a power: 2 xor 16 = 18. */
  const BufSize: nat := (2 as bv32 ^ 16 as bv32) as nat

  lemma BufSizeIsXor()
    ensures BufSize == 18 && BufSize != 65536
  {
  }

  //
  // The operating mode flag
  //

  /** Go's `int` as a 64-bit signed integer. */
  newtype OperatingMode = x: int | -0x8000_0000_0000_0000 <= x < 0x8000_0000_0000_0000

  const One: OperatingMode := 0
  const Each: OperatingMode := 1

  const OneWord: string := "one"
  const EachWord: string := "each"
  const OneText: string := "one call handling all input IPs"
  const EachText: string := "one call for each input IP"
  const OutOfRangeText: string := "ERROR value out of range"

  /** The error `Set` returns for a word it does not know. */
  datatype SetError = NotAllowed   // "set of allowable values for operating mode is {one, each}"

  /** The mode a flag word names, if it names one. */
  function ModeOf(value: string): (m: Option<OperatingMode>)
    ensures m == Some(One) <==> value == OneWord
    ensures m == Some(Each) <==> value == EachWord
    ensures m.None? <==> value != OneWord && value != EachWord
  {
    if value == OneWord then Some(One) else if value == EachWord then Some(Each) else None
  }

  /** What `String` prints for a mode. */
  function Describe(m: OperatingMode): (s: string)
    ensures m == One ==> s == OneText
    ensures m == Each ==> s == EachText
    ensures m != One && m != Each ==> s == OutOfRangeText
  {
    if m == One then OneText else if m == Each then EachText else OutOfRangeText
  }

  /** The three descriptions are distinct, so `String` tells the two modes apart from each other and from a bad value. */
  lemma DescriptionsDistinct(a: OperatingMode, b: OperatingMode)
    requires a == One || a == Each
    ensures Describe(a) == Describe(b) <==> a == b
  {
    assert OneText[9] != EachText[9];
    assert OneText[0] != OutOfRangeText[0];
    assert EachText[0] != OutOfRangeText[0];
  }

  /** A word `Set` accepts reads back through `String` as the mode it names. */
  lemma SetThenDescribe(value: string)
    requires ModeOf(value).Some?
    ensures Describe(ModeOf(value).value) == if value == OneWord then OneText else EachText
  {
  }

  /** The `-mode` flag variable: an `OperatingMode` behind the `flag.Value` interface. */
  class ModeFlag {
    var mode: OperatingMode

    /** `var operatingMode OperatingMode`: the zero value, One. */
    constructor ()
      ensures mode == One
    {
      mode := One;
    }

    /** `Set`: a known word stores its mode; any other word is an error and the mode stays. */
    method Set(value: string) returns (err: Option<SetError>)
      modifies this
      ensures err.None? <==> ModeOf(value).Some?
      ensures mode == if ModeOf(value).Some? then ModeOf(value).value else old(mode)
    {
      if value == OneWord {
        mode := One;
      } else if value == EachWord {
        mode := Each;
      } else {
        return Some(NotAllowed);
      }
      err := None;
    }

    /** `String`: the description of the stored mode, which names the mode it came from. */
    function String(): (s: string)
      reads this
      ensures s == OneText <==> mode == One
      ensures s == EachText <==> mode == Each
    {
      DescriptionsDistinct(One, mode);
      DescriptionsDistinct(Each, mode);
      Describe(mode)
    }
  }

  //
  // Relaying the command's output
  //

  const OutPort: Bytes := "OUT"
  const DataType: Bytes := "data"
  const DataBodyType: Bytes := "Data"

  /** A frame re-addressed to `OUT`. */
  function ToOut(f: Frame): (g: Frame)
    ensures g.port == OutPort && g.(port := f.port) == f
  {
    f.(port := OutPort)
  }

  /**
   * `handleCommandOutput`: parse frames from the command's standard output
   * and marshal each to standard output with port `OUT`, until the first
   * parse error. `eofReported` says whether that error was `io.EOF` (the
   * source then reports an end of output rather than an error); it never
   * is. Write errors of Marshal are not modelled.
   */
  method HandleCommandOutput(stream: Bytes) returns (out: Bytes, stop: ErrorValue, eofReported: bool, ghost orders: seq<seq<Bytes>>)
    ensures stop == ReadAll(stream).1 && !eofReported
    ensures OrdersFor(Map(ToOut, ReadAll(stream).0), orders)
    ensures out == Wires(Map(ToOut, ReadAll(stream).0), orders)
  {
    var rest := stream;
    out := [];
    orders := [];
    ghost var read: seq<Frame> := [];
    AppendEmpty(ReadAll(stream).0);
    while true
      invariant OrdersFor(Map(ToOut, read), orders) && out == Wires(Map(ToOut, read), orders)
      invariant ReadAll(stream) == (read + ReadAll(rest).0, ReadAll(rest).1)
      decreases |rest|
    {
      var r := ParseFrame(rest);
      if r.Failure? {
        eofReported := r.error == IoEOF;
        stop := r.error;
        AppendEmpty(read);
        break;
      }
      var frame := r.value.0;
      frame := frame.(port := OutPort);
      out, orders := MarshalNext(out, Map(ToOut, read), orders, frame);
      MapConcat(ToOut, read, [r.value.0]);
      AppendAssoc(read, [r.value.0], ReadAll(r.value.1).0);
      read := read + [r.value.0];
      rest := r.value.1;
    }
  }

  /** The frame `handleCommandOutputRaw` sends for one read of `chunk`. */
  function RawFrame(chunk: Bytes): Frame
  {
    Frame(DataType, DataBodyType, OutPort, [], None, chunk)
  }

  /**
   * `handleCommandOutputRaw`: every read of the command's standard output
   * into the `bufSize` buffer becomes one frame with that many body bytes,
   * until the read that fails (end of output or a read error, which both
   * end the relay). `chunks` are the bytes the successful reads returned.
   */
  method HandleCommandOutputRaw(chunks: seq<Bytes>) returns (out: Bytes, ghost orders: seq<seq<Bytes>>)
    ensures OrdersFor(Map(RawFrame, chunks), orders) && out == Wires(Map(RawFrame, chunks), orders)
  {
    var frame := Frame(DataType, DataBodyType, OutPort, [], None, []);
    out := [];
    orders := [];
    for i := 0 to |chunks|
      invariant OrdersFor(Map(RawFrame, chunks[..i]), orders)
      invariant out == Wires(Map(RawFrame, chunks[..i]), orders)
      invariant frame == RawFrame(frame.body)
    {
      frame := frame.(body := chunks[i]);
      out, orders := MarshalNext(out, Map(RawFrame, chunks[..i]), orders, frame);
      RawFramesSnoc(chunks, i);
    }
    assert chunks[..|chunks|] == chunks;
  }

  lemma RawFramesSnoc(chunks: seq<Bytes>, i: nat)
    requires i < |chunks|
    ensures Map(RawFrame, chunks[..i + 1]) == Map(RawFrame, chunks[..i]) + [RawFrame(chunks[i])]
  {
    assert chunks[..i + 1][..i] == chunks[..i];
  }


  //
  // What the network reads back
  //

  lemma RawFrameWellFormed(chunk: Bytes)
    requires |chunk| <= BufSize
    ensures WellFormed(RawFrame(chunk))
  {
    assert DataType + "." + DataBodyType == ['d', 'a', 't', 'a', '.', 'D', 'a', 't', 'a'];
    assert OutPort == ['O', 'U', 'T'];
  }

  /**
   * The raw relay's output reads back, frame by frame, as `data.Data`
   * frames to `OUT` whose bodies are exactly the bytes of each read, in
   * order; after the last one the stream ends.
   */
  lemma {:induction false} RawOutputReadsBack(chunks: seq<Bytes>, orders: seq<seq<Bytes>>)
    requires forall i :: 0 <= i < |chunks| ==> |chunks[i]| <= BufSize
    requires OrdersFor(Map(RawFrame, chunks), orders)
    ensures ReadAll(Wires(Map(RawFrame, chunks), orders)).0 == Map(RawFrame, chunks)
    ensures forall i :: 0 <= i < |chunks| ==>
      var f := ReadAll(Wires(Map(RawFrame, chunks), orders)).0[i];
      f.typ == DataType && f.bodyType == DataBodyType && f.port == OutPort && f.body == chunks[i] && |f.body| <= BufSize
  {
    var fs := Map(RawFrame, chunks);
    MapEach(RawFrame, chunks);
    forall i | 0 <= i < |fs| ensures WellFormed(fs[i]) {
      RawFrameWellFormed(chunks[i]);
    }
    ParseEmptyStream();
    ReadsBack(fs, orders, []);
    AppendEmpty(Wires(fs, orders));
  }

  /**
   * Relaying framed output only re-addresses the frames: when the command
   * writes well-formed frames, the network reads back the same frames, in
   * order, each with port `OUT`.
   */
  lemma {:induction false} RelayedOutputReadsBack(fs: seq<Frame>, orders: seq<seq<Bytes>>, rest: Bytes, relayed: seq<seq<Bytes>>)
    requires OrdersFor(fs, orders) && forall i :: 0 <= i < |fs| ==> WellFormed(fs[i])
    requires Parse(rest).Failure?
    requires OrdersFor(Map(ToOut, ReadAll(Wires(fs, orders) + rest).0), relayed)
    ensures ReadAll(Wires(fs, orders) + rest).0 == fs
    ensures ReadAll(Wires(Map(ToOut, ReadAll(Wires(fs, orders) + rest).0), relayed)).0 == Map(ToOut, fs)
  {
    ReadsBack(fs, orders, rest);
    var gs := Map(ToOut, fs);
    AllToOutWellFormed(fs);
    ParseEmptyStream();
    ReadsBack(gs, relayed, []);
    AppendEmpty(Wires(gs, relayed));
  }

  lemma AllToOutWellFormed(fs: seq<Frame>)
    requires forall i :: 0 <= i < |fs| ==> WellFormed(fs[i])
    ensures forall i :: 0 <= i < |fs| ==> WellFormed(Map(ToOut, fs)[i])
  {
    MapEach(ToOut, fs);
    forall i | 0 <= i < |fs| ensures WellFormed(Map(ToOut, fs)[i]) {
      ToOutWellFormed(fs[i]);
    }
  }

  lemma ToOutWellFormed(f: Frame)
    requires WellFormed(f)
    ensures WellFormed(ToOut(f))
  {
    assert OutPort == ['O', 'U', 'T'];
  }

}
