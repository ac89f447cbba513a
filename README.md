# flowd-go, modelled in Dafny

This project models the core of flowd-go, a flow-based programming runtime.
Components run as separate processes and exchange frames over named pipes.
The Rust components of flowd-rs exchange information packets (IPs) over ring
buffers instead. The model covers six parts:

- **Frame codec** (`framing.dfy`, with `textproto.dfy` and `text.dfy`).
  A frame is a block of `Name: value` header lines, an empty line, and
  exactly `Content-Length` body bytes.
  - `Parse` is a function on the stream that states the format.
  - `ParseFrame` and `Marshal` are the step-by-step operations of the source,
    proved equal to `Parse` and to `Wire`.
  - `RoundTrip` proves that a marshalled well-formed frame reads back
    unchanged, whatever order the extension map was iterated in.
  - The header block is read as Go 1.21's `net/textproto` reads it, except
    for the details listed under "Left out".
- **Orchestrator** (`flowd.dfy`, `supervisor.dfy`).
  - The argument vector and named pipes `startInstance` builds for a
    subprocess.
  - The `-deps` dependency report.
  - The supervisor loop at the end of `main`, as a state machine over a given
    trace of exit and drain events.
- **SplitLines and Trim** (`components.dfy`, `splitlines.dfy`, `trim.dfy`).
  - The ring buffers are classes over sequences.
  - The run loop of each component is a method over a given sequence of
    rounds. In a round the other threads act: a signal arrives, upstream
    pushes, downstream takes.
  - Each run loop is proved against a pure description of the whole run
    (`Drive`, `TrimDrive`).
- **header-set-regex** (`headersetregex.dfy`). The flag handling of the
  configuration IIP, and the frame loop that rewrites frames and stops at
  PortClose. The regular expression engine is a parameter.
- **cmd** (`cmd.dfy`).
  - The `-mode` flag value and its description.
  - The two relays from the command's standard output to the network.
- **Shared helpers** (`wrappers.dfy`, `text.dfy`). Helpers for sequences,
  and the parts of Go's `strings` and `strconv` packages that the core uses.

Go maps are iterated in an unspecified order. Loops over a map pick an
arbitrary remaining key. The order a call visited the keys in is exposed as a
ghost out-parameter, and the properties are proved for every such order.

Side effects outside the model are replaced by parameters:

| What the source calls | What the model takes instead |
|---|---|
| bytes read from a stream | the unread bytes |
| `shellquote.Split` | a function parameter |
| the `unixfbp` boundary paths | function parameters |
| `regexp.Compile` and `FindSubmatch` | function parameters |
| reads of the command's output in the raw relay | the sequence of chunks read |

Where the source and its documentation disagree, the model follows the code:

- **Repeated header.** Its first value is the one kept (`values[0]`).
- **`Type` split.** It is cut at the first `.`, so `BodyType` may contain dots.
- **End of stream.** `ParseFrame` wraps every error it reports, so it never
  returns `io.EOF`.
  - This holds even on an empty stream.
  - So the `io.EOF` branches of header-set-regex (`header-set-regex.go:64`)
    and of cmd (`cmd.go:230`) cannot be taken.
- **Inport arguments.** They are two separate arguments each,
  `-inport <name>` and `-inpath <path>`, not `-inpath=<path>`.
- **Empty IIP in header-set-regex.** It configures the empty regular
  expression; no "missing regular expression" error is reported.
  `strings.Split` of `""` gives one empty argument.
- **cmd buffer size.** `bufSize` is `2 ^ 16`, which is exclusive or in Go,
  so it is 18.
- **Frame body type.** libflowd's `Frame` declares its body as `*[]byte`,
  while the two examples use it as a plain `[]byte`. The model has
  one `Frame` whose body is a byte sequence.

## Model

| member | source | states |
|---|---|---|
| Framing.ExtensionsOf | libflowd/framing.go:52-63 | The extension map is nil exactly when every key is reserved. Otherwise it is non-empty, has exactly the non-reserved keys, and maps each to its first value |
| Framing.Parse | libflowd/framing.go:23-75 | Every failure is a new error value, never `io.EOF`. On success: the header was readable; the body is exactly the number of bytes `Content-Length` names; the header, the body and the unread rest are the whole stream; the rest is a strict suffix; `Type` holds no `.`; extensions are nil or non-empty and hold no reserved key |
| Framing.FrameOf | libflowd/framing.go:30-74 | The checks after the header block is read. A success takes exactly `Content-Length` bytes and leaves the rest unread. The extensions hold no reserved name and are never an empty map. No failure is `io.EOF` |
| Framing.DeleteReserved | libflowd/framing.go:52-55 | The four `delete` calls leave the header map without `Type`, `Port`, `Content-Type` and `Content-Length`, and otherwise unchanged |
| Framing.CollectExtensions | libflowd/framing.go:52-63 | The loop over the remaining keys builds exactly the map of each key's first value. The result is nil when no key remains |
| Framing.ParseFrame | libflowd/framing.go:23-75 | The step-by-step parser gives exactly `Parse` of the stream, every error case included |
| Framing.FieldLinesSnoc | libflowd/framing.go:116-121 | Each further `printHeaderLine` call appends exactly the one `key: value` CR LF line of its field |
| Framing.FixedNames | libflowd/framing.go:83-94 | Marshal's names `type`, `port`, `content-type`, `content-length` are tokens. Printing canonicalises them to the reserved names `Type`, `Port`, `Content-Type`, `Content-Length` |
| Framing.BaseFieldLines | libflowd/framing.go:83-94 | The four fixed header lines are Type (`Type + "." + BodyType`), Port, Content-Type, then Content-Length (the body length), in this order |
| Framing.Wire | libflowd/framing.go:83-107 | The wire form starts with the Type line and ends with the raw body |
| Framing.WireOfHeader | libflowd/framing.go:104-107 | The printed header lines, the empty line of `finalizeHeader`, then the raw body, are the whole wire form of the frame |
| Framing.PrintFixedFields | libflowd/framing.go:81-94 | The four fixed `printHeaderLine` calls write exactly those four lines |
| Framing.PrintExtension | libflowd/framing.go:96-101 | Printing one more extension key adds exactly its header line |
| Framing.PrintExtensions | libflowd/framing.go:95-103 | The loop over the extension map visits every key exactly once (`IsIterationOrder`) and prints one line per key in that order. It prints nothing for a nil map |
| Framing.Marshal | libflowd/framing.go:77-114 | A nil frame gives the "refusing to marshal nil frame" error. Otherwise the output is `Wire(f, order)`: the fixed lines, the extension lines in the iteration order `order`, the empty line (`finalizeHeader`), and the raw body |
| Framing.ReadFieldLines | libflowd/framing.go:26 | Printed header lines followed by the empty line read back as exactly those fields, in order, and the bytes after them are left unread |
| Framing.AddFieldsValues | libflowd/framing.go:26 | For each canonical key, reading fields gives the values already read, then the fields' values with that key, in order |
| Framing.HeaderOfFields | libflowd/framing.go:43 | In the header read from fields, a key is present exactly when some field has it, and `Get` gives that key's first value |
| Framing.BaseValues | libflowd/framing.go:83-94 | Each reserved name carries exactly one printed value among the fixed fields. Other names carry none |
| Framing.ExtensionValues | libflowd/framing.go:95-103 | Each key of an iteration order contributes exactly its own value. Keys outside the order contribute nothing |
| Framing.WireValues | libflowd/framing.go:83-103 | For a well-formed frame, every name is printed at most once. A reserved name carries its field, an extension key its value |
| Framing.WireHeader | libflowd/framing.go:83-103 | The header read back from Marshal's lines has a key exactly when Marshal printed it, and `Get` gives the printed value |
| Framing.WireExtensions | libflowd/framing.go:52-63 | The extension map rebuilt from Marshal's lines is the frame's own, nil included |
| Framing.PrintedExtension | libflowd/framing.go:95-103 | A non-reserved name is printed with a value exactly when it is an extension key, and then with that extension's value |
| Framing.PrintableFields | libflowd/framing.go:83-103 | A well-formed frame's fields all have non-empty token keys and clean values, so their lines read back unchanged |
| Framing.RoundTrip | libflowd/framing.go:77-114 | Parsing what Marshal writes for a well-formed frame gives that frame back and leaves the following bytes unread, for every iteration order of its extensions |
| Framing.FrameOfWireHeader | libflowd/framing.go:30-74 | All of `ParseFrame`'s checks pass on the header Marshal writes, and they rebuild every field of the frame |
| Framing.TruncatedBodyFails | libflowd/framing.go:65-72 | A stream cut off inside the body never gives a truncated frame. With no body byte present it fails with the EOF error. Otherwise it fails with the short-read error, naming how many bytes arrived and how many were expected |
| Framing.ParseFieldsErrors | libflowd/framing.go:30-47 | On a readable header block the checks run in the source's order. No `Type` fails with "missing Type header field". A `Type` without `.` fails with the separator error. A missing `Content-Length` fails with its own error. A first `Content-Length` value that `Atoi` cannot read fails with the conversion error. A negative one fails with `NegativeContentLength` |
| Framing.FirstValueWins | libflowd/framing.go:33-38 | Of a repeated `Type`, `Port` or `Content-Type`, the parsed frame carries the first value. A missing `Port` or `Content-Type` is the empty string. The body and the unread rest together are what followed the header |
| Framing.FrameOfFields | libflowd/framing.go:30-38 | A frame built from a header takes Type plus BodyType, Port and Content-Type from the first values of those names |
| Framing.ParseEmptyStream | libflowd/framing.go:26-29 | An empty stream fails with the wrapped "cannot parse into frame header" error, not `io.EOF` |
| Framing.MarshalNext | libflowd/framing.go:77-114 | One more Marshal call to a stream that already holds the marshalled frames `sent` appends exactly the new frame's bytes |
| Framing.WiresSnoc | libflowd/framing.go:77-114 | The bytes of several Marshal calls, one after another, grow by each new frame's wire form |
| Framing.ReadAll | libflowd/framing.go:23-75 | Reading frames one after another until the first failure never ends with `io.EOF` |
| Framing.WiresParse | libflowd/framing.go:23-114 | Marshalled well-formed frames parse back one by one, in order, whatever iteration orders were used, and leave what follows unread |
| Framing.ReadAllOf | libflowd/framing.go:23-75 | A stream that starts with the frames `fs`, followed by bytes that fail to parse, reads as `fs` and then that failure |
| Framing.ReadsBack | libflowd/framing.go:23-114 | A stream of marshalled well-formed frames reads back as exactly those frames, then the failure at the bytes after them |
| TextProto.CanonicalMIMEHeaderKey | libflowd/framing.go:117 | The canonical key differs from the key only in letter case, and it is a token exactly when the key is |
| TextProto.CanonicalIsIdempotent | libflowd/framing.go:117 | Canonicalising a canonical key changes nothing |
| TextProto.CanonicalIgnoresCase | libflowd/framing.go:117 | Token keys that differ only in case have the same canonical form |
| TextProto.ReadLine | libflowd/framing.go:26 | The next line holds no line feed. The rest is a strict suffix of the stream. There is no line exactly when the stream is empty |
| TextProto.TrimRight | libflowd/framing.go:26 | The line with its trailing ASCII spaces (space, tab, CR, LF) removed: a prefix of the line that does not end in one, and only such bytes were removed |
| TextProto.TrimLeftSpaceTab | libflowd/framing.go:26 | The value with its leading spaces and tabs removed: a suffix that does not start with one, and only such bytes were removed |
| TextProto.CleanValueHasNoLineEnd | libflowd/framing.go:117 | A value `printHeaderLine` can write holds neither CR nor LF |
| TextProto.CutField | libflowd/framing.go:26 | Cutting a line at its first colon gives a field with a non-empty key of token bytes and spaces, canonicalised, and a value of valid value bytes. Any other line is "malformed MIME header line" |
| TextProto.ParseHeaderLine | libflowd/framing.go:26 | A line that parses gives a field as `ReadMIMEHeader` stores it. A first line that starts with a space or tab is exactly the initial-line error. A line without a colon, and not starting with a blank, is exactly the missing-colon error. No failure is `io.EOF` |
| TextProto.ReadHeaderFrom | libflowd/framing.go:26 | A header block that reads leaves a strict suffix of the stream unread |
| TextProto.ReadMIMEHeader | libflowd/framing.go:26 | A header that reads holds only fields as `ReadMIMEHeader` stores them and leaves a strict suffix of the stream unread. An empty stream is `io.EOF`. A block whose first byte is a space or tab is the initial-line error |
| TextProto.AddKeepsFields | libflowd/framing.go:26 | Adding a read field keeps every key and value of the header in the form `ReadMIMEHeader` stores |
| TextProto.ReadHeaderKeepsFields | libflowd/framing.go:26 | Every header block that reads holds only fields in the stored form, whatever was read before |
| TextProto.InitialSpaceRefused | libflowd/framing.go:26 | A block whose first line starts with a space or tab fails with the initial-line error |
| TextProto.EmptyKeyIsMalformed | libflowd/framing.go:26 | A line with nothing before its colon is "malformed MIME header line", as in Go 1.21 |
| TextProto.SpacedKeyKept | libflowd/framing.go:26 | A key that holds a space is accepted and kept as written, not canonicalised |
| TextProto.ControlByteIsMalformed | libflowd/framing.go:26 | A value holding a control byte other than tab is "malformed MIME header line" |
| TextProto.TrimWrittenLine | libflowd/framing.go:117 | A line `printHeaderLine` writes loses only the space after the colon when its value is empty |
| TextProto.CutFieldAt | libflowd/framing.go:26 | A line made of a colon-free key, a colon and a value cuts to the canonical key and the value without its leading blanks |
| TextProto.CutWrittenField | libflowd/framing.go:117 | The trimmed line of a canonical key and a clean value cuts back to exactly that key and value |
| TextProto.ReadLineCRLF | libflowd/framing.go:117 | A line that `PrintfLine` ends with CR LF is read back whole, without the CR LF |
| TextProto.ParseWrittenLine | libflowd/framing.go:117 | A `key: value` line with a canonical key of token bytes and spaces, not starting with a space, and a clean value parses to that key and value |
| TextProto.ReadHeaderLine | libflowd/framing.go:116-121 | Reading back one line written by `printHeaderLine` adds exactly that field, under its canonical key |
| TextProto.EndOfHeader | libflowd/framing.go:123-128 | The empty line `finalizeHeader` writes ends the header block, and nothing after it is consumed |
| Text.SplitFirst | libflowd/framing.go:33-36 | `strings.SplitN(s, ".", 2)`: no result exactly when there is no separator. Otherwise the text is the part before, the separator, and the rest, and the part before holds no separator |
| Text.SplitFirstOfJoin | libflowd/framing.go:33 | `Type + "." + BodyType` with a dot-free `Type` splits back into `Type` and `BodyType` |
| Text.Split | examples/header-set-regex/header-set-regex.go:35 | `strings.Split` on one byte: at least one piece, and no piece holds the separator |
| Text.JoinSplit | examples/header-set-regex/header-set-regex.go:45 | Joining the pieces of a split with the separator gives back the text |
| Text.JoinOfSuffix | examples/header-set-regex/header-set-regex.go:45 | Joining the last pieces of a sequence gives the end of the joined whole |
| Text.JoinOfSplitSuffix | examples/header-set-regex/header-set-regex.go:35-45 | Joining the last pieces of a split gives the end of the split text, so the free arguments joined back are the end of the IIP |
| Text.SplitJoin | examples/header-set-regex/header-set-regex.go:35-45 | Splitting a join of separator-free pieces gives back the pieces |
| Text.Atoi | libflowd/framing.go:44-47 | `strconv.Atoi`: a value read fits a 64-bit `int`, comes from non-empty text, and is negative only after a `-`. A string of decimal digits within range reads as its decimal value |
| Text.Itoa | libflowd/framing.go:92 | `strconv.Itoa` of a length: one or more digits whose decimal value is the number, and no leading zero |
| Text.AtoiItoa | libflowd/framing.go:44 | `strconv.Atoi` reads back every length `Itoa` writes that a Go `int` can hold |
| Text.AtoiRejectsNonDecimal | libflowd/framing.go:44-47 | Text with a byte that is not a digit anywhere after its first byte is not an integer, so `Content-Length` conversion fails |
| Flowd.FindBoundary | flowd/flowd.go:222-235 | The search of the graph INPORTs or OUTPORTs, in any map order, finds a boundary port attached to the target process port. It finds none exactly when there is none |
| Flowd.FifoPath | flowd/flowd.go:238 | `/dev/shm/<proc>.<port>`: the prefix, then the process name, a dot and the port name |
| Flowd.FifoPathsDistinct | flowd/flowd.go:238 | For dot-free process names, two named-pipe paths are equal exactly when both the process and the port are the same |
| Flowd.InArgs | flowd/flowd.go:219-244 | Each inport adds exactly four arguments |
| Flowd.OutArgs | flowd/flowd.go:245-269 | Each outport adds exactly two arguments |
| Flowd.InportArgs | flowd/flowd.go:218-244 | The inport loop. Each inport's argument is the boundary path when the search found one and the path is non-empty, otherwise `/dev/shm/<proc>.<port>`. A named pipe is made exactly in that second case, in port order. The arguments are four per inport: `-inport`, its name, `-inpath`, its path |
| Flowd.OutportArgs | flowd/flowd.go:245-269 | The outport loop. The same as for inports, with the pipe `/dev/shm/<remoteProc>.<remotePort>`. The arguments are two per outport: `-outport=<name>`, then `-outpath=` and the path |
| Flowd.StartInstanceArgs | flowd/flowd.go:216-279 | The argument vector is the process name, the inport arguments, the outport arguments, then the free arguments. Its length is 1 + 4·inports + 2·outports + free arguments, for whatever order the boundary maps were searched in. The named pipes created are those of the inports, then those of the outports. The split failure that sends on `exitChan` (line 276) is reported exactly when an `ARGS` IIP fails to split, and its words are appended all the same |
| Flowd.InArgsLayout | flowd/flowd.go:243 | Inport `i` occupies arguments `4i .. 4i+3`: `-inport`, its name, `-inpath`, its path |
| Flowd.OutArgsLayout | flowd/flowd.go:268 | Outport `j` occupies arguments `2j` and `2j+1`: `-outport=<name>` and `-outpath=<path>` |
| Flowd.ArgvLayout | flowd/flowd.go:216-279 | The length is 1 + 4·inports + 2·outports + free arguments. The layout is the name, each inport in declared order, each outport in declared order, then the free arguments |
| Flowd.EdgeEndsAgree | flowd/flowd.go:236-266 | When outport `j` of A feeds inport `i` of B and no non-empty boundary path applies to either end, A's `-outpath=` argument carries exactly B's `-inpath` argument, and both are `/dev/shm/<B>.<port>` |
| Flowd.InFifosMembers | flowd/flowd.go:236-241 | A named pipe is made for an inport exactly when no non-empty boundary path applies to it, and it is that inport's `/dev/shm` path |
| Flowd.OutFifosMembers | flowd/flowd.go:261-266 | A named pipe is made for an outport exactly when no non-empty boundary path applies to it, and it is the path of the port it feeds |
| Flowd.BoundaryInPath | flowd/flowd.go:222-241 | An inport that a graph INPORT targets uses the supplied non-empty path, and no named pipe is made for it |
| Flowd.BoundaryOutPath | flowd/flowd.go:248-266 | An outport that feeds a graph OUTPORT uses the supplied non-empty path, and no named pipe is made for it |
| Flowd.FreeArgs | flowd/flowd.go:270-279 | Free arguments come only from a first IIP addressed to `ARGS`. They are then exactly the words `shellquote.Split` returns, also when it reports an error |
| Flowd.Argv | flowd/flowd.go:216-279 | The argument vector has 1 + 4·inports + 2·outports + free arguments entries. It starts with the process name and ends with the free arguments |
| Flowd.ListDependencies | flowd/flowd.go:93-108 | The loop over processes and their metadata, in any map order, collects the set `Dependencies` |
| Flowd.DependenciesExactly | flowd/flowd.go:93-108 | A name is reported exactly when some process has it as its component or under its `dep` metadata key |
| Flowd.DependenciesOrderFree | flowd/flowd.go:93-108 | The report is the same for any order of the processes |
| Supervisor.ValidTrace | flowd/flowd.go:154-171 | A valid trace sends at most one notification per process, and no name twice |
| Supervisor.Launch | flowd/flowd.go:132-140 | Every process gets a fresh instance with both drain channels open. The count is the number of processes. Nothing is queued |
| Supervisor.Advance | flowd/flowd.go:154-171 | After an event, `main` runs as far as it can and ends blocked. Either the count is zero, or no sender is waiting, or both drains of the received process are not yet closed. The invariant is kept: removals follow the order of the notifications, each after that process's exit and both drains |
| Supervisor.ReceiveKeepsInv | flowd/flowd.go:157 | Receiving from `exitChan` serves the first blocked sender and keeps the invariant |
| Supervisor.RemoveKeepsInv | flowd/flowd.go:163-170 | Clearing the instance and decrementing the count, once both drains happened, keeps the invariant. This includes the record that the removal came after the process's exit and both drains |
| Supervisor.ReceivingIsLive | flowd/flowd.go:157-163 | The process `main` waits on has not been removed and still has its instance |
| Supervisor.Deliver | flowd/flowd.go:296-379 | An exit notification queues the name on `exitChan` and changes nothing else. Closing a drain channel sets exactly that process's flag, and changes nothing else |
| Supervisor.DeliverKeepsInv | flowd/flowd.go:296-319 | An exit notification or the close of a drain channel keeps the invariant |
| Supervisor.DeliverExited | flowd/flowd.go:157 | An exit notification queues the name behind the senders already blocked |
| Supervisor.DeliverDrained | flowd/flowd.go:296-319 | Closing a drain channel leaves the removals and the queue of notifications as they were. The drain flags of every live instance again record exactly the closes seen |
| Supervisor.FinishedWhenFlagged | flowd/flowd.go:163-164 | A process whose exit was sent and whose two drain flags are both set has exited and had both outputs drained |
| Supervisor.ExitOrderMembers | flowd/flowd.go:157 | A name is among the notifications exactly when that process exited |
| Supervisor.ExitOrderDistinct | flowd/flowd.go:157 | Without repeated events, no name is sent twice |
| Supervisor.CompleteExitOrder | flowd/flowd.go:154-171 | In a complete trace each process sends its name exactly once. The number of notifications is the number of processes |
| Supervisor.NextEvent | flowd/flowd.go:154-171 | The next event of a valid trace is new, and the notifications so far are distinct |
| Supervisor.Supervise | flowd/flowd.go:154-171 | For any valid trace, the count is the number of processes not yet removed. The removed processes are exactly those whose instance is nil. They were removed in the order their exits were sent, each only after its exit and both drains had happened. When every process has exited and been drained, the count is zero and every process was removed exactly once |
| Supervisor.Outcome | flowd/flowd.go:154-171 | At the end of a trace the removed processes are a prefix of the notifications. When the trace is complete they are all of them and the count is zero |
| Supervisor.CompleteAll | flowd/flowd.go:155 | Once a complete trace has been delivered, the loop condition `instanceCount > 0` is false |
| Components.RingBuffer.constructor | flowd-rs/src/components/splitlines.rs:27-28 | A new buffer of the given capacity is empty and nothing has been popped from it |
| Components.RingBuffer.Push | flowd-rs/src/components/splitlines.rs:77 | `push` appends exactly when the buffer is not full, and otherwise changes nothing |
| Components.RingBuffer.Pop | flowd-rs/src/components/splitlines.rs:48 | `pop` gives the oldest item and removes it, or nothing when the buffer is empty. What was ever pushed is unchanged |
| Components.RingBuffer.PushAll | flowd-rs/src/components/splitlines.rs:48 | The upstream component's pushes append to the inport, in order, and pop nothing |
| Components.RingBuffer.Take | flowd-rs/src/components/splitlines.rs:80-82 | The downstream component pops up to `n` items. What was ever pushed is unchanged |
| Components.Dispatch | flowd-rs/src/components/splitlines.rs:33-45 | `stop` exactly stops, `ping` exactly answers, and anything else (or no signal) is ignored. trim.rs:33-45 is the same code |
| Components.Drive | flowd-rs/src/components/splitlines.rs:30-112 | The shared run of SplitLines never panics: it ends at a stop, when the upstream side is gone, or after the last round |
| Components.DriveRound | flowd-rs/src/components/splitlines.rs:30-112 | How one round continues the shared run: a stop ends it with nothing more taken; otherwise the round's queue is taken and its ping answered, and the run ends there when the upstream side is gone or goes on to the next round |
| Components.RepliesArePongs | flowd-rs/src/components/splitlines.rs:39-41 | The replies sent are exactly one `pong` per ping, and nothing else |
| Components.DrainedBeforeAbandon | flowd-rs/src/components/splitlines.rs:47-108 | A run that sees the upstream side gone at round `k` ends having taken every IP that arrived up to and including that round, and answered every ping |
| Components.StopEndsRun | flowd-rs/src/components/splitlines.rs:36-38 | A stop signal at round `k` ends the run before that round is drained. Only the IPs of the earlier rounds were taken |
| Components.UnknownSignalIgnored | flowd-rs/src/components/splitlines.rs:42-44 | A signal other than `stop` and `ping` makes the run exactly as if no signal had come |
| SplitLines.Lines | flowd-rs/src/components/splitlines.rs:61 | `str::lines()`: no piece holds a line feed |
| SplitLines.LinesLF | flowd-rs/src/components/splitlines.rs:61 | A line ended by a line feed comes out first, without the line feed and without one CR before it |
| SplitLines.LinesCRLF | flowd-rs/src/components/splitlines.rs:61 | A line ended by CR LF comes out without either |
| SplitLines.LinesStep | flowd-rs/src/components/splitlines.rs:61 | A plain line ended by a line feed comes out first, whole |
| SplitLines.LinesOfTerminated | flowd-rs/src/components/splitlines.rs:61 | Text made of lines, each ended by a line feed, splits back into exactly those lines, in order |
| SplitLines.UnterminatedLastLine | flowd-rs/src/components/splitlines.rs:61 | A non-empty last line without a line feed is emitted all the same |
| SplitLines.LinesCount | flowd-rs/src/components/splitlines.rs:61 | There is one line per line feed, plus one for a non-empty last line without one |
| SplitLines.SplitLinesComponent.constructor | flowd-rs/src/components/splitlines.rs:25-29 | The component holds the given inport and outport, and has sent no signal yet |
| SplitLines.SplitLinesComponent.PushLine | flowd-rs/src/components/splitlines.rs:77-85 | The line reaches the outport exactly once, also when the first push fails and the component waits for room |
| SplitLines.SplitLinesComponent.PushLines | flowd-rs/src/components/splitlines.rs:61-95 | The lines of one IP are sent, in order |
| SplitLines.SplitLinesComponent.DrainInport | flowd-rs/src/components/splitlines.rs:47-101 | The inner loop pops until the inport is empty. It takes every queued IP and sends the lines of each, in order |
| SplitLines.SplitLinesComponent.Iterate | flowd-rs/src/components/splitlines.rs:30-112 | One iteration. A stop signal ends it with nothing taken and nothing sent. Otherwise a ping is answered and every queued IP is taken and split |
| SplitLines.SplitLinesComponent.Step | flowd-rs/src/components/splitlines.rs:30-112 | One iteration, added to what the run has shown so far |
| SplitLines.SplitLinesComponent.Advance | flowd-rs/src/components/splitlines.rs:30-112 | One round of the run loop: it ends the run exactly as `Drive` says, or goes on to the next round with the inport drained and everything accounted for |
| SplitLines.SplitLinesComponent.LeaveInport | flowd-rs/src/components/splitlines.rs:47-104 | The IPs upstream pushes after the last pop and before it is seen gone stay in the inport, and nothing the run has shown changes |
| SplitLines.SplitLinesComponent.Run | flowd-rs/src/components/splitlines.rs:25-115 | The run loop ends as `Drive` says. It takes from the inport exactly the IPs `Drive` lists, sends their lines in order, and sends exactly `Drive`'s replies. It reports the round it ended in: a stop there, or the upstream side gone there after every earlier round ran through. When the upstream side is gone, the inport holds exactly the IPs pushed after the last pop (splitlines.rs:47-104), which are never taken |
| Trim.IsWhitespace | flowd-rs/src/components/trim.rs:55 | On ASCII, Rust's `char::is_whitespace` is exactly space, tab, LF, vertical tab, form feed and CR |
| Trim.TrimBy | flowd-rs/src/components/trim.rs:55 | Trimming by a predicate gives no longer a text with neither end matching it |
| Trim.Trim | flowd-rs/src/components/trim.rs:55 | `str::trim`: no longer than the input, neither end is whitespace, and a text already trimmed is unchanged |
| Trim.TrimStartShape | flowd-rs/src/components/trim.rs:55 | Trimming the start drops a run of whitespace and stops at a character that is not whitespace |
| Trim.TrimEndShape | flowd-rs/src/components/trim.rs:55 | Trimming the end drops a run of whitespace and stops at a character that is not whitespace |
| Trim.TrimIsInnerPiece | flowd-rs/src/components/trim.rs:55 | The trimmed text is one contiguous piece of the input, with only whitespace before and after it, and neither of its ends is whitespace |
| Trim.TrimOfPadded | flowd-rs/src/components/trim.rs:55 | Padding, then a piece whose ends are not padding, then padding, trims to exactly that piece, so interior whitespace is kept. All-whitespace text trims to nothing |
| Trim.TrimIdempotent | flowd-rs/src/components/trim.rs:55 | Trimming twice is trimming once |
| Trim.TrimDrive | flowd-rs/src/components/trim.rs:30-78 | A Trim run answers at most one ping per round |
| Trim.TrimRound | flowd-rs/src/components/trim.rs:30-78 | How one round continues a run: a stop, a panic when the IPs do not fit the room left, the end when the upstream side is gone, or the next round |
| Trim.RoundEnds | flowd-rs/src/components/trim.rs:30-78 | `TrimRound` read by how the iteration went: a stop ends the run with nothing more taken; a panic takes the IPs that fit and one more, and forwards only those that fit; otherwise the upstream side gone ends the run, or the next round follows |
| Trim.TrimDriveWithoutPanic | flowd-rs/src/components/trim.rs:47-74 | A Trim run that does not panic is exactly the shared `Drive` run, so it has the same signal and drain behaviour as SplitLines |
| Trim.PanicTakesOne | flowd-rs/src/components/trim.rs:61 | A run that panics has taken at least one IP: the one whose push failed |
| Trim.RoomMeansNoPanic | flowd-rs/src/components/trim.rs:61 | When the outport has room for every IP still to come, Trim never panics |
| Trim.TrimComponent.constructor | flowd-rs/src/components/trim.rs:25-29 | The component holds the given inport and outport, and has sent no signal yet |
| Trim.TrimComponent.DrainInport | flowd-rs/src/components/trim.rs:47-67 | The inner loop pushes exactly one trimmed IP per IP popped, in order. It panics exactly when the outport cannot hold them all; it has then taken one IP more than it pushed |
| Trim.TrimComponent.Receive | flowd-rs/src/components/trim.rs:47-61 | Upstream appends to the inport. Downstream takes up to `r.taken` IPs from the outport without changing what was pushed |
| Trim.TrimComponent.Iterate | flowd-rs/src/components/trim.rs:30-78 | One iteration. A stop signal ends it with nothing taken or sent. Otherwise a ping is answered and the inport drained. The drain panics exactly when the queue is longer than the room left, having taken one IP more than it forwarded |
| Trim.TrimComponent.Answer | flowd-rs/src/components/trim.rs:39-67 | An iteration that was not stopped: a ping gets exactly one pong, then the inport is drained. The drain panics exactly when the queue is longer than the room left in the outport, having taken one IP more than it forwarded |
| Trim.TrimComponent.Step | flowd-rs/src/components/trim.rs:30-78 | One iteration, added to what the run has shown so far |
| Trim.TrimComponent.Advance | flowd-rs/src/components/trim.rs:30-78 | One round of the run loop: it ends the run exactly as `TrimDrive` says, or goes on to the next round with everything accounted for |
| Trim.TrimComponent.LeaveInport | flowd-rs/src/components/trim.rs:47-70 | The IPs upstream pushes after the last pop and before it is seen gone stay in the inport, and nothing the run has shown changes |
| Trim.TrimComponent.Run | flowd-rs/src/components/trim.rs:25-81 | The run loop ends as `TrimDrive` says. It takes exactly the IPs `TrimDrive` lists and sends their trimmed texts in order, except the one lost in a panic. It sends the replies `TrimDrive` lists. It reports the round it ended in. When the upstream side is gone, the inport holds exactly the IPs pushed after the last pop (trim.rs:47-70), which are never taken |
| HeaderSetRegex.ParseBool | examples/header-set-regex/header-set-regex.go:33 | A `-debug=value` is true exactly for the words `strconv.ParseBool` reads as true, and false exactly for its false words |
| HeaderSetRegex.ApplyFlag | examples/header-set-regex/header-set-regex.go:30-35 | A flag that is accepted uses at least one argument and no more than remain, so flag parsing always moves on |
| HeaderSetRegex.ParseFlags | examples/header-set-regex/header-set-regex.go:35 | The free arguments that flag parsing leaves are a suffix of the arguments |
| HeaderSetRegex.Configure | examples/header-set-regex/header-set-regex.go:25-53 | The IIP is split at spaces and its flags parsed. A flag error is passed on. No free argument gives "missing regular expression". Otherwise the expression is the free arguments joined with spaces: it is accepted if it compiles, and refused with that text if not. An accepted expression is always the end of the IIP |
| HeaderSetRegex.PlainExpression | examples/header-set-regex/header-set-regex.go:35-49 | An IIP that does not start with `-` is the expression as a whole, spaces included, with the default field `myfield` and no debug output. The empty IIP gives the empty expression |
| HeaderSetRegex.FieldArgument | examples/header-set-regex/header-set-regex.go:31 | `-field=<name>` sets the field to `name`, and parsing goes on with the next argument |
| HeaderSetRegex.FieldThenExpression | examples/header-set-regex/header-set-regex.go:35-49 | `-field=<name> <expression>` sets the field, and the rest of the IIP after the first space is the expression |
| HeaderSetRegex.Rewritten | examples/header-set-regex/header-set-regex.go:79-101 | The forwarded frame goes to `OUT` and no other field changes. Without a match the extensions stay. With a match, the extension `field` is the submatch, made in a fresh map when the extensions were nil, and every other extension is kept |
| HeaderSetRegex.Filter | examples/header-set-regex/header-set-regex.go:61-105 | The frame loop never ends by the `io.EOF` test |
| HeaderSetRegex.FilterStream | examples/header-set-regex/header-set-regex.go:61-105 | The loop as the source runs it ends as `Filter` says. Its output is the marshalled `Filter` frames, one after another |
| HeaderSetRegex.ForwardedFrames | examples/header-set-regex/header-set-regex.go:72-101 | Every forwarded frame goes to `OUT`, and no PortClose frame is forwarded |
| HeaderSetRegex.RewriteAll | examples/header-set-regex/header-set-regex.go:79-101 | One rewritten frame per frame, in order |
| HeaderSetRegex.ForwardsUntilPortClose | examples/header-set-regex/header-set-regex.go:61-105 | An input of frames (none a PortClose notification, and each either unmatched or with a submatch) and then a PortClose notification forwards exactly those frames, rewritten, in order, and ends at the notification |
| HeaderSetRegex.ForwardsMarshalledUntilPortClose | examples/header-set-regex/header-set-regex.go:61-105 | The same for well-formed frames written by Marshal, whatever iteration orders it used |
| Cmd.BufSizeIsXor | examples/cmd/cmd.go:15 | `2 ^ 16` is 18, not 65536 |
| Cmd.ModeOf | examples/cmd/cmd.go:40-50 | `one` names One, `each` names Each, and every other word names no mode |
| Cmd.Describe | examples/cmd/cmd.go:25-39 | One and Each have their fixed descriptions. Every other value is "ERROR value out of range" |
| Cmd.DescriptionsDistinct | examples/cmd/cmd.go:25-39 | The description tells One and Each apart from each other and from an out-of-range value |
| Cmd.SetThenDescribe | examples/cmd/cmd.go:25-50 | A word `Set` accepts reads back through `String` as the description of the mode it names |
| Cmd.ModeFlag.constructor | examples/cmd/cmd.go:56 | The mode starts as One, the zero value |
| Cmd.ModeFlag.Set | examples/cmd/cmd.go:40-50 | No error exactly for `one` and `each`, which store their mode. Any other word is an error and leaves the mode unchanged |
| Cmd.ModeFlag.String | examples/cmd/cmd.go:25-39 | The description names the stored mode: it is One's text exactly for One and Each's text exactly for Each |
| Cmd.ToOut | examples/cmd/cmd.go:242 | The re-framed frame goes to `OUT`, and nothing else changes |
| Cmd.HandleCommandOutput | examples/cmd/cmd.go:226-251 | The relay writes every frame read before the first parse error, in order, each with port `OUT`. It stops at that error, and never reports it as `io.EOF` |
| Cmd.HandleCommandOutputRaw | examples/cmd/cmd.go:253-284 | Every successful read becomes one marshalled frame, in order. The frames are `data.Data` frames to `OUT` whose bodies are the bytes read |
| Cmd.RawFrameWellFormed | examples/cmd/cmd.go:256-261 | A raw frame of at most `bufSize` bytes is well formed, so it survives the wire |
| Cmd.RawOutputReadsBack | examples/cmd/cmd.go:253-284 | The raw relay's output reads back frame by frame as `data.Data` frames to `OUT`. Each body is exactly the bytes of one read, at most `bufSize` of them, in order |
| Cmd.RelayedOutputReadsBack | examples/cmd/cmd.go:226-251 | When the command writes well-formed frames, the relay reads exactly those frames. The network reads them back with only the port changed, to `OUT` |

## Left out

- **Process spawning and channels.** `StdoutPipe`/`StderrPipe`,
  `Mkfifo`/`os.Remove`, `cmd.Start`/`Wait`, goroutines, channels, condition
  variables and the busy wait are operating-system I/O and concurrency.
  - Named-pipe creation is the returned list of paths.
  - The supervisor is a state machine over a given event trace.
  - SplitLines' busy wait becomes the downstream component taking IPs.
- **Duplicate exit notifications from `startInstance`.** Its error paths send
  on `exitChan` without returning (flowd.go:212, 276, 292), which can notify
  twice. A valid trace has no repeated event, so the supervisor does not
  model this. `StartInstanceArgs` reports the failed split as `splitFailed`
  and still appends the words, as the source does.
- **Printing and output order.** Printing, `-deps` output order, `debug` and
  `quiet` logging, timing and `printruntime` are not modelled. The dependency
  report is a set.
- **textproto details.** The header grammar is Go 1.21's, with these
  differences:
  - Continuation lines, those after the first that start with a space or
    tab, are not folded into the line before; the model reports them as
    `Malformed`.
  - A line that starts with CR keeps it, and its key is then malformed. Go
    trims leading ASCII space from such a line.
  - `ReadMIMEHeader`'s limits on header size and on the number of headers
    are `math.MaxInt64`, so they are left out.
  - The buffered reader's peeking is left out; this changes no result.
- **Marshal write errors.** `bufio.Writer` write and flush errors are I/O, so
  a non-nil frame always marshals.
- **Marshal with a nil `Body`.** It would panic. In the model the body is
  always a byte sequence.
- **Negative or huge `Content-Length`.** `Atoi` accepts a negative value,
  and `make` then panics (framing.go:65). The model reports the failure
  `NegativeContentLength` instead. A value too large to allocate also ends
  the program in `make`: a panic above the largest allocation, or a fatal
  out-of-memory error. The model does not model memory. It reads such a
  frame like any other, so it reports `BodyShortRead` or `BodyEndOfStream`
  when the stream holds fewer bytes.
- **`ParseFrame` reads only what it needs.** The buffered reader's
  read-ahead is not modelled; the stream is its unread bytes.
- **Getting the IIPs.** `flowd.GetIIP` is not part of this model. The IIP
  text, and the frames after it, are given.
- **Exit status and output flushing in header-set-regex.** `os.Exit(1)` on a
  read error skips the deferred `Flush`. The model's output is what the loop
  handed to the buffered writer. Marshal errors at `header-set-regex.go:102`
  are not modelled.
- **header-set-regex without a capture group.** `matches[1]` panics on a
  match from an expression without a group. The model ends with `NoSubmatch`.
- **header-set-regex flags.** `ParseFlags` follows the documented behaviour
  of Go's `flag` package for one string and one boolean flag. `printUsage`
  and `PrintDefaults` are printing.
- **The rest of cmd's `main`.** This covers the flags other than `-mode`,
  `startCommand`, the `Each` loop, `io.Copy` and `copyFrameBodies`. They are
  subprocess and stream plumbing outside the modelled core.
- **Cmd.ModeFlag.String:** the `op == nil` test comes after `*op` has been
  read, so it is dead code and is not modelled.
- **Cmd.HandleCommandOutputRaw:** the chunks are given and not checked
  against `bufSize`. `RawOutputReadsBack` takes the `bufSize` bound as its
  precondition, which is what `bufr.Read(buf)` guarantees.
- **Rust `from_utf8` panics.** IPs are modelled as text; invalid UTF-8 is
  not.
- **Trim's outport buffer.** The model is `rtrb`'s behaviour on a full
  buffer: the `expect` panics and Trim stops. It does not model unwinding or
  the thread's death.
- **Wake-ups.** The model treats wake-ups as the boundaries between rounds.
  What a round contains is given, not scheduled. A round may say that
  upstream pushed IPs (`lost`) after the last pop and then went away. The
  run then ends with those IPs in the inport, untaken, as the source leaves
  them. Other interleavings inside a round are not modelled.
- **Signal output of the Rust components.** The `pong` replies are a
  sequence of strings; a failed `send` (its `expect`) is not modelled.
- **Other repository files.** `flowd-rs/src/main.rs`, `filereader.rs`,
  `file-tail.go` and the commented-out code of `flowd.go` are outside the
  modelled core.
