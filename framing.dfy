/**
 * The frame codec of libflowd/framing.go: a frame is a block of
 * `Name: value` header lines, an empty line, and exactly `Content-Length`
 * body bytes. `Parse` states the format as a function on the byte stream
 * (the `bufio.Reader`'s unread bytes); `ParseFrame` and `Marshal` are the
 * step-by-step operations of the source, proved equal to it.
 */
module Framing {
  import opened Wrappers
  import opened Text
  import opened TextProto

  /**
   * A frame. `extensions` is None for Go's nil map. The `Type` header on the
   * wire is `typ + "." + bodyType`.
   */
  datatype Frame = Frame(
    typ: Bytes,
    bodyType: Bytes,
    port: Bytes,
    contentType: Bytes,
    extensions: Option<map<Bytes, Bytes>>,
    body: Bytes)

  /** Why `ParseFrame` fails; each is reported by a new `errors.New` value. */
  datatype FrameError =
    | HeaderUnreadable(cause: ReadError)        // "cannot parse into frame header: ..."
    | MissingType                               // "missing Type header field"
    | MissingTypeSeparator                      // "missing separator in Type header field"
    | MissingContentLength                      // "missing Content-Length header field"
    | ContentLengthNotInteger                   // "converting content length to integer: ..."
    | NegativeContentLength                     // `make([]byte, n)` with n < 0 panics
    | BodyEndOfStream                           // "reading full frame body encountered EOF"
    | BodyShortRead(got: nat, expected: nat)    // "... short read %d bytes of %d expected"

  /** A Go `error` value as callers compare it: the `io.EOF` sentinel, or a fresh value. */
  datatype ErrorValue = IoEOF | NewError(reason: FrameError)

  /** The header names that have frame fields of their own. */
  const Reserved: set<Bytes> := {"Type", "Port", "Content-Type", "Content-Length"}

  /** `MIMEHeader.Get`: the first value of a key, or "" when it has none. */
  function Get(h: Header, k: Bytes): Bytes
  {
    if k in h && |h[k]| > 0 then h[k][0] else []
  }

  /** The extension map `ParseFrame` builds: nil when only reserved keys exist. */
  function ExtensionsOf(h: Header): (e: Option<map<Bytes, Bytes>>)
    ensures e.None? <==> h.Keys <= Reserved
    ensures e.Some? ==> e.value.Keys == h.Keys - Reserved && e.value != map[]
    ensures e.Some? ==> forall k :: k in e.value ==> e.value[k] == Get(h, k)
  {
    var others := h - Reserved;
    if |others| > 0 then Some(map k | k in others :: Get(h, k)) else None
  }

  /** The result of parsing one frame: the frame and the bytes after it. */
  type Parsed = Result<(Frame, Bytes), ErrorValue>

  /**
   * The frame at the start of `s`, as ParseFrame reads it. Every failure is a
   * new error value, never `io.EOF`, not even on an empty stream. On success
   * the body is exactly the declared Content-Length bytes after the header
   * block, the rest of the stream is left unread, and `Extensions` holds no
   * reserved key and is nil rather than empty.
   */
  function Parse(s: Bytes): (r: Parsed)
    ensures r.Failure? ==> r.error != IoEOF
    ensures r.Success? ==>
      && ReadMIMEHeader(s).Success?
      && Atoi(Get(ReadMIMEHeader(s).value.0, "Content-Length")) == Some(|r.value.0.body|)
      && ReadMIMEHeader(s).value.1 == r.value.0.body + r.value.1
    ensures r.Success? ==> |r.value.1| < |s| && IsSuffixOf(r.value.1, s)
    ensures r.Success? ==> '.' !in r.value.0.typ
    ensures r.Success? && r.value.0.extensions.Some? ==>
      r.value.0.extensions.value != map[] && r.value.0.extensions.value.Keys !! Reserved
  {
    match ReadMIMEHeader(s)
    case Failure(e) => Failure(NewError(HeaderUnreadable(e)))
    case Success((h, afterHeader)) =>
      var r := FrameOf(h, afterHeader);
      if r.Success? then
        SuffixOfConcat(r.value.0.body, r.value.1);
        SuffixTransitive(r.value.1, afterHeader, s);
        r
      else r
  }

  /** The checks ParseFrame makes on a header that was read, and the body read after it. */
  function FrameOf(h: Header, afterHeader: Bytes): (r: Parsed)
    ensures r.Failure? ==> r.error != IoEOF
    ensures r.Success? ==>
      && Atoi(Get(h, "Content-Length")) == Some(|r.value.0.body|)
      && afterHeader == r.value.0.body + r.value.1
      && '.' !in r.value.0.typ
    ensures r.Success? && r.value.0.extensions.Some? ==>
      r.value.0.extensions.value != map[] && r.value.0.extensions.value.Keys !! Reserved
  {
    if "Type" !in h then Failure(NewError(MissingType))
    else
      match SplitFirst(Get(h, "Type"), '.')
      case None => Failure(NewError(MissingTypeSeparator))
      case Some((typ, bodyType)) =>
        if "Content-Length" !in h then Failure(NewError(MissingContentLength))
        else
          match Atoi(Get(h, "Content-Length"))
          case None => Failure(NewError(ContentLengthNotInteger))
          case Some(n) =>
            if n < 0 then Failure(NewError(NegativeContentLength))
            else if |afterHeader| < n then
              Failure(NewError(if |afterHeader| == 0 then BodyEndOfStream else BodyShortRead(|afterHeader|, n)))
            else
              var ext := ExtensionsOf(h);
              assert ext.Some? ==> ext.value.Keys == (h - Reserved).Keys;
              assert afterHeader == afterHeader[..n] + afterHeader[n..];
              Success((Frame(typ, bodyType, Get(h, "Port"), Get(h, "Content-Type"), ext, afterHeader[..n]), afterHeader[n..]))
  }

  /** The four `delete` calls of ParseFrame: the reserved keys leave the header map. */
  method DeleteReserved(header: Header) returns (rest: Header)
    ensures rest == header - Reserved
  {
    rest := header;
    rest := rest - {"Type"};
    rest := rest - {"Port"};
    rest := rest - {"Content-Type"};
    rest := rest - {"Content-Length"};
    assert rest.Keys == header.Keys - Reserved;
  }

  /**
   * The extension part of ParseFrame: delete the reserved keys and, when keys
   * remain, copy each one's first value into a new map, one key at a time.
   */
  method CollectExtensions(header: Header) returns (ext: Option<map<Bytes, Bytes>>)
    ensures ext == ExtensionsOf(header)
  {
    var rest := DeleteReserved(header);
    ext := None;
    if |rest| > 0 {
      var m: map<Bytes, Bytes> := map[];
      var keys: set<Bytes> := rest.Keys;
      while keys != {}
        invariant keys <= rest.Keys
        invariant m.Keys == rest.Keys - keys
        invariant forall k :: k in m ==> m[k] == Get(header, k)
        decreases keys
      {
        var key: Bytes :| key in keys;
        m := m[key := Get(rest, key)];
        keys := keys - {key};
      }
      assert m == map k | k in rest :: Get(header, k);
      ext := Some(m);
    }
  }

  /**
   * ParseFrame as the source runs it: read the header block, check Type and
   * Content-Length, collect the extensions, then read exactly Content-Length
   * body bytes.
   */
  method ParseFrame(stream: Bytes) returns (r: Parsed)
    ensures r == Parse(stream)
  {
    var read := ReadMIMEHeader(stream);
    if read.Failure? {
      return Failure(NewError(HeaderUnreadable(read.error)));
    }
    var header: Header := read.value.0;
    var rest: Bytes := read.value.1;
    if "Type" !in header {
      return Failure(NewError(MissingType));
    }
    var types := SplitFirst(Get(header, "Type"), '.');
    if types.None? {
      return Failure(NewError(MissingTypeSeparator));
    }
    var f := Frame(types.value.0, types.value.1, Get(header, "Port"), Get(header, "Content-Type"), None, []);
    if "Content-Length" !in header {
      return Failure(NewError(MissingContentLength));
    }
    var lenInt := Atoi(Get(header, "Content-Length"));
    if lenInt.None? {
      return Failure(NewError(ContentLengthNotInteger));
    }
    var ext := CollectExtensions(header);
    f := f.(extensions := ext);
    var n := lenInt.value;
    if n < 0 {
      return Failure(NewError(NegativeContentLength));
    }
    if |rest| < n {
      if |rest| == 0 {
        return Failure(NewError(BodyEndOfStream));
      }
      return Failure(NewError(BodyShortRead(|rest|, n)));
    }
    f := f.(body := rest[..n]);
    r := Success((f, rest[n..]));
  }

  //
  // Marshal
  //

  /** A header field handed to `printHeaderLine`: a key (canonicalised on output) and a value. */
  type Field = (Bytes, Bytes)

  /** The header lines printed for a sequence of fields, in order. */
  function FieldLines(fs: seq<Field>): Bytes
  {
    if fs == [] then [] else HeaderLine(fs[0].0, fs[0].1) + FieldLines(fs[1..])
  }

  lemma {:induction false} FieldLinesSnoc(fs: seq<Field>, x: Field)
    ensures FieldLines(fs + [x]) == FieldLines(fs) + HeaderLine(x.0, x.1)
  {
    if fs == [] {
      assert FieldLines([x]) == HeaderLine(x.0, x.1) + FieldLines([]);
    } else {
      assert (fs + [x])[1..] == fs[1..] + [x];
      FieldLinesSnoc(fs[1..], x);
    }
  }

  /** Whether every key of `order` is a key of the extension map. */
  predicate InExtensions(order: seq<Bytes>, ext: Option<map<Bytes, Bytes>>)
  {
    match ext
    case None => order == []
    case Some(m) => forall i :: 0 <= i < |order| ==> order[i] in m
  }

  /** Whether `order` is an iteration order of the extension map: each key exactly once. */
  predicate IsIterationOrder(order: seq<Bytes>, ext: Option<map<Bytes, Bytes>>)
  {
    && InExtensions(order, ext)
    && (forall i, j :: 0 <= i < j < |order| ==> order[i] != order[j])
    && (ext.Some? ==> forall k :: k in ext.value ==> k in order)
  }

  /** The extension fields visited in `order`. */
  function ExtensionFields(m: map<Bytes, Bytes>, order: seq<Bytes>): (fs: seq<Field>)
    requires forall i :: 0 <= i < |order| ==> order[i] in m
  {
    if order == [] then [] else [(order[0], m[order[0]])] + ExtensionFields(m, order[1..])
  }

  lemma {:induction false} ExtensionFieldsSnoc(m: map<Bytes, Bytes>, order: seq<Bytes>, k: Bytes)
    requires forall i :: 0 <= i < |order| ==> order[i] in m
    requires k in m
    ensures ExtensionFields(m, order + [k]) == ExtensionFields(m, order) + [(k, m[k])]
  {
    if order != [] {
      assert (order + [k])[1..] == order[1..] + [k];
      ExtensionFieldsSnoc(m, order[1..], k);
    }
  }

  /** The names Marshal passes to `printHeaderLine`; it canonicalises them on output. */
  const TypeName: Bytes := "type"
  const PortName: Bytes := "port"
  const ContentTypeName: Bytes := "content-type"
  const ContentLengthName: Bytes := "content-length"

  /** Marshal's four names are tokens whose canonical forms are the reserved names. */
  lemma FixedNames()
    ensures IsToken(TypeName) && CanonicalMIMEHeaderKey(TypeName) == "Type"
    ensures IsToken(PortName) && CanonicalMIMEHeaderKey(PortName) == "Port"
    ensures IsToken(ContentTypeName) && CanonicalMIMEHeaderKey(ContentTypeName) == "Content-Type"
    ensures IsToken(ContentLengthName) && CanonicalMIMEHeaderKey(ContentLengthName) == "Content-Length"
  {
    TypeNames();
    ContentTypeNameCanonical();
    ContentLengthNameCanonical();
  }

  lemma TypeNames()
    ensures IsToken(TypeName) && CanonicalMIMEHeaderKey(TypeName) == "Type"
    ensures IsToken(PortName) && CanonicalMIMEHeaderKey(PortName) == "Port"
  {
    CanonicalOfLiteral(TypeName, "Type");
    CanonicalOfLiteral(PortName, "Port");
  }

  lemma ContentTypeNameCanonical()
    ensures IsToken(ContentTypeName) && CanonicalMIMEHeaderKey(ContentTypeName) == "Content-Type"
  {
    var s := ContentTypeName;
    assert IsTokenByte(s[0]) && IsTokenByte(s[1]) && IsTokenByte(s[2]) && IsTokenByte(s[3]);
    assert IsTokenByte(s[4]) && IsTokenByte(s[5]) && IsTokenByte(s[6]) && IsTokenByte(s[7]);
    assert IsTokenByte(s[8]) && IsTokenByte(s[9]) && IsTokenByte(s[10]) && IsTokenByte(s[11]);
    CanonicalOfLiteral(s, "Content-Type");
  }

  lemma ContentLengthNameCanonical()
    ensures IsToken(ContentLengthName) && CanonicalMIMEHeaderKey(ContentLengthName) == "Content-Length"
  {
    var s := ContentLengthName;
    assert IsTokenByte(s[0]) && IsTokenByte(s[1]) && IsTokenByte(s[2]) && IsTokenByte(s[3]);
    assert IsTokenByte(s[4]) && IsTokenByte(s[5]) && IsTokenByte(s[6]) && IsTokenByte(s[7]);
    assert IsTokenByte(s[8]) && IsTokenByte(s[9]) && IsTokenByte(s[10]) && IsTokenByte(s[11]);
    assert IsTokenByte(s[12]) && IsTokenByte(s[13]);
    CanonicalOfLiteral(s, "Content-Length");
  }

  /** The four fields every frame prints, in Marshal's order. */
  function BaseFields(f: Frame): seq<Field>
  {
    [(TypeName, f.typ + "." + f.bodyType), (PortName, f.port), (ContentTypeName, f.contentType),
     (ContentLengthName, Itoa(|f.body|))]
  }

  lemma BaseFieldLines(f: Frame)
    ensures FieldLines(BaseFields(f))
         == HeaderLine(TypeName, f.typ + "." + f.bodyType) + HeaderLine(PortName, f.port)
          + HeaderLine(ContentTypeName, f.contentType) + HeaderLine(ContentLengthName, Itoa(|f.body|))
  {
    var b: seq<Field> := BaseFields(f);
    var b1, b2, b3 := b[1..], b[2..], b[3..];
    var h0, h1 := HeaderLine(TypeName, f.typ + "." + f.bodyType), HeaderLine(PortName, f.port);
    var h2, h3 := HeaderLine(ContentTypeName, f.contentType), HeaderLine(ContentLengthName, Itoa(|f.body|));
    assert FieldLines(b3) == h3 by {
      assert b3[1..] == [];
      assert FieldLines(b3) == HeaderLine(b3[0].0, b3[0].1) + FieldLines([]);
    }
    assert FieldLines(b2) == h2 + h3 by {
      assert b2[1..] == b3;
    }
    assert FieldLines(b1) == h1 + (h2 + h3) by {
      assert b1[1..] == b2;
    }
    assert FieldLines(b) == h0 + (h1 + (h2 + h3)) by {
      assert b[1..] == b1;
    }
    AppendAssoc(h1, h2, h3);
    AppendAssoc(h0, h1 + h2, h3);
    AppendAssoc(h0, h1, h2);
  }

  /** All fields Marshal prints, in the order it prints them. */
  function FieldsOf(f: Frame, order: seq<Bytes>): seq<Field>
    requires InExtensions(order, f.extensions)
  {
    BaseFields(f) + (if f.extensions.Some? then ExtensionFields(f.extensions.value, order) else [])
  }

  /** Visiting one more unvisited key keeps the visit order free of repeats and complete with what is left. */
  lemma VisitOne<K, V>(m: map<K, V>, order: seq<K>, todo: set<K>, key: K)
    requires todo <= m.Keys && key in todo
    requires forall i :: 0 <= i < |order| ==> order[i] in m && order[i] !in todo
    requires forall i, j :: 0 <= i < j < |order| ==> order[i] != order[j]
    requires forall k :: k in m ==> k in order || k in todo
    ensures var o, t := order + [key], todo - {key};
            && t <= m.Keys
            && (forall i :: 0 <= i < |o| ==> o[i] in m && o[i] !in t)
            && (forall i, j :: 0 <= i < j < |o| ==> o[i] != o[j])
            && (forall k :: k in m ==> k in o || k in t)
  {
    var o := order + [key];
    forall k | k in m ensures k in o || k in todo - {key} {
      if k == key { assert o[|order|] == key; }
      else if k in order { var i :| 0 <= i < |order| && order[i] == k; assert o[i] == k; }
    }
  }

  /** Printing one more extension adds its header line. */
  lemma PrintExtension(f: Frame, order: seq<Bytes>, k: Bytes)
    requires f.extensions.Some? && InExtensions(order, f.extensions) && k in f.extensions.value
    ensures InExtensions(order + [k], f.extensions)
    ensures FieldLines(FieldsOf(f, order + [k])) == FieldLines(FieldsOf(f, order)) + HeaderLine(k, f.extensions.value[k])
  {
    var m := f.extensions.value;
    ExtensionFieldsSnoc(m, order, k);
    FieldLinesSnoc(FieldsOf(f, order), (k, m[k]));
    assert FieldsOf(f, order + [k]) == FieldsOf(f, order) + [(k, m[k])];
  }

  /**
   * The bytes Marshal writes for `f` when the extensions are visited in
   * `order`: the Type line first, the body last.
   */
  function Wire(f: Frame, order: seq<Bytes>): (w: Bytes)
    requires InExtensions(order, f.extensions)
    ensures HeaderLine(TypeName, f.typ + "." + f.bodyType) <= w
    ensures |f.body| <= |w| && w[|w| - |f.body|..] == f.body
  {
    var fs := FieldsOf(f, order);
    assert fs[0] == (TypeName, f.typ + "." + f.bodyType);
    FirstLineLeads(fs, "\r\n" + f.body);
    FieldLines(fs) + "\r\n" + f.body
  }

  /** Printed fields start with the line of the first one. */
  lemma FirstLineLeads(fs: seq<Field>, tail: Bytes)
    requires fs != []
    ensures HeaderLine(fs[0].0, fs[0].1) <= FieldLines(fs) + tail
  {
    assert FieldLines(fs) + tail == HeaderLine(fs[0].0, fs[0].1) + (FieldLines(fs[1..]) + tail);
  }

  lemma WireOfHeader(f: Frame, order: seq<Bytes>, header: Bytes)
    requires InExtensions(order, f.extensions) && header == FieldLines(FieldsOf(f, order))
    ensures header + "\r\n" + f.body == Wire(f, order)
  {
  }

  /** Why Marshal fails. */
  datatype MarshalError = NilFrame   // "refusing to marshal nil frame"

  /**
   * The first four `printHeaderLine` calls of Marshal, into an empty buffer:
   * Type (with the body type after a dot), Port, Content-Type and the body
   * length as Content-Length.
   */
  method PrintFixedFields(f: Frame) returns (out: Bytes)
    ensures out == FieldLines(BaseFields(f))
  {
    out := [];
    var typeLine := HeaderLine(TypeName, f.typ + "." + f.bodyType);
    assert out + typeLine == typeLine;
    out := out + typeLine;
    out := out + HeaderLine(PortName, f.port);
    out := out + HeaderLine(ContentTypeName, f.contentType);
    out := out + HeaderLine(ContentLengthName, Itoa(|f.body|));
    BaseFieldLines(f);
  }

  /**
   * The extension loop of Marshal: one header line per extension, appended to
   * the buffered output in the map's iteration order.
   */
  method PrintExtensions(f: Frame, w: Bytes) returns (out: Bytes, ghost order: seq<Bytes>)
    requires w == FieldLines(BaseFields(f))
    ensures IsIterationOrder(order, f.extensions) && out == FieldLines(FieldsOf(f, order))
  {
    out := w;
    order := [];
    assert FieldsOf(f, order) == BaseFields(f);
    if f.extensions.Some? {
      var m := f.extensions.value;
      var todo: set<Bytes> := m.Keys;
      while todo != {}
        invariant todo <= m.Keys
        invariant forall i :: 0 <= i < |order| ==> order[i] in m && order[i] !in todo
        invariant forall i, j :: 0 <= i < j < |order| ==> order[i] != order[j]
        invariant forall k :: k in m ==> k in order || k in todo
        invariant out == FieldLines(FieldsOf(f, order))
        decreases todo
      {
        var key: Bytes :| key in todo;
        out := out + HeaderLine(key, m[key]);
        PrintExtension(f, order, key);
        VisitOne(m, order, todo, key);
        order := order + [key];
        todo := todo - {key};
      }
    }
  }

  /**
   * `(*Frame).Marshal`: the header lines one by one into a buffered writer,
   * the extensions in the map's (unspecified) iteration order, the empty
   * line, the body, then the flush. The result is the bytes flushed to the
   * stream. A nil frame is an error.
   */
  method Marshal(f: Option<Frame>) returns (r: Result<Bytes, MarshalError>, ghost order: seq<Bytes>)
    ensures f.None? ==> r == Failure(NilFrame)
    ensures f.Some? ==> IsIterationOrder(order, f.value.extensions) && r == Success(Wire(f.value, order))
  {
    order := [];
    if f.None? {
      return Failure(NilFrame), order;
    }
    var fr := f.value;
    var bufw := PrintFixedFields(fr);
    bufw, order := PrintExtensions(fr, bufw);
    ghost var header := bufw;
    bufw := bufw + "\r\n";
    bufw := bufw + fr.body;
    WireOfHeader(fr, order, header);
    r := Success(bufw);
  }

  //
  // Reading back what Marshal writes
  //

  /** Fields whose header lines read back unchanged. */
  predicate Printable(fs: seq<Field>)
  {
    forall i :: 0 <= i < |fs| ==> |fs[i].0| > 0 && IsToken(fs[i].0) && IsCleanValue(fs[i].1)
  }

  /** The header map that reading `fs`'s lines adds to `acc`. */
  function AddFields(acc: Header, fs: seq<Field>): Header
    decreases |fs|
  {
    if fs == [] then acc else AddFields(Add(acc, CanonicalMIMEHeaderKey(fs[0].0), fs[0].1), fs[1..])
  }

  /** The values of the fields whose canonical key is `k`, in order. */
  function ValuesOf(fs: seq<Field>, k: Bytes): seq<Bytes>
  {
    if fs == [] then []
    else (if CanonicalMIMEHeaderKey(fs[0].0) == k then [fs[0].1] else []) + ValuesOf(fs[1..], k)
  }

  function FirstOr(vs: seq<Bytes>): Bytes { if vs == [] then [] else vs[0] }

  /** Printed header lines followed by the empty line read back as exactly those fields. */
  lemma {:induction false} ReadFieldLines(fs: seq<Field>, s: Bytes, acc: Header)
    requires Printable(fs)
    ensures ReadHeaderFrom(FieldLines(fs) + "\r\n" + s, acc) == Success((AddFields(acc, fs), s))
  {
    if fs == [] {
      assert FieldLines(fs) + "\r\n" + s == "\r\n" + s;
      EndOfHeader(s, acc);
    } else {
      var tail := FieldLines(fs[1..]) + "\r\n" + s;
      assert FieldLines(fs) + "\r\n" + s == HeaderLine(fs[0].0, fs[0].1) + tail by {
        AppendAssoc(HeaderLine(fs[0].0, fs[0].1), FieldLines(fs[1..]), "\r\n");
        AppendAssoc(HeaderLine(fs[0].0, fs[0].1), FieldLines(fs[1..]) + "\r\n", s);
      }
      ReadHeaderLine(fs[0].0, fs[0].1, tail, acc);
      ReadFieldLines(fs[1..], s, Add(acc, CanonicalMIMEHeaderKey(fs[0].0), fs[0].1));
    }
  }

  /** A key's values after reading fields: the earlier ones, then those of the fields, in order. */
  lemma {:induction false} AddFieldsValues(acc: Header, fs: seq<Field>, k: Bytes)
    ensures k in AddFields(acc, fs) <==> k in acc || ValuesOf(fs, k) != []
    ensures k in AddFields(acc, fs) ==>
      AddFields(acc, fs)[k] == (if k in acc then acc[k] else []) + ValuesOf(fs, k)
    decreases |fs|
  {
    if fs != [] {
      var c, v, tail := CanonicalMIMEHeaderKey(fs[0].0), fs[0].1, fs[1..];
      var acc' := Add(acc, c, v);
      var before := if k in acc then acc[k] else [];
      assert AddFields(acc, fs) == AddFields(acc', tail);
      assert ValuesOf(fs, k) == (if c == k then [v] else []) + ValuesOf(tail, k);
      AddFieldsValues(acc', tail, k);
      if k == c {
        assert k in acc' && acc'[k] == before + [v];
        assert before + [v] + ValuesOf(tail, k) == before + ([v] + ValuesOf(tail, k));
      } else {
        assert (k in acc' <==> k in acc) && (k in acc ==> acc'[k] == acc[k]);
        assert ValuesOf(fs, k) == ValuesOf(tail, k);
      }
    }
  }

  /** In a header read from fields alone, `Get` is the first value with that key. */
  lemma HeaderOfFields(fs: seq<Field>, k: Bytes)
    ensures k in AddFields(map[], fs) <==> ValuesOf(fs, k) != []
    ensures Get(AddFields(map[], fs), k) == FirstOr(ValuesOf(fs, k))
  {
    AddFieldsValues(map[], fs, k);
  }

  lemma {:induction false} ValuesOfConcat(a: seq<Field>, b: seq<Field>, k: Bytes)
    ensures ValuesOf(a + b, k) == ValuesOf(a, k) + ValuesOf(b, k)
  {
    if a != [] {
      ValuesOfConcat(a[1..], b, k);
      var head: seq<Bytes> := if CanonicalMIMEHeaderKey(a[0].0) == k then [a[0].1] else [];
      assert ValuesOf(a + b, k) == head + ValuesOf(a[1..] + b, k) by {
        ConsOfConcat(a, b);
      }
      assert ValuesOf(a, k) == head + ValuesOf(a[1..], k);
      AppendAssoc(head, ValuesOf(a[1..], k), ValuesOf(b, k));
    } else {
      assert a + b == b;
      AppendEmpty(ValuesOf(b, k));
    }
  }

  /** The canonical keys of the four fixed fields are the reserved names. */
  lemma BaseValues(f: Frame, k: Bytes)
    ensures ValuesOf(BaseFields(f), k) ==
      if k == "Type" then [f.typ + "." + f.bodyType]
      else if k == "Port" then [f.port]
      else if k == "Content-Type" then [f.contentType]
      else if k == "Content-Length" then [Itoa(|f.body|)]
      else []
  {
    FixedNames();
    var b: seq<Field> := BaseFields(f);
    var b1, b2, b3 := b[1..], b[2..], b[3..];
    assert b1[1..] == b2 && b2[1..] == b3 && b3[1..] == [];
    assert ValuesOf(b3, k) == (if k == "Content-Length" then [Itoa(|f.body|)] else []) + ValuesOf([], k);
    assert ValuesOf(b2, k) == (if k == "Content-Type" then [f.contentType] else []) + ValuesOf(b3, k);
    assert ValuesOf(b1, k) == (if k == "Port" then [f.port] else []) + ValuesOf(b2, k);
    assert ValuesOf(b, k) == (if k == "Type" then [f.typ + "." + f.bodyType] else []) + ValuesOf(b1, k);
  }

  /** A key that the constructor and printer of extensions can carry. */
  predicate IsExtensionKey(k: Bytes)
  {
    |k| > 0 && IsToken(k) && CanonicalMIMEHeaderKey(k) == k && k !in Reserved
  }

  /** Each key of an iteration order contributes its one value. */
  lemma {:induction false} ExtensionValues(m: map<Bytes, Bytes>, order: seq<Bytes>, k: Bytes)
    requires forall i :: 0 <= i < |order| ==> order[i] in m && IsExtensionKey(order[i])
    requires forall i, j :: 0 <= i < j < |order| ==> order[i] != order[j]
    ensures ValuesOf(ExtensionFields(m, order), k) == if k in order then [m[k]] else []
  {
    if order != [] {
      var fs := ExtensionFields(m, order);
      assert fs[1..] == ExtensionFields(m, order[1..]);
      ExtensionValues(m, order[1..], k);
      assert order == [order[0]] + order[1..];
      if k == order[0] {
        assert k !in order[1..];
      }
    }
  }

  /**
   * The frames that survive a write and a read: a type without a dot, values
   * with no line breaks and no surrounding blanks, a body length a Go int
   * can hold, and extensions keyed by canonical non-reserved names, nil
   * rather than empty.
   */
  predicate WellFormed(f: Frame)
  {
    && '.' !in f.typ
    && IsCleanValue(f.typ + "." + f.bodyType) && IsCleanValue(f.port) && IsCleanValue(f.contentType)
    && |f.body| <= MaxInt64
    && match f.extensions
       case None => true
       case Some(m) => m != map[] && forall k :: k in m ==> IsExtensionKey(k) && IsCleanValue(m[k])
  }

  lemma ItoaIsClean(n: nat)
    ensures IsCleanValue(Itoa(n))
  {
    var r := Itoa(n);
    assert forall i :: 0 <= i < |r| ==> IsDigit(r[i]);
  }

  lemma BasePrintable(f: Frame)
    requires IsCleanValue(f.typ + "." + f.bodyType) && IsCleanValue(f.port) && IsCleanValue(f.contentType)
    ensures Printable(BaseFields(f))
  {
    ItoaIsClean(|f.body|);
    FixedNames();
  }

  lemma PrintableConcat(a: seq<Field>, b: seq<Field>)
    requires Printable(a) && Printable(b)
    ensures Printable(a + b)
  {
    forall i | 0 <= i < |a + b| ensures |(a + b)[i].0| > 0 && IsToken((a + b)[i].0) && IsCleanValue((a + b)[i].1) {
      if i >= |a| {
        assert (a + b)[i] == b[i - |a|];
      }
    }
  }

  lemma PrintableFields(f: Frame, order: seq<Bytes>)
    requires WellFormed(f) && IsIterationOrder(order, f.extensions)
    ensures Printable(FieldsOf(f, order))
  {
    BasePrintable(f);
    var e := if f.extensions.Some? then ExtensionFields(f.extensions.value, order) else [];
    if f.extensions.Some? {
      var m := f.extensions.value;
      forall i | 0 <= i < |e| ensures |e[i].0| > 0 && IsToken(e[i].0) && IsCleanValue(e[i].1) {
        ExtensionFieldAt(m, order, i);
      }
    }
    PrintableConcat(BaseFields(f), e);
  }

  lemma {:induction false} ExtensionFieldAt(m: map<Bytes, Bytes>, order: seq<Bytes>, i: nat)
    requires forall j :: 0 <= j < |order| ==> order[j] in m
    requires i < |ExtensionFields(m, order)|
    ensures i < |order| && ExtensionFields(m, order)[i] == (order[i], m[order[i]])
  {
    if i > 0 {
      ExtensionFieldAt(m, order[1..], i - 1);
    }
  }

  /** The one value Marshal prints under the canonical name `k`, if any. */
  function PrintedValue(f: Frame, k: Bytes): Option<Bytes>
  {
    if k == "Type" then Some(f.typ + "." + f.bodyType)
    else if k == "Port" then Some(f.port)
    else if k == "Content-Type" then Some(f.contentType)
    else if k == "Content-Length" then Some(Itoa(|f.body|))
    else if f.extensions.Some? && k in f.extensions.value then Some(f.extensions.value[k])
    else None
  }

  lemma WireValues(f: Frame, order: seq<Bytes>, k: Bytes)
    requires WellFormed(f) && IsIterationOrder(order, f.extensions)
    ensures ValuesOf(FieldsOf(f, order), k) == if PrintedValue(f, k).Some? then [PrintedValue(f, k).value] else []
  {
    var ext := if f.extensions.Some? then ExtensionFields(f.extensions.value, order) else [];
    ValuesOfConcat(BaseFields(f), ext, k);
    BaseValues(f, k);
    if f.extensions.Some? {
      var m := f.extensions.value;
      ExtensionValues(m, order, k);
      if k in Reserved {
        assert k !in m;
        assert k !in order;
      }
    }
  }

  /** The header Marshal's lines produce holds one value per printed name. */
  lemma WireHeader(f: Frame, order: seq<Bytes>, k: Bytes)
    requires WellFormed(f) && IsIterationOrder(order, f.extensions)
    ensures k in AddFields(map[], FieldsOf(f, order)) <==> PrintedValue(f, k).Some?
    ensures PrintedValue(f, k).Some? ==> Get(AddFields(map[], FieldsOf(f, order)), k) == PrintedValue(f, k).value
  {
    HeaderOfFields(FieldsOf(f, order), k);
    WireValues(f, order, k);
  }

  /** The extension map read back from Marshal's lines is the frame's own. */
  lemma WireExtensions(f: Frame, order: seq<Bytes>)
    requires WellFormed(f) && IsIterationOrder(order, f.extensions)
    ensures ExtensionsOf(AddFields(map[], FieldsOf(f, order))) == f.extensions
  {
    var h := AddFields(map[], FieldsOf(f, order));
    var others := h - Reserved;
    forall k ensures k in others <==> f.extensions.Some? && k in f.extensions.value {
      WireHeader(f, order, k);
      if k !in Reserved {
        PrintedExtension(f, k);
      }
    }
    match f.extensions
    case None =>
      assert others == map[];
    case Some(m) =>
      forall k | k in m ensures Get(h, k) == m[k] {
        WireHeader(f, order, k);
        PrintedExtension(f, k);
      }
      var k0 :| k0 in m;
      assert k0 in others;
      assert (map k | k in others :: Get(h, k)) == m;
  }

  lemma PrintedExtension(f: Frame, k: Bytes)
    requires k !in Reserved
    ensures PrintedValue(f, k) == if f.extensions.Some? && k in f.extensions.value then Some(f.extensions.value[k]) else None
  {
  }

  /**
   * The round trip: whatever iteration order Marshal used, ParseFrame reads
   * a well-formed frame back unchanged and leaves the following bytes unread.
   */
  lemma RoundTrip(f: Frame, order: seq<Bytes>, rest: Bytes)
    requires WellFormed(f) && IsIterationOrder(order, f.extensions)
    ensures Parse(Wire(f, order) + rest) == Success((f, rest))
  {
    var fs := FieldsOf(f, order);
    PrintableFields(f, order);
    WireThenRest(f, order, rest);
    ReadFieldLines(fs, f.body + rest, map[]);
    FrameOfWireHeader(f, order, rest);
  }

  lemma WireThenRest(f: Frame, order: seq<Bytes>, rest: Bytes)
    requires InExtensions(order, f.extensions)
    ensures Wire(f, order) + rest == FieldLines(FieldsOf(f, order)) + "\r\n" + (f.body + rest)
  {
  }

  /** The checks of ParseFrame pass on the header Marshal writes. */
  lemma FrameOfWireHeader(f: Frame, order: seq<Bytes>, rest: Bytes)
    requires WellFormed(f) && IsIterationOrder(order, f.extensions)
    ensures FrameOf(AddFields(map[], FieldsOf(f, order)), f.body + rest) == Success((f, rest))
  {
    var h := AddFields(map[], FieldsOf(f, order));
    WireHeader(f, order, "Type");
    WireHeader(f, order, "Port");
    WireHeader(f, order, "Content-Type");
    WireHeader(f, order, "Content-Length");
    WireExtensions(f, order);
    SplitFirstOfJoin(f.typ, '.', f.bodyType);
    AtoiItoa(|f.body|);
    var after := f.body + rest;
    assert after[..|f.body|] == f.body && after[|f.body|..] == rest;
  }

  /**
   * A stream cut off inside the body fails: with no body byte left it is the
   * EOF error, otherwise the short read, naming how many bytes arrived.
   */
  lemma TruncatedBodyFails(f: Frame, order: seq<Bytes>, k: nat)
    requires WellFormed(f) && IsIterationOrder(order, f.extensions) && k < |f.body|
    ensures Parse(FieldLines(FieldsOf(f, order)) + "\r\n" + f.body[..k])
         == Failure(NewError(if k == 0 then BodyEndOfStream else BodyShortRead(k, |f.body|)))
  {
    var fs := FieldsOf(f, order);
    PrintableFields(f, order);
    ReadFieldLines(fs, f.body[..k], map[]);
    WireHeader(f, order, "Type");
    WireHeader(f, order, "Content-Length");
    SplitFirstOfJoin(f.typ, '.', f.bodyType);
    AtoiItoa(|f.body|);
  }

  /**
   * The order of ParseFrame's checks on any header block it can read: a block
   * without Type fails first, a Type without a dot next, then a missing
   * Content-Length, then a first Content-Length that is not a decimal
   * integer, then a negative one.
   */
  lemma ParseFieldsErrors(fs: seq<Field>, s: Bytes)
    requires Printable(fs)
    ensures ValuesOf(fs, "Type") == [] ==>
      Parse(FieldLines(fs) + "\r\n" + s) == Failure(NewError(MissingType))
    ensures ValuesOf(fs, "Type") != [] && '.' !in ValuesOf(fs, "Type")[0] ==>
      Parse(FieldLines(fs) + "\r\n" + s) == Failure(NewError(MissingTypeSeparator))
    ensures ValuesOf(fs, "Type") != [] && '.' in ValuesOf(fs, "Type")[0] && ValuesOf(fs, "Content-Length") == [] ==>
      Parse(FieldLines(fs) + "\r\n" + s) == Failure(NewError(MissingContentLength))
    ensures && ValuesOf(fs, "Type") != [] && '.' in ValuesOf(fs, "Type")[0] && ValuesOf(fs, "Content-Length") != []
            && Atoi(ValuesOf(fs, "Content-Length")[0]).None? ==>
      Parse(FieldLines(fs) + "\r\n" + s) == Failure(NewError(ContentLengthNotInteger))
    ensures && ValuesOf(fs, "Type") != [] && '.' in ValuesOf(fs, "Type")[0] && ValuesOf(fs, "Content-Length") != []
            && Atoi(ValuesOf(fs, "Content-Length")[0]).Some? && Atoi(ValuesOf(fs, "Content-Length")[0]).value < 0 ==>
      Parse(FieldLines(fs) + "\r\n" + s) == Failure(NewError(NegativeContentLength))
  {
    ReadFieldLines(fs, s, map[]);
    HeaderOfFields(fs, "Type");
    HeaderOfFields(fs, "Content-Length");
  }

  /**
   * Of a header name given more than once, ParseFrame keeps the first value;
   * a missing Port or Content-Type is the empty string.
   */
  lemma FirstValueWins(fs: seq<Field>, s: Bytes)
    requires Printable(fs)
    ensures var r := Parse(FieldLines(fs) + "\r\n" + s);
      r.Success? ==>
        && ValuesOf(fs, "Type") != []
        && r.value.0.typ + "." + r.value.0.bodyType == ValuesOf(fs, "Type")[0]
        && r.value.0.port == FirstOr(ValuesOf(fs, "Port"))
        && r.value.0.contentType == FirstOr(ValuesOf(fs, "Content-Type"))
        && r.value.0.body + r.value.1 == s
  {
    ReadFieldLines(fs, s, map[]);
    var h := AddFields(map[], fs);
    HeaderOfFields(fs, "Type");
    HeaderOfFields(fs, "Port");
    HeaderOfFields(fs, "Content-Type");
    FrameOfFields(h, s);
  }

  /** A frame taken from a header carries the first values of its fixed names. */
  lemma FrameOfFields(h: Header, after: Bytes)
    ensures var r := FrameOf(h, after);
      r.Success? ==>
        && "Type" in h
        && r.value.0.typ + "." + r.value.0.bodyType == Get(h, "Type")
        && r.value.0.port == Get(h, "Port")
        && r.value.0.contentType == Get(h, "Content-Type")
  {
  }

  /** An empty stream is an unreadable header, not `io.EOF`. */
  lemma ParseEmptyStream()
    ensures Parse([]) == Failure(NewError(HeaderUnreadable(EndOfStream)))
  {
  }
  //
  // Streams of frames
  //

  /** One iteration order per frame, as successive Marshal calls choose them. */
  predicate OrdersFor(fs: seq<Frame>, orders: seq<seq<Bytes>>)
  {
    |orders| == |fs| && forall i :: 0 <= i < |fs| ==> IsIterationOrder(orders[i], fs[i].extensions)
  }

  /** The bytes of the frames `fs` marshalled one after another. */
  function Wires(fs: seq<Frame>, orders: seq<seq<Bytes>>): Bytes
    requires OrdersFor(fs, orders)
  {
    if fs == [] then [] else Wire(fs[0], orders[0]) + Wires(fs[1..], orders[1..])
  }

  /** Marshalling one more frame appends its bytes. */
  lemma {:induction false} WiresSnoc(fs: seq<Frame>, orders: seq<seq<Bytes>>, f: Frame, order: seq<Bytes>)
    requires OrdersFor(fs, orders) && IsIterationOrder(order, f.extensions)
    ensures OrdersFor(fs + [f], orders + [order])
    ensures Wires(fs + [f], orders + [order]) == Wires(fs, orders) + Wire(f, order)
  {
    var fs', orders' := fs + [f], orders + [order];
    if fs == [] {
      assert fs'[1..] == [] && orders'[1..] == [];
      AppendEmpty(Wire(f, order));
    } else {
      assert fs'[1..] == fs[1..] + [f] && orders'[1..] == orders[1..] + [order];
      WiresSnoc(fs[1..], orders[1..], f, order);
      AppendAssoc(Wire(fs[0], orders[0]), Wires(fs[1..], orders[1..]), Wire(f, order));
    }
  }

  /**
   * Marshal `f` to a stream that already holds the frames `sent`: the
   * stream grows by the bytes of `f`.
   */
  method MarshalNext(out: Bytes, ghost sent: seq<Frame>, ghost orders: seq<seq<Bytes>>, f: Frame)
      returns (out': Bytes, ghost orders': seq<seq<Bytes>>)
    requires OrdersFor(sent, orders) && out == Wires(sent, orders)
    ensures OrdersFor(sent + [f], orders') && out' == Wires(sent + [f], orders')
  {
    var w, order := Marshal(Some(f));
    WiresSnoc(sent, orders, f, order);
    out' := out + w.value;
    orders' := orders + [order];
  }

  /**
   * The frames read from `s` one after another until ParseFrame first fails,
   * and that failure.
   */
  function ReadAll(s: Bytes): (r: (seq<Frame>, ErrorValue))
    ensures r.1 != IoEOF
    decreases |s|
  {
    var p := Parse(s);
    if p.Failure? then ([], p.error)
    else
      var t := ReadAll(p.value.1);
      ([p.value.0] + t.0, t.1)
  }

  /** `s` starts with the frames `fs`, one after another, and `rest` follows them. */
  predicate ParsesAs(s: Bytes, fs: seq<Frame>, rest: Bytes)
    decreases |fs|
  {
    if fs == [] then s == rest
    else
      var p := Parse(s);
      p.Success? && p.value.0 == fs[0] && ParsesAs(p.value.1, fs[1..], rest)
  }

  /** Marshalled well-formed frames parse back one by one, whatever iteration orders Marshal chose. */
  lemma {:induction false} WiresParse(fs: seq<Frame>, orders: seq<seq<Bytes>>, rest: Bytes)
    requires OrdersFor(fs, orders) && forall i :: 0 <= i < |fs| ==> WellFormed(fs[i])
    ensures ParsesAs(Wires(fs, orders) + rest, fs, rest)
  {
    if fs == [] {
      AppendEmpty(rest);
    } else {
      var tail := Wires(fs[1..], orders[1..]) + rest;
      AppendAssoc(Wire(fs[0], orders[0]), Wires(fs[1..], orders[1..]), rest);
      RoundTrip(fs[0], orders[0], tail);
      WiresParse(fs[1..], orders[1..], rest);
    }
  }

  /** Reading all frames of a stream that starts with `fs` gives `fs` and then the failure at `rest`. */
  lemma {:induction false} ReadAllOf(s: Bytes, fs: seq<Frame>, rest: Bytes)
    requires ParsesAs(s, fs, rest) && Parse(rest).Failure?
    ensures ReadAll(s) == (fs, Parse(rest).error)
    decreases |fs|
  {
    if fs != [] {
      ReadAllOf(Parse(s).value.1, fs[1..], rest);
      HeadTail(fs);
    }
  }

  /**
   * A stream of marshalled well-formed frames reads back as those frames, in
   * order, whatever iteration orders Marshal chose, up to the first failure
   * at the bytes that follow them.
   */
  lemma ReadsBack(fs: seq<Frame>, orders: seq<seq<Bytes>>, rest: Bytes)
    requires OrdersFor(fs, orders) && forall i :: 0 <= i < |fs| ==> WellFormed(fs[i])
    requires Parse(rest).Failure?
    ensures ReadAll(Wires(fs, orders) + rest) == (fs, Parse(rest).error)
  {
    WiresParse(fs, orders, rest);
    ReadAllOf(Wires(fs, orders) + rest, fs, rest);
  }

}
