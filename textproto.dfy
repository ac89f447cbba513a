/**
 * The part of Go's `net/textproto` that the frame codec uses, as Go 1.21
 * reads and writes it:
 *   - `ReadLine` returns the bytes up to the next LF, without the LF and
 *     without one CR just before it; a last line without LF is returned whole;
 *   - a header block is a run of `key ":" value` lines ended by an empty line;
 *     its first line must not start with a space or tab, and every line must
 *     hold a colon;
 *   - a key is non-empty and made of token bytes (RFC 7230 `tchar`) and
 *     spaces; a key of token bytes only is canonicalised with
 *     `CanonicalMIMEHeaderKey`, one holding a space is kept as it is;
 *   - a value is the text after the first colon, made of the bytes
 *     `validHeaderValueByte` accepts, with ASCII spaces removed at its end
 *     and spaces and tabs at its start;
 *   - `ReadMIMEHeader` collects every value of a key, in order of appearance.
 */
module TextProto {
  import opened Wrappers
  import opened Text

  /** `textproto.MIMEHeader`: each canonical key with its values in order. */
  type Header = map<Bytes, seq<Bytes>>

  /** Why a header block could not be read. */
  datatype ReadError =
    | EndOfStream                       // `io.EOF`: the stream ended before the empty line
    | MalformedInitialLine(line: Bytes) // "malformed MIME header initial line"
    | MissingColon(line: Bytes)         // "malformed MIME header: missing colon"
    | Malformed(line: Bytes)            // "malformed MIME header line"

  const CR: Byte := '\r'
  const LF: Byte := '\n'

  predicate IsSpaceOrTab(c: Byte) { c == ' ' || c == '\t' }

  /** The bytes RFC 7230 allows in a field name (Go's `isTokenTable`). */
  predicate IsTokenByte(c: Byte)
  {
    || 'a' <= c <= 'z' || 'A' <= c <= 'Z' || '0' <= c <= '9'
    || c == '!' || c == '#' || c == '$' || c == '%' || c == '&' || c == '\''
    || c == '*' || c == '+' || c == '-' || c == '.' || c == '^' || c == '_'
    || c == '`' || c == '|' || c == '~'
  }

  predicate IsToken(s: Bytes) { forall i :: 0 <= i < |s| ==> IsTokenByte(s[i]) }

  function Upper(c: Byte): Byte { if 'a' <= c <= 'z' then (c as int - 32) as char else c }

  function Lower(c: Byte): Byte { if 'A' <= c <= 'Z' then (c as int + 32) as char else c }

  /** ASCII case-insensitive equality (Go's `strings.EqualFold` on ASCII). */
  predicate EqualFold(a: Bytes, b: Bytes)
  {
    |a| == |b| && forall i :: 0 <= i < |a| ==> Lower(a[i]) == Lower(b[i])
  }

  /** The canonical case of the byte at `i`: upper at the start and after a hyphen. */
  function CanonicalByte(s: Bytes, i: nat): Byte
    requires i < |s|
  {
    if i == 0 || s[i - 1] == '-' then Upper(s[i]) else Lower(s[i])
  }

  /**
   * `textproto.CanonicalMIMEHeaderKey`: the first byte and every byte after a
   * hyphen upper case, all others lower case; a key holding a byte that is not
   * a token byte is returned unchanged.
   */
  function CanonicalMIMEHeaderKey(s: Bytes): (r: Bytes)
    ensures EqualFold(r, s)
    ensures IsToken(r) == IsToken(s)
  {
    if IsToken(s) then
      var r := seq(|s|, i requires 0 <= i < |s| => CanonicalByte(s, i));
      assert EqualFold(r, s) && IsToken(r) by {
        forall i | 0 <= i < |s| ensures Lower(r[i]) == Lower(s[i]) && IsTokenByte(r[i]) {
          CaseOfTokenByte(s[i]);
        }
      }
      r
    else s
  }

  /** Changing the case of a token byte keeps it a token byte of the same lower case. */
  lemma CaseOfTokenByte(c: Byte)
    requires IsTokenByte(c)
    ensures Lower(Upper(c)) == Lower(c) && IsTokenByte(Upper(c))
    ensures Lower(Lower(c)) == Lower(c) && IsTokenByte(Lower(c))
  {
  }

  /** Canonicalising a canonical key changes nothing. */
  lemma CanonicalIsIdempotent(s: Bytes)
    ensures CanonicalMIMEHeaderKey(CanonicalMIMEHeaderKey(s)) == CanonicalMIMEHeaderKey(s)
  {
    var r := CanonicalMIMEHeaderKey(s);
    if IsToken(s) {
      assert forall i :: 0 <= i < |s| ==> (r[i] == '-' <==> s[i] == '-');
      forall i | 0 <= i < |r| ensures CanonicalByte(r, i) == r[i] { }
    }
  }

  /** Keys that differ only in case have the same canonical form. */
  lemma CanonicalIgnoresCase(a: Bytes, b: Bytes)
    requires IsToken(a) && EqualFold(a, b)
    ensures CanonicalMIMEHeaderKey(a) == CanonicalMIMEHeaderKey(b)
  {
    assert IsToken(b) by {
      forall i | 0 <= i < |b| ensures IsTokenByte(b[i]) { assert IsTokenByte(a[i]); }
    }
    assert forall i :: 0 <= i < |a| ==> (a[i] == '-' <==> b[i] == '-');
    var ca, cb := CanonicalMIMEHeaderKey(a), CanonicalMIMEHeaderKey(b);
    forall i | 0 <= i < |a| ensures ca[i] == cb[i] { }
  }

  lemma CanonicalOfLiteral(s: Bytes, r: Bytes)
    requires IsToken(s) && |r| == |s|
    requires forall i :: 0 <= i < |s| ==> CanonicalByte(s, i) == r[i]
    ensures CanonicalMIMEHeaderKey(s) == r
  {
  }

  function DropCR(s: Bytes): Bytes { if |s| > 0 && s[|s| - 1] == CR then s[..|s| - 1] else s }

  /**
   * `Reader.ReadLine`: the next line and the rest of the stream, or None at
   * the end of the stream.
   */
  function ReadLine(s: Bytes): (r: Option<(Bytes, Bytes)>)
    ensures r.None? <==> s == []
    ensures r.Some? ==> |r.value.1| < |s| && IsSuffixOf(r.value.1, s) && LF !in r.value.0
  {
    if s == [] then None
    else
      match IndexOf(s, LF)
      case None => Some((s, []))
      case Some(i) => Some((DropCR(s[..i]), s[i + 1..]))
  }

    /** Textproto's `isASCIISpace`. */
  predicate IsASCIISpace(c: Byte) { c == ' ' || c == '\t' || c == CR || c == LF }

  /** A byte `canonicalMIMEHeaderKey` accepts in a key: a token byte or a space. */
  predicate IsKeyByte(c: Byte) { IsTokenByte(c) || c == ' ' }

  /** Go's `validHeaderValueByte`: a visible ASCII byte, a space, a tab or any byte from 0x80 up. */
  predicate IsValueByte(c: Byte) { c == '\t' || ' ' <= c <= '~' || c as int >= 0x80 }

  /** The end half of textproto's `trim`: ASCII spaces removed at the end. */
  function TrimRight(s: Bytes): (r: Bytes)
    ensures |r| <= |s| && r == s[..|r|] && (|r| > 0 ==> !IsASCIISpace(r[|r| - 1]))
    ensures forall i :: |r| <= i < |s| ==> IsASCIISpace(s[i])
    decreases |s|
  {
    if |s| > 0 && IsASCIISpace(s[|s| - 1]) then TrimRight(s[..|s| - 1]) else s
  }

  /** `bytes.TrimLeft(v, " \t")`. */
  function TrimLeftSpaceTab(s: Bytes): (r: Bytes)
    ensures |r| <= |s| && r == s[|s| - |r|..] && (|r| > 0 ==> !IsSpaceOrTab(r[0]))
    ensures forall i :: 0 <= i < |s| - |r| ==> IsSpaceOrTab(s[i])
    decreases |s|
  {
    if |s| > 0 && IsSpaceOrTab(s[0]) then TrimLeftSpaceTab(s[1..]) else s
  }

  /** A field value that a header line carries unchanged. */
  predicate IsCleanValue(v: Bytes)
  {
    && (forall i :: 0 <= i < |v| ==> IsValueByte(v[i]))
    && (|v| > 0 ==> !IsSpaceOrTab(v[0]) && !IsSpaceOrTab(v[|v| - 1]))
  }

  lemma CleanValueHasNoLineEnd(v: Bytes)
    requires IsCleanValue(v)
    ensures CR !in v && LF !in v
  {
    forall i | 0 <= i < |v| ensures v[i] != CR && v[i] != LF { assert IsValueByte(v[i]); }
  }

  /** What `ReadMIMEHeader` makes of the key and value of a line. */
  predicate IsFieldPart(k: Bytes, v: Bytes)
  {
    && k != [] && (forall i :: 0 <= i < |k| ==> IsKeyByte(k[i]))
    && (forall i :: 0 <= i < |v| ==> IsValueByte(v[i]))
  }

  /** What a header line keeps: a non-empty canonical key of key bytes and a value of value bytes. */
  predicate IsReadField(k: Bytes, v: Bytes)
  {
    && IsFieldPart(k, v) && CanonicalMIMEHeaderKey(k) == k
    && (v != [] ==> !IsSpaceOrTab(v[0]) && !IsASCIISpace(v[|v| - 1]))
  }

  /**
   * A trimmed line cut at its first colon: the key must be non-empty and made
   * of key bytes and the value of value bytes. The key comes back
   * canonicalised (unchanged when it holds a space) and the value without
   * its leading spaces and tabs.
   */
  function CutField(kv: Bytes): (r: Result<(Bytes, Bytes), ReadError>)
    requires kv != [] ==> !IsASCIISpace(kv[|kv| - 1])
    ensures r.Success? ==> IsReadField(r.value.0, r.value.1)
    ensures r.Failure? ==> r.error == Malformed(kv)
  {
    match IndexOf(kv, ':')
    case None => Failure(Malformed(kv))
    case Some(i) =>
      if IsFieldPart(kv[..i], kv[i + 1..]) then
        CanonicalIsIdempotent(kv[..i]);
        CanonicalKeyBytes(kv[..i]);
        Success((CanonicalMIMEHeaderKey(kv[..i]), TrimLeftSpaceTab(kv[i + 1..])))
      else Failure(Malformed(kv))
  }

  /**
   * One header line, read as `readMIMEHeader` reads it: a line starting with
   * a space or tab is refused (the first line of a block as a malformed
   * initial line), as is a line without a colon; otherwise the line loses
   * its trailing ASCII spaces and `CutField` splits it.
   */
  function ParseHeaderLine(line: Bytes, first: bool): (r: Result<(Bytes, Bytes), ReadError>)
    ensures r.Success? ==> IsReadField(r.value.0, r.value.1)
    ensures r.Failure? ==> r.error != EndOfStream
    ensures r == Failure(MalformedInitialLine(line)) <==> first && line != [] && IsSpaceOrTab(line[0])
    ensures r == Failure(MissingColon(line)) <==> (line == [] || !IsSpaceOrTab(line[0])) && ':' !in line
  {
    if |line| > 0 && IsSpaceOrTab(line[0]) then
      if first then Failure(MalformedInitialLine(line)) else Failure(Malformed(line))
    else if ':' !in line then Failure(MissingColon(line))
    else CutField(TrimRight(line))
  }

  /** Canonicalising keeps a key made of key bytes so made. */
  lemma CanonicalKeyBytes(k: Bytes)
    requires forall i :: 0 <= i < |k| ==> IsKeyByte(k[i])
    ensures forall i :: 0 <= i < |CanonicalMIMEHeaderKey(k)| ==> IsKeyByte(CanonicalMIMEHeaderKey(k)[i])
  {
    var r := CanonicalMIMEHeaderKey(k);
    if IsToken(k) {
      forall i | 0 <= i < |r| ensures IsKeyByte(r[i]) { assert IsTokenByte(r[i]); }
    }
  }

  /** `MIMEHeader.Add`: append a value to the key's list. */
  function Add(h: Header, k: Bytes, v: Bytes): Header
  {
    h[k := (if k in h then h[k] else []) + [v]]
  }

  /** `ReadMIMEHeader` continued from an already collected header `acc`. */
  function ReadHeaderFrom(s: Bytes, acc: Header): (r: Result<(Header, Bytes), ReadError>)
    ensures r.Success? ==> |r.value.1| < |s| && IsSuffixOf(r.value.1, s)
    decreases |s|
  {
    match ReadLine(s)
    case None => Failure(EndOfStream)
    case Some((line, rest)) =>
      if line == [] then Success((acc, rest))
      else
        // Nothing has been collected yet exactly when `line` is the block's first.
        match ParseHeaderLine(line, acc == map[])
        case Failure(e) => Failure(e)
        case Success((k, v)) =>
          var r := ReadHeaderFrom(rest, Add(acc, k, v));
          if r.Success? then SuffixTransitive(r.value.1, rest, s); r else r
  }

  /**
   * `Reader.ReadMIMEHeader`: the header block at the start of `s` and the
   * bytes after its terminating empty line.
   */
  function ReadMIMEHeader(s: Bytes): (r: Result<(Header, Bytes), ReadError>)
    ensures r.Success? ==> IsReadHeader(r.value.0) && |r.value.1| < |s| && IsSuffixOf(r.value.1, s)
    ensures s == [] ==> r == Failure(EndOfStream)
    ensures s != [] && IsSpaceOrTab(s[0]) ==> r.Failure? && r.error.MalformedInitialLine?
  {
    ReadHeaderKeepsFields(s, map[]);
    InitialSpaceRefused(s);
    ReadHeaderFrom(s, map[])
  }

  /** Every key of `h` has at least one value, and each key and value is as `ParseHeaderLine` returns them. */
  predicate IsReadHeader(h: Header)
  {
    forall k :: k in h ==> h[k] != [] && forall j :: 0 <= j < |h[k]| ==> IsReadField(k, h[k][j])
  }

  lemma AddKeepsFields(h: Header, k: Bytes, v: Bytes)
    requires IsReadHeader(h) && IsReadField(k, v)
    ensures IsReadHeader(Add(h, k, v))
  {
    var h' := Add(h, k, v);
    forall k' | k' in h' ensures h'[k'] != [] && forall j :: 0 <= j < |h'[k']| ==> IsReadField(k', h'[k'][j]) {
      if k' == k {
        var before := if k in h then h[k] else [];
        assert h'[k] == before + [v];
        forall j | 0 <= j < |h'[k]| ensures IsReadField(k, h'[k][j]) {
          if j < |before| { assert h'[k][j] == before[j]; }
        }
      }
    }
  }

  /** Reading lines into a well-formed header gives a well-formed header. */
  lemma {:induction false} ReadHeaderKeepsFields(s: Bytes, acc: Header)
    requires IsReadHeader(acc)
    ensures var r := ReadHeaderFrom(s, acc); r.Success? ==> IsReadHeader(r.value.0)
    decreases |s|
  {
    match ReadLine(s)
    case None =>
    case Some((line, rest)) =>
      if line != [] {
        match ParseHeaderLine(line, acc == map[])
        case Failure(_) =>
        case Success((k, v)) =>
          AddKeepsFields(acc, k, v);
          ReadHeaderKeepsFields(rest, Add(acc, k, v));
      }
  }

  /** A block whose first byte is a space or a tab is refused before any line is read. */
  lemma InitialSpaceRefused(s: Bytes)
    ensures s != [] && IsSpaceOrTab(s[0]) ==>
              var r := ReadHeaderFrom(s, map[]); r.Failure? && r.error.MalformedInitialLine?
  {
    if s != [] && IsSpaceOrTab(s[0]) {
      match IndexOf(s, LF)
      case None =>
      case Some(i) =>
        assert i != 0;
        assert s[..i][0] == s[0];
    }
  }

  /** A header line as `Writer.PrintfLine("%s: %s", key, value)` writes it. */
  function HeaderLine(key: Bytes, value: Bytes): Bytes
  {
    CanonicalMIMEHeaderKey(key) + ": " + value + "\r\n"
  }

  /** A key and value that a header line carries unchanged. */
  predicate IsCleanField(key: Bytes, value: Bytes)
  {
    |key| > 0 && IsToken(key) && CanonicalMIMEHeaderKey(key) == key && IsCleanValue(value)
  }

  /** A line followed by CR LF is read back whole. */
  lemma ReadLineCRLF(line: Bytes, s: Bytes)
    requires LF !in line
    ensures ReadLine(line + "\r\n" + s) == Some((line, s))
  {
    var w := line + "\r\n" + s;
    assert w == (line + [CR]) + [LF] + s;
    IndexOfJoin(line + [CR], LF, s);
    assert w[..|line| + 1] == line + [CR];
    assert w[|line| + 2..] == s;
  }

  /** A written `key: value` line loses only a trailing space to `trim`. */
  lemma TrimWrittenLine(k: Bytes, value: Bytes)
    requires IsCleanValue(value)
    ensures TrimRight(k + ": " + value) == k + ":" + (if value == [] then [] else " " + value)
  {
    var line := k + ": " + value;
    CleanValueHasNoLineEnd(value);
    if value == [] {
      assert line[..|line| - 1] == k + ":";
    } else {
      assert line[|line| - 1] == value[|value| - 1];
      assert value[|value| - 1] in value;
    }
  }

  /** `k ":" v` with `k` free of colons cuts into `k` and `v` when both are acceptable. */
  lemma CutFieldAt(k: Bytes, v: Bytes)
    requires ':' !in k && IsFieldPart(k, v)
    requires var kv := k + [':'] + v; !IsASCIISpace(kv[|kv| - 1])
    ensures CutField(k + [':'] + v) == Success((CanonicalMIMEHeaderKey(k), TrimLeftSpaceTab(v)))
  {
    var kv := k + [':'] + v;
    IndexOfJoin(k, ':', v);
    assert kv[..|k|] == k && kv[|k| + 1..] == v;
  }

  /** The value part of a written line: a space, then the value, unless the value is empty. */
  lemma WrittenValuePart(value: Bytes)
    requires IsCleanValue(value)
    ensures var v: Bytes := if value == [] then [] else " " + value;
            && (forall i :: 0 <= i < |v| ==> IsValueByte(v[i]))
            && TrimLeftSpaceTab(v) == value
            && (v != [] ==> !IsASCIISpace(v[|v| - 1]))
  {
    if value != [] {
      var v: Bytes := [' '] + value;
      assert v[1..] == value;
      assert TrimLeftSpaceTab(value) == value;
      assert v[|v| - 1] == value[|value| - 1];
      assert IsValueByte(value[|value| - 1]);
      ValueBytesAfterSpace(value);
    }
  }

  /** A space followed by value bytes is made of value bytes. */
  lemma ValueBytesAfterSpace(value: Bytes)
    requires forall i :: 0 <= i < |value| ==> IsValueByte(value[i])
    ensures var v: Bytes := [' '] + value; forall i :: 0 <= i < |v| ==> IsValueByte(v[i])
  {
    var v: Bytes := [' '] + value;
    forall i | 0 <= i < |v| ensures IsValueByte(v[i]) {
      if i > 0 { assert v[i] == value[i - 1]; }
    }
  }

  /** A key of key bytes holds no colon. */
  lemma KeyHasNoColon(k: Bytes)
    requires forall i :: 0 <= i < |k| ==> IsKeyByte(k[i])
    ensures ':' !in k
  {
    forall i | 0 <= i < |k| ensures k[i] != ':' { assert IsKeyByte(k[i]); }
  }

  /** The trimmed form of a written `key: value` line cuts back to its key and value. */
  lemma CutWrittenField(k: Bytes, value: Bytes)
    requires k != [] && (forall i :: 0 <= i < |k| ==> IsKeyByte(k[i]))
    requires CanonicalMIMEHeaderKey(k) == k && IsCleanValue(value)
    ensures var kv := k + ":" + (if value == [] then [] else " " + value);
            && !IsASCIISpace(kv[|kv| - 1])
            && CutField(kv) == Success((k, value))
  {
    var v: Bytes := if value == [] then [] else " " + value;
    var kv := k + [':'] + v;
    assert k + ":" + v == kv;
    KeyHasNoColon(k);
    WrittenValuePart(value);
    assert !IsASCIISpace(kv[|kv| - 1]) by {
      if v != [] { assert kv[|kv| - 1] == v[|v| - 1]; }
    }
    CutFieldAt(k, v);
  }

  /**
   * A written `key: value` line, whose key is non-empty, canonical and made of
   * key bytes without a leading space, parses back to the same key and value.
   */
  lemma ParseWrittenLine(k: Bytes, value: Bytes, first: bool)
    requires k != [] && k[0] != ' ' && (forall i :: 0 <= i < |k| ==> IsKeyByte(k[i]))
    requires CanonicalMIMEHeaderKey(k) == k && IsCleanValue(value)
    ensures ParseHeaderLine(k + ": " + value, first) == Success((k, value))
  {
    var line := k + ": " + value;
    assert IsKeyByte(k[0]) && line[0] == k[0];
    assert line[|k|] == ':';
    TrimWrittenLine(k, value);
    CutWrittenField(k, value);
  }

  /** A line with an empty key is refused. */
  lemma EmptyKeyIsMalformed(v: Bytes, first: bool)
    ensures ParseHeaderLine([':'] + v, first) == Failure(Malformed(TrimRight([':'] + v)))
  {
    var line := [':'] + v;
    assert line[0] == ':';
    var kv := TrimRight(line);
    assert |kv| > 0 by { assert !IsASCIISpace(line[0]); }
    assert kv[0] == ':';
    assert kv[..0] == [];
  }

  /** A key holding a space is kept as written, not canonicalised. */
  lemma SpacedKeyKept(k: Bytes, value: Bytes, first: bool)
    requires k != [] && k[0] != ' ' && ' ' in k && (forall i :: 0 <= i < |k| ==> IsKeyByte(k[i]))
    requires IsCleanValue(value)
    ensures ParseHeaderLine(k + ": " + value, first) == Success((k, value))
  {
    assert !IsToken(k);
    ParseWrittenLine(k, value, first);
  }

  /** A value holding a control byte other than a tab is refused. */
  lemma ControlByteIsMalformed(k: Bytes, v: Bytes, j: nat, first: bool)
    requires k != [] && IsToken(k) && j < |v| && !IsValueByte(v[j]) && !IsASCIISpace(v[j])
    ensures ParseHeaderLine(k + ":" + v, first).Failure?
  {
    var line := k + ":" + v;
    assert ':' !in k by {
      forall i | 0 <= i < |k| ensures k[i] != ':' { assert IsTokenByte(k[i]); }
    }
    assert line[0] == k[0] && IsTokenByte(k[0]);
    assert line[|k|] == ':';
    var kv := TrimRight(line);
    assert line[|k| + 1 + j] == v[j];
    assert |k| + 1 + j < |kv|;
    assert kv == k + [':'] + kv[|k| + 1..] by {
      assert kv[..|k| + 1] == line[..|k| + 1];
      assert line[..|k| + 1] == k + [':'];
    }
    assert kv[|k| + 1..][j] == v[j];
    CutRefusesValue(k, kv[|k| + 1..], j);
  }

  lemma CutRefusesValue(k: Bytes, w: Bytes, j: nat)
    requires ':' !in k && j < |w| && !IsValueByte(w[j])
    requires var kv := k + [':'] + w; !IsASCIISpace(kv[|kv| - 1])
    ensures CutField(k + [':'] + w).Failure?
  {
    IndexOfJoin(k, ':', w);
  }

  /** Reading back one written header line adds exactly that field. */
  lemma ReadHeaderLine(key: Bytes, value: Bytes, s: Bytes, acc: Header)
    requires |key| > 0 && IsToken(key) && IsCleanValue(value)
    ensures ReadHeaderFrom(HeaderLine(key, value) + s, acc)
         == ReadHeaderFrom(s, Add(acc, CanonicalMIMEHeaderKey(key), value))
  {
    var k := CanonicalMIMEHeaderKey(key);
    CanonicalIsIdempotent(key);
    var line := k + ": " + value;
    assert HeaderLine(key, value) + s == line + "\r\n" + s;
    assert LF !in k by {
      forall i | 0 <= i < |k| ensures k[i] != LF { assert IsTokenByte(k[i]); }
    }
    CleanValueHasNoLineEnd(value);
    assert LF !in line;
    ReadLineCRLF(line, s);
    assert IsTokenByte(k[0]);
    CanonicalKeyBytes(key);
    ParseWrittenLine(k, value, acc == map[]);
  }

  /** Reading an empty line ends the header block. */
  lemma EndOfHeader(s: Bytes, acc: Header)
    ensures ReadHeaderFrom("\r\n" + s, acc) == Success((acc, s))
  {
    var w := "\r\n" + s;
    assert IndexOf(w, LF) == Some(1);
    assert w[2..] == s;
  }
}
