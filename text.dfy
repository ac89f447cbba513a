/**
 * Byte strings and the small pieces of Go's `strings` and `strconv` packages
 * that the core relies on: searching for a byte, `strings.SplitN(s, sep, 2)`,
 * `strings.Split`, `strings.Join`, `strconv.Itoa` and `strconv.Atoi`.
 *
 * A Go string or []byte is a sequence of bytes. Here a byte is a character
 * whose code is below 256, so that header names and other fixed text can be
 * written as string literals.
 */
module Text {
  import opened Wrappers

  type Byte = c: char | c as int < 0x100 witness '\0'
  type Bytes = seq<Byte>

  /** The largest value of Go's 64-bit `int`. */
  const MaxInt64: int := 0x7fff_ffff_ffff_ffff

  /** Whether `t` is what is left of `s` after some bytes were taken from its front. */
  predicate IsSuffixOf<T(==)>(t: seq<T>, s: seq<T>)
  {
    |t| <= |s| && s[|s| - |t|..] == t
  }

  lemma SuffixTransitive<T>(a: seq<T>, b: seq<T>, c: seq<T>)
    requires IsSuffixOf(a, b) && IsSuffixOf(b, c)
    ensures IsSuffixOf(a, c)
  {
    assert c[|c| - |a|..] == c[|c| - |b|..][|b| - |a|..];
  }

  lemma SuffixOfConcat<T>(a: seq<T>, b: seq<T>)
    ensures IsSuffixOf(b, a + b)
  {
    assert (a + b)[|a|..] == b;
  }

  /**
   * Regrouping a concatenation. Stated for any element type, so that a proof
   * about sequences of sequences can use it without comparing the elements.
   */
  lemma AppendAssoc<T>(a: seq<T>, b: seq<T>, c: seq<T>)
    ensures a + (b + c) == (a + b) + c
  {
  }

  lemma AppendEmpty<T>(a: seq<T>)
    ensures a + [] == a && [] + a == a
  {
  }

  lemma HeadTail<T>(s: seq<T>)
    requires s != []
    ensures s == [s[0]] + s[1..]
  {
  }

  lemma ConsOfConcat<T>(a: seq<T>, b: seq<T>)
    requires a != []
    ensures (a + b)[0] == a[0] && (a + b)[1..] == a[1..] + b
  {
  }

  lemma HeadThenTail<T>(s: seq<T>, t: seq<T>)
    requires s != []
    ensures [s[0]] + (s[1..] + t) == s + t
  {
    assert s == [s[0]] + s[1..];
  }

  lemma SliceOfSuffix<T>(s: seq<T>, i: nat, k: nat)
    requires i + k <= |s|
    ensures s[i..][..k] == s[i..i + k] && s[i..][k..] == s[i + k..]
  {
  }

  lemma PrefixOfAppend<T>(a: seq<T>, b: seq<T>, s: seq<T>)
    requires a + b == s
    ensures s[..|a|] == a
  {
    assert s[..|a|] == (a + b)[..|a|];
  }

  /** Dropping the last element of a concatenation whose second part is not empty. */
  lemma DropLastOfAppend<T>(a: seq<T>, b: seq<T>)
    requires b != []
    ensures (a + b)[..|a + b| - 1] == a + b[..|b| - 1]
  {
  }

  /** `f` applied to every element, in order. */
  function Map<T, U>(f: T -> U, s: seq<T>): (r: seq<U>)
    ensures |r| == |s|
  {
    if s == [] then [] else Map(f, s[..|s| - 1]) + [f(s[|s| - 1])]
  }

  lemma {:induction false} MapEach<T, U>(f: T -> U, s: seq<T>)
    ensures |Map(f, s)| == |s| && forall i :: 0 <= i < |s| ==> Map(f, s)[i] == f(s[i])
  {
    if s != [] {
      MapEach(f, s[..|s| - 1]);
    }
  }

  lemma {:induction false} MapConcat<T, U>(f: T -> U, a: seq<T>, b: seq<T>)
    ensures Map(f, a + b) == Map(f, a) + Map(f, b)
  {
    if b == [] {
      assert a + b == a;
    } else {
      assert (a + b)[..|a + b| - 1] == a + b[..|b| - 1];
      MapConcat(f, a, b[..|b| - 1]);
    }
  }

  /** Position of the first occurrence of `c` in `s`, if any. */
  function IndexOf<T(==)>(s: seq<T>, c: T): (r: Option<nat>)
    ensures r.Some? ==> r.value < |s| && s[r.value] == c && c !in s[..r.value]
    ensures r.None? <==> c !in s
  {
    if |s| == 0 then None
    else if s[0] == c then Some(0)
    else
      match IndexOf(s[1..], c)
      case None => None
      case Some(i) =>
        assert s[..i + 1] == [s[0]] + s[1..][..i];
        Some(i + 1)
  }

  /**
   * `strings.SplitN(s, sep, 2)` for a one-byte separator: the text before the
   * first separator and everything after it, or None when there is none
   * (SplitN then returns a single piece).
   */
  function SplitFirst<T(==)>(s: seq<T>, c: T): (r: Option<(seq<T>, seq<T>)>)
    ensures r.None? <==> c !in s
    ensures r.Some? ==> s == r.value.0 + [c] + r.value.1 && c !in r.value.0
  {
    match IndexOf(s, c)
    case None => None
    case Some(i) =>
      assert s == s[..i] + [c] + s[i + 1..];
      Some((s[..i], s[i + 1..]))
  }

  /** The first separator of `a + [c] + b` is the one after `a`, when `a` has none. */
  lemma IndexOfJoin<T>(a: seq<T>, c: T, b: seq<T>)
    requires c !in a
    ensures IndexOf(a + [c] + b, c) == Some(|a|)
  {
    var s := a + [c] + b;
    assert s[|a|] == c;
    assert s[..|a|] == a;
  }

  lemma SplitFirstOfJoin<T>(a: seq<T>, c: T, b: seq<T>)
    requires c !in a
    ensures SplitFirst(a + [c] + b, c) == Some((a, b))
  {
    IndexOfJoin(a, c, b);
    var s := a + [c] + b;
    assert s[..|a|] == a && s[|a| + 1..] == b;
  }

  /** `strings.Split(s, sep)` for a one-byte separator. */
  function Split<T(==)>(s: seq<T>, c: T): (r: seq<seq<T>>)
    ensures |r| >= 1
    ensures forall i :: 0 <= i < |r| ==> c !in r[i]
    decreases |s|
  {
    match SplitFirst(s, c)
    case None => [s]
    case Some((a, b)) => [a] + Split(b, c)
  }

  /** `strings.Join(elems, sep)` for a one-byte separator. */
  function Join<T>(ps: seq<seq<T>>, c: T): seq<T>
  {
    if |ps| == 0 then []
    else if |ps| == 1 then ps[0]
    else ps[0] + [c] + Join(ps[1..], c)
  }

  /** Joining the pieces of a split gives back the original text. */
  lemma {:induction false} JoinSplit<T>(s: seq<T>, c: T)
    ensures Join(Split(s, c), c) == s
    decreases |s|
  {
    match SplitFirst(s, c)
    case None =>
    case Some((a, b)) =>
      JoinSplit(b, c);
      assert Split(s, c) == [a] + Split(b, c);
  }

  /** Joining the last pieces of a sequence gives the end of the whole join. */
  lemma {:induction false} JoinOfSuffix<T>(ps: seq<seq<T>>, t: seq<seq<T>>, c: T)
    requires t != [] && IsSuffixOf(t, ps)
    ensures IsSuffixOf(Join(t, c), Join(ps, c))
    decreases |ps|
  {
    if |t| < |ps| {
      assert ps[1..][|ps| - 1 - |t|..] == ps[|ps| - |t|..];
      JoinOfSuffix(ps[1..], t, c);
      assert Join(ps, c) == (ps[0] + [c]) + Join(ps[1..], c);
      SuffixOfConcat(ps[0] + [c], Join(ps[1..], c));
      SuffixTransitive(Join(t, c), Join(ps[1..], c), Join(ps, c));
    } else {
      assert t == ps;
    }
  }

  /** Joining the last pieces of a split gives the end of the text. */
  lemma JoinOfSplitSuffix<T>(s: seq<T>, t: seq<seq<T>>, c: T)
    requires t != [] && IsSuffixOf(t, Split(s, c))
    ensures IsSuffixOf(Join(t, c), s)
  {
    JoinOfSuffix(Split(s, c), t, c);
    JoinSplit(s, c);
  }

  /** Splitting a join gives back the pieces, when no piece holds the separator. */
  lemma {:induction false} SplitJoin<T>(ps: seq<seq<T>>, c: T)
    requires |ps| >= 1
    requires forall i :: 0 <= i < |ps| ==> c !in ps[i]
    ensures Split(Join(ps, c), c) == ps
  {
    if |ps| > 1 {
      SplitJoin(ps[1..], c);
      SplitFirstOfJoin(ps[0], c, Join(ps[1..], c));
    } else {
      assert Join(ps, c) == ps[0];
    }
  }

  predicate IsDigit(c: Byte) { '0' <= c <= '9' }

  predicate AllDigits(s: Bytes) { forall i :: 0 <= i < |s| ==> IsDigit(s[i]) }

  /** The number written by a string of decimal digits (most significant first). */
  function DigitsValue(s: Bytes): nat
    requires AllDigits(s)
  {
    if s == [] then 0 else DigitsValue(s[..|s| - 1]) * 10 + (s[|s| - 1] as int - '0' as int)
  }

  function DigitByte(d: nat): (c: Byte)
    requires d < 10
    ensures IsDigit(c) && c as int - '0' as int == d
  {
    ('0' as int + d) as char
  }

  /** `strconv.Itoa` on a non-negative number: its decimal form, without leading zeros. */
  function Itoa(n: nat): (r: Bytes)
    ensures |r| >= 1 && AllDigits(r) && DigitsValue(r) == n
    ensures |r| > 1 ==> r[0] != '0'
  {
    if n < 10 then [DigitByte(n)]
    else
      var r := Itoa(n / 10) + [DigitByte(n % 10)];
      assert r[..|r| - 1] == Itoa(n / 10);
      r
  }

  /**
   * `strconv.Atoi`: an optional sign, then one or more decimal digits, whose
   * value fits in a 64-bit int; anything else is an error (None).
   */
  function Atoi(s: Bytes): (r: Option<int>)
    ensures r.Some? ==> -MaxInt64 - 1 <= r.value <= MaxInt64
    ensures r.Some? ==> |s| > 0 && (r.value < 0 ==> s[0] == '-')
    ensures s != [] && AllDigits(s) && DigitsValue(s) <= MaxInt64 ==> r == Some(DigitsValue(s))
  {
    if |s| == 0 then None
    else
      var digits := if s[0] == '-' || s[0] == '+' then s[1..] else s;
      if |digits| == 0 || !AllDigits(digits) then None
      else
        var v: int := if s[0] == '-' then -(DigitsValue(digits) as int) else DigitsValue(digits);
        if v < -MaxInt64 - 1 || MaxInt64 < v then None else Some(v)
  }

  /** Atoi reads back what Itoa writes, for every length a Go slice can have. */
  lemma AtoiItoa(n: nat)
    requires n <= MaxInt64
    ensures Atoi(Itoa(n)) == Some(n)
  {
    var s := Itoa(n);
    assert IsDigit(s[0]);
  }

  /** Atoi accepts only text made of an optional sign and decimal digits. */
  lemma AtoiRejectsNonDecimal(s: Bytes)
    requires exists i :: 0 < i < |s| && !IsDigit(s[i])
    ensures Atoi(s) == None
  {
  }
}
