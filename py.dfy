/** The pieces of Python's built-in behaviour that the collectors' parsing code
    depends on: exceptions as results, substring tests, `str.split`, `str.strip`,
    slicing, single-character `str.replace`, the case comparisons used on labels,
    and `str(int)` for naturals. Strings are sequences of Unicode scalar values,
    as Python's `str` is. */
module Py {

  /** The exceptions the parsing code can raise and does not catch
      (`UnicodeDecodeError` is the `ValueError` subclass raised by `bytes.decode`). */
  datatype PyError = IndexError | ValueError | UnicodeDecodeError | TypeError

  /** A value, or the exception that stopped the computation. */
  datatype Result<+T> = Ok(value: T) | Err(error: PyError) {
    predicate IsFailure() { Err? }
    function PropagateFailure<U>(): Result<U> requires Err? { Err(error) }
    function Extract(): T requires Ok? { value }
  }

  datatype Option<+T> = None | Some(value: T)

  // ---------------------------------------------------------------------------
  // Substrings: `t in s`, `s.find(t)`, `s.startswith(t)`

  /** `t` occurs in `s` starting at index `j`. */
  predicate OccursAt(s: string, t: string, j: nat) {
    j + |t| <= |s| && s[j..j + |t|] == t
  }

  predicate StartsWith(s: string, p: string) {
    |p| <= |s| && s[..|p|] == p
  }

  /** The first index at or after `from` where `t` occurs in `s`. */
  function FindFrom(s: string, t: string, from: nat): (r: Option<nat>)
    decreases |s| - from
    ensures r.Some? ==> from <= r.value && OccursAt(s, t, r.value)
    ensures r.Some? ==> forall j :: from <= j < r.value ==> !OccursAt(s, t, j)
    ensures r.None? ==> forall j :: from <= j ==> !OccursAt(s, t, j)
  {
    if from + |t| > |s| then None
    else if s[from..from + |t|] == t then Some(from)
    else FindFrom(s, t, from + 1)
  }

  /** `s.find(t)`, with `None` for Python's -1. */
  function Find(s: string, t: string): Option<nat> {
    FindFrom(s, t, 0)
  }

  /** Python's `t in s` on strings. */
  predicate Contains(s: string, t: string) {
    Find(s, t).Some?
  }

  lemma ContainsIff(s: string, t: string)
    ensures Contains(s, t) <==> exists j: nat :: OccursAt(s, t, j)
  {
    if !Contains(s, t) {
      forall j: nat ensures !OccursAt(s, t, j) {
      }
    }
  }

  /** An occurrence inside a slice of `s` is an occurrence in `s`. */
  lemma OccursInSlice(s: string, t: string, lo: nat, hi: nat, j: nat)
    requires lo <= hi <= |s|
    requires OccursAt(s[lo..hi], t, j)
    ensures OccursAt(s, t, lo + j) && lo + j + |t| <= hi
  {
    var u, v := s[lo..hi][j..j + |t|], s[lo + j..lo + j + |t|];
    assert forall k :: 0 <= k < |t| ==> u[k] == s[lo + j + k] == v[k];
    assert u == v;
  }

  /** A piece of `s` that misses every occurrence of `t` in `s` does not contain `t`. */
  lemma NotContainsSlice(s: string, t: string, lo: nat, hi: nat)
    requires lo <= hi <= |s|
    requires forall j :: lo <= j && j + |t| <= hi ==> !OccursAt(s, t, j)
    ensures !Contains(s[lo..hi], t)
  {
    if Contains(s[lo..hi], t) {
      var j := Find(s[lo..hi], t).value;
      OccursInSlice(s, t, lo, hi, j);
    }
  }

  // ---------------------------------------------------------------------------
  // `str.split(sep)` and `str.join`

  /** `sep.join(parts)`. */
  function Join(parts: seq<string>, sep: string): string {
    if |parts| == 0 then ""
    else if |parts| == 1 then parts[0]
    else parts[0] + sep + Join(parts[1..], sep)
  }

  /** `s.split(sep)` for a non-empty separator: the pieces between the
      left-to-right, non-overlapping occurrences of `sep`. */
  function Split(s: string, sep: string): (r: seq<string>)
    requires sep != []
    decreases |s|
    ensures |r| >= 1
    ensures |r| == 1 <==> !Contains(s, sep)
  {
    match Find(s, sep)
    case None => [s]
    case Some(i) => [s[..i]] + Split(s[i + |sep|..], sep)
  }

  lemma ThreeSlices(s: string, i: nat, j: nat)
    requires i <= j <= |s|
    ensures s == s[..i] + s[i..j] + s[j..]
  {
  }

  lemma JoinCons(a: string, tail: seq<string>, sep: string)
    requires |tail| >= 1
    ensures Join([a] + tail, sep) == a + sep + Join(tail, sep)
  {
    assert ([a] + tail)[1..] == tail;
  }

  /** Joining the pieces with the separator gives the string back. */
  lemma {:induction false} SplitJoin(s: string, sep: string)
    requires sep != []
    decreases |s|
    ensures Join(Split(s, sep), sep) == s
  {
    if Contains(s, sep) {
      var i := Find(s, sep).value;
      var rest := s[i + |sep|..];
      var tail := Split(rest, sep);
      SplitJoin(rest, sep);
      assert Split(s, sep) == [s[..i]] + tail;
      JoinCons(s[..i], tail, sep);
      assert OccursAt(s, sep, i);
      ThreeSlices(s, i, i + |sep|);
    }
  }

  /** No piece of a split contains the separator. */
  lemma {:induction false} SplitPieces(s: string, sep: string)
    requires sep != []
    decreases |s|
    ensures forall k :: 0 <= k < |Split(s, sep)| ==> !Contains(Split(s, sep)[k], sep)
  {
    if Contains(s, sep) {
      var i := Find(s, sep).value;
      var rest := s[i + |sep|..];
      var tail := Split(rest, sep);
      SplitPieces(rest, sep);
      NotContainsSlice(s, sep, 0, i);
      assert s[..i] == s[0..i];
      var r := Split(s, sep);
      assert r == [s[..i]] + tail;
      forall k | 1 <= k < |r| ensures !Contains(r[k], sep) {
        assert r[k] == tail[k - 1];
      }
    }
  }

  /** `s.split(sep)[k]`: `IndexError` when there are fewer than `k + 1` pieces. */
  function Item(s: string, sep: string, k: nat): (r: Result<string>)
    requires sep != []
  {
    var parts := Split(s, sep);
    if k < |parts| then Ok(parts[k]) else Err(IndexError)
  }

  /** `s.split(sep)[1]` exists exactly when `sep` occurs in `s`; it is then the
      text between the first and the second occurrence (or the end of `s`), and
      does not itself contain `sep`. */
  lemma SecondItem(s: string, sep: string)
    requires sep != []
    ensures Item(s, sep, 1).Ok? <==> Contains(s, sep)
    ensures Contains(s, sep) ==>
      var i := Find(s, sep).value;
      Item(s, sep, 1) == Ok(Split(s[i + |sep|..], sep)[0]) &&
      StartsWith(s[i + |sep|..], Item(s, sep, 1).value) &&
      !Contains(Item(s, sep, 1).value, sep)
  {
    if Contains(s, sep) {
      var i := Find(s, sep).value;
      var rest := s[i + |sep|..];
      var p := Split(rest, sep);
      assert Split(s, sep) == [s[..i]] + p;
      FirstPieceIsPrefix(rest, sep);
      SplitPieces(rest, sep);
    }
  }

  /** The first piece of a split is a prefix of the string. */
  lemma FirstPieceIsPrefix(s: string, sep: string)
    requires sep != []
    ensures StartsWith(s, Split(s, sep)[0])
  {
    match Find(s, sep)
    case None =>
    case Some(i) => assert Split(s, sep)[0] == s[..i];
  }

  /** The first piece of `a + sep + b` is `a` when the separator's first
      character does not occur in `a`. */
  lemma FirstPieceOfJoin(a: string, sep: string, b: string)
    requires sep != [] && sep[0] !in a
    ensures Split(a + sep + b, sep)[0] == a
  {
    var s := a + sep + b;
    assert OccursAt(s, sep, |a|) by { assert s[|a|..|a| + |sep|] == sep; }
    var i := Find(s, sep).value;
    assert i == |a|;
    assert s[..i] == a;
  }

  // ---------------------------------------------------------------------------
  // `str.strip()`

  /** `c.isspace()` in Python 3: exactly these 29 code points. */
  predicate IsSpace(c: char) {
    var n := c as int;
    n == 0x20 || 0x09 <= n <= 0x0D || 0x1C <= n <= 0x1F || n == 0x85 || n == 0xA0 ||
    n == 0x1680 || 0x2000 <= n <= 0x200A || n == 0x2028 || n == 0x2029 ||
    n == 0x202F || n == 0x205F || n == 0x3000
  }

  /** `s.lstrip()`: the longest suffix of `s` that does not start with whitespace. */
  function StripLeft(s: string): string {
    if s != [] && IsSpace(s[0]) then StripLeft(s[1..]) else s
  }

  /** What `lstrip` leaves: a suffix, not starting with whitespace, after
      nothing but whitespace. */
  lemma {:induction false} StripLeftSpec(s: string)
    ensures var r := StripLeft(s);
      |r| <= |s| && r == s[|s| - |r|..] && (r != [] ==> !IsSpace(r[0])) &&
      forall k :: 0 <= k < |s| - |r| ==> IsSpace(s[k])
  {
    if s != [] && IsSpace(s[0]) {
      var t := s[1..];
      StripLeftSpec(t);
      var r := StripLeft(t);
      assert StripLeft(s) == r;
      assert t[|t| - |r|..] == s[|s| - |r|..];
      forall k | 0 <= k < |s| - |r| ensures IsSpace(s[k]) {
        if k > 0 { assert s[k] == t[k - 1]; }
      }
    }
  }

  /** `s.rstrip()`: the longest prefix of `s` that does not end with whitespace. */
  function StripRight(s: string): string {
    if s != [] && IsSpace(s[|s| - 1]) then StripRight(s[..|s| - 1]) else s
  }

  /** What `rstrip` leaves: a prefix, not ending with whitespace, before
      nothing but whitespace. */
  lemma {:induction false} StripRightSpec(s: string)
    ensures var r := StripRight(s);
      |r| <= |s| && r == s[..|r|] && (r != [] ==> !IsSpace(r[|r| - 1])) &&
      forall k :: |r| <= k < |s| ==> IsSpace(s[k])
  {
    if s != [] && IsSpace(s[|s| - 1]) {
      var t := s[..|s| - 1];
      StripRightSpec(t);
      var r := StripRight(t);
      assert StripRight(s) == r;
      assert t[..|r|] == s[..|r|];
      forall k | |r| <= k < |s| ensures IsSpace(s[k]) {
        if k < |t| { assert s[k] == t[k]; }
      }
    }
  }

  /** `s.strip()`. */
  function Strip(s: string): string {
    StripRight(StripLeft(s))
  }

  /** `str.strip()` leaves no whitespace at either end. */
  lemma StripEnds(s: string)
    ensures var r := Strip(s); r != [] ==> !IsSpace(r[0]) && !IsSpace(r[|r| - 1])
  {
    StripLeftSpec(s);
    StripRightSpec(StripLeft(s));
  }

  // ---------------------------------------------------------------------------
  // Slicing and replacing

  /** `s[1:-1]`: drops the first and the last character; empty for fewer than two. */
  function Inner(s: string): string {
    if |s| < 2 then "" else s[1..|s| - 1]
  }

  /** `s[n:]`. */
  function SliceFrom(s: string, n: nat): string {
    if n <= |s| then s[n..] else ""
  }

  /** `s.replace(c, t)` for a one-character pattern `c`. */
  function ReplaceChar(s: string, c: char, t: string): (r: string)
    ensures c !in t ==> c !in r
    ensures c !in s ==> r == s
  {
    if s == [] then ""
    else (if s[0] == c then t else [s[0]]) + ReplaceChar(s[1..], c, t)
  }

  // ---------------------------------------------------------------------------
  // Case-insensitive comparisons

  function UpperAscii(c: char): char {
    if 'a' <= c <= 'z' then (c as int - 32) as char else c
  }

  /** `s.upper() == "NONE"`. Python's full case mapping sends no character other
      than n, o and e (either case) to these letters, so this comparison is exact. */
  predicate UpperIsNone(s: string) {
    |s| == 4 && UpperAscii(s[0]) == 'N' && UpperAscii(s[1]) == 'O' &&
    UpperAscii(s[2]) == 'N' && UpperAscii(s[3]) == 'E'
  }

  /** The lower-case form of `c` as far as a comparison with an ASCII string can
      tell: ASCII letters, and U+212A KELVIN SIGN, whose Python lower case is `k`;
      every other character lower-cases to something that is not ASCII or to itself. */
  function LowerForCompare(c: char): char {
    if 'A' <= c <= 'Z' then (c as int + 32) as char
    else if c == '\U{212A}' then 'k'
    else c
  }

  /** `s.lower() == t` for an ASCII string `t` without upper-case letters. */
  predicate LowerEquals(s: string, t: string) {
    |s| == |t| && forall k :: 0 <= k < |s| ==> LowerForCompare(s[k]) == t[k]
  }

  // ---------------------------------------------------------------------------
  // `str(n)` for a natural number

  function DigitChar(d: nat): char requires d < 10 { ('0' as int + d) as char }

  function NatToString(n: nat): (r: string)
    ensures |r| >= 1
    ensures n < 10 <==> |r| == 1
    ensures forall k :: 0 <= k < |r| ==> '0' <= r[k] <= '9'
  {
    if n < 10 then [DigitChar(n)] else NatToString(n / 10) + [DigitChar(n % 10)]
  }

  /** Distinct numbers have distinct decimal forms. */
  lemma {:induction false} NatToStringInjective(m: nat, n: nat)
    requires NatToString(m) == NatToString(n)
    ensures m == n
  {
    if m >= 10 && n >= 10 {
      var a, b := NatToString(m), NatToString(n);
      assert a[..|a| - 1] == NatToString(m / 10);
      assert b[..|b| - 1] == NatToString(n / 10);
      NatToStringInjective(m / 10, n / 10);
      assert DigitChar(m % 10) == a[|a| - 1] == DigitChar(n % 10);
    }
  }
}
