/** The three regular expressions of the core, each written out as the search
    Python's `re` module performs for it. */
module Patterns {
  import opened Py

  // ---------------------------------------------------------------------------
  // `re.findall('(?<=P)[^}]*(?=})', s)` for the literal prefix P

  /** Where a match starting at `i` ends: `i` must be preceded by `p`, and the
      match runs up to the first `}` at or after `i` (the only length for which
      the look-ahead succeeds). */
  function MatchAt(s: string, p: string, i: nat): (r: Option<nat>)
    requires i <= |s|
    ensures r.Some? ==> i <= r.value < |s| && s[r.value] == '}'
    ensures r.Some? ==> '}' !in s[i..r.value]
  {
    if i >= |p| && s[i - |p|..i] == p then
      var m := FindFrom(s, "}", i);
      if m.Some? then
        assert s[m.value..m.value + 1] == "}";
        forall k | i <= k < m.value ensures s[k] != '}' {
          assert !OccursAt(s, "}", k);
          assert s[k..k + 1] == [s[k]];
        }
        m
      else None
    else None
  }

  /** The scan `findall` makes from `pos`; `mustAdvance` holds right after an
      empty match at `pos`, when the next match may not be empty there. */
  function BlocksFrom(s: string, p: string, pos: nat, mustAdvance: bool): (r: seq<string>)
    requires pos <= |s|
    decreases 2 * (|s| - pos) + (if mustAdvance then 0 else 1)
    ensures forall k :: 0 <= k < |r| ==> '}' !in r[k]
  {
    var m := MatchAt(s, p, pos);
    if m.Some? && !(mustAdvance && m.value == pos) then
      [s[pos..m.value]] + BlocksFrom(s, p, m.value, m.value == pos)
    else if pos == |s| then []
    else BlocksFrom(s, p, pos + 1, false)
  }

  /** `re.findall('(?<=P)[^}]*(?=})', s)`. */
  function Blocks(s: string, p: string): (r: seq<string>)
    ensures forall k :: 0 <= k < |r| ==> '}' !in r[k]
  {
    BlocksFrom(s, p, 0, false)
  }

  /** A text with no `}` has no blocks. */
  lemma {:induction false} NoBraceNoBlocks(s: string, p: string, pos: nat, mustAdvance: bool)
    requires pos <= |s| && '}' !in s[pos..]
    decreases |s| - pos
    ensures BlocksFrom(s, p, pos, mustAdvance) == []
  {
    if pos < |s| {
      assert s[pos + 1..] == s[pos..][1..];
      NoBraceNoBlocks(s, p, pos + 1, false);
    }
  }

  // ---------------------------------------------------------------------------
  // `re.search(r'\(.*\)', row)[0][1:-1]` on one line

  /** The last index of `c` in `s`. */
  function LastIndexOf(s: string, c: char): (r: Option<nat>)
    ensures r.Some? ==> r.value < |s| && s[r.value] == c && c !in s[r.value + 1..]
    ensures r.None? ==> c !in s
  {
    if s == [] then None
    else if s[|s| - 1] == c then Some(|s| - 1)
    else
      var r := LastIndexOf(s[..|s| - 1], c);
      assert s == s[..|s| - 1] + [s[|s| - 1]];
      r
  }

  /** The text between the first `(` and the last `)` after it; `TypeError`
      (Python subscripting `None`) when there is no such pair. On a single line
      `.` matches every character, so the greedy match runs from the leftmost
      `(` that has a later `)` to the last `)`. */
  function ParenGroup(row: string): (r: Result<string>)
    requires '\n' !in row
    ensures r.Err? ==> r.error == TypeError
    ensures r.Ok? ==> exists i, j :: (0 <= i < j < |row| && row[i] == '(' && row[j] == ')' &&
      ')' !in row[j + 1..] && r.value == row[i + 1..j])
  {
    match (Find(row, "("), LastIndexOf(row, ')'))
    case (Some(i), Some(j)) =>
      assert row[i] == row[i..i + 1][0];
      if i < j then Ok(row[i + 1..j]) else Err(TypeError)
    case _ => Err(TypeError)
  }

  /** Round trip: the group of `a + "(" + g + ")" + b` is `g` when `a` has no
      `(` and `b` has no `)`. */
  lemma ParenGroupOf(a: string, g: string, b: string)
    requires '(' !in a && ')' !in b && ')' !in g
    requires '\n' !in a + "(" + g + ")" + b
    ensures ParenGroup(a + "(" + g + ")" + b) == Ok(g)
  {
    var row := a + "(" + g + ")" + b;
    FirstOpen(a, g + ")" + b);
    assert row == a + "(" + (g + ")" + b);
    LastClose(a + "(" + g, b);
    assert row[|a| + 1..|a| + 1 + |g|] == g;
  }

  lemma FirstOpen(a: string, rest: string)
    requires '(' !in a
    ensures Find(a + "(" + rest, "(") == Some(|a|)
  {
    var row := a + "(" + rest;
    assert OccursAt(row, "(", |a|) by { assert row[|a|..|a| + 1] == "("; }
    forall k | 0 <= k < |a| ensures !OccursAt(row, "(", k) {
      assert row[k..k + 1] == [a[k]];
    }
  }

  lemma LastClose(front: string, b: string)
    requires ')' !in b
    ensures LastIndexOf(front + ")" + b, ')') == Some(|front|)
  {
    var row := front + ")" + b;
    assert row[|front|] == ')';
    assert row[|front| + 1..] == b;
    assert row[|front|] in row[|front|..];
  }

  // ---------------------------------------------------------------------------
  // `int(re.findall(r'\d{1,2}(?= network.* currently visible)', s)[0].strip())`

  predicate IsDigit(c: char) { '0' <= c <= '9' }

  /** The look-ahead ` network.* currently visible` at `p`: ` network`, then the
      rest of the same line contains ` currently visible`. */
  predicate VisibleTailAt(s: string, p: nat)
    requires p <= |s|
  {
    StartsWith(s[p..], " network") &&
    Contains(Split(s[p + 8..], "\n")[0], " currently visible")
  }

  /** The digits of the first match at or after `i`: two digits when the
      look-ahead holds after two, else one digit when it holds after one. */
  function VisibleCountFrom(s: string, i: nat): (r: Option<string>)
    requires i <= |s|
    decreases |s| - i
    ensures r.Some? ==> 1 <= |r.value| <= 2 && forall k :: 0 <= k < |r.value| ==> IsDigit(r.value[k])
  {
    if i == |s| then None
    else if i + 1 < |s| && IsDigit(s[i]) && IsDigit(s[i + 1]) && VisibleTailAt(s, i + 2) then Some(s[i..i + 2])
    else if IsDigit(s[i]) && VisibleTailAt(s, i + 1) then Some(s[i..i + 1])
    else VisibleCountFrom(s, i + 1)
  }

  function DigitValue(c: char): nat requires IsDigit(c) { c as int - '0' as int }

  /** The visible-network count the Windows collector reads; `IndexError` when
      the pattern does not occur. */
  function VisibleCount(s: string): (r: Result<nat>)
    ensures r.Ok? ==> r.value < 100
  {
    match VisibleCountFrom(s, 0)
    case None => Err(IndexError)
    case Some(d) => Ok(if |d| == 1 then DigitValue(d[0]) else 10 * DigitValue(d[0]) + DigitValue(d[1]))
  }

  /** A first line that starts with `u` when `u` holds no line break. */
  lemma FirstLineStartsWith(u: string, v: string)
    requires '\n' !in u
    ensures StartsWith(Split(u + v, "\n")[0], u)
  {
    var s := u + v;
    match Find(s, "\n")
    case None =>
      assert Split(s, "\n")[0] == s;
      assert s[..|u|] == u;
    case Some(i) =>
      assert OccursAt(s, "\n", i);
      assert s[i] == '\n' by { assert s[i..i + 1][0] == s[i]; }
      forall j | 0 <= j < |u| ensures s[j] != '\n' {
        assert s[j] == u[j] && u[j] in u;
      }
      assert i >= |u|;
      assert Split(s, "\n")[0] == s[..i];
      assert s[..i][..|u|] == u;
  }

  /** ` currently visible` later on the same line satisfies the look-ahead. */
  lemma VisibleTailOf(s: string, p: nat, m: string, b: string)
    requires p <= |s| && '\n' !in m
    requires s[p..] == " network" + m + " currently visible" + b
    ensures VisibleTailAt(s, p)
  {
    var t := " currently visible";
    assert s[p..][..8] == " network";
    var x := s[p + 8..];
    assert x == m + t + b;
    assert '\n' !in m + t;
    FirstLineStartsWith(m + t, b);
    var first := Split(x, "\n")[0];
    assert first[..|m + t|] == m + t;
    assert first[|m|..|m| + |t|] == t;
    assert OccursAt(first, t, |m|);
    ContainsIff(first, t);
  }

  /** Positions without a digit are skipped. */
  lemma SkipNonDigits(s: string, i: nat, j: nat)
    requires i <= j <= |s|
    requires forall k :: i <= k < j ==> !IsDigit(s[k])
    ensures VisibleCountFrom(s, i) == VisibleCountFrom(s, j)
  {
    var f := (k: nat) => if k <= |s| then VisibleCountFrom(s, k) else None;
    SkipEach(s, i, j);
    ChainEqual(f, i, j);
  }

  lemma SkipEach(s: string, i: nat, j: nat)
    requires i <= j <= |s|
    requires forall k :: i <= k < j ==> !IsDigit(s[k])
    ensures forall k :: i <= k < j ==> VisibleCountFrom(s, k) == VisibleCountFrom(s, k + 1)
  {
    forall k | i <= k < j ensures VisibleCountFrom(s, k) == VisibleCountFrom(s, k + 1) {
      SkipNonDigit(s, k);
    }
  }

  /** Equal neighbours all the way make the ends equal. */
  lemma {:induction false} ChainEqual<T>(f: nat -> T, i: nat, j: nat)
    requires i <= j && forall k :: i <= k < j ==> f(k) == f(k + 1)
    ensures f(i) == f(j)
    decreases j - i
  {
    if i < j {
      ChainEqual(f, i + 1, j);
    }
  }

  lemma SkipNonDigit(s: string, i: nat)
    requires i < |s| && !IsDigit(s[i])
    ensures VisibleCountFrom(s, i) == VisibleCountFrom(s, i + 1)
  {
  }

  /** Reading back the count: after text without digits, one or two digits
      followed by ` network`, and ` currently visible` on the same line, are
      exactly the digits read. */
  lemma VisibleCountOf(a: string, ds: string, m: string, b: string)
    requires forall k :: 0 <= k < |a| ==> !IsDigit(a[k])
    requires 1 <= |ds| <= 2 && forall k :: 0 <= k < |ds| ==> IsDigit(ds[k])
    requires '\n' !in m
    ensures VisibleCountFrom(a + ds + " network" + m + " currently visible" + b, 0) == Some(ds)
  {
    var tail := " network" + m + " currently visible" + b;
    var s := a + ds + tail;
    assert s == a + ds + " network" + m + " currently visible" + b;
    SkipNonDigits(s, 0, |a|);
    assert s[|a|..|a| + |ds|] == ds;
    assert s[|a| + |ds|..] == tail;
    VisibleTailOf(s, |a| + |ds|, m, b);
    assert s[|a|] == ds[0];
    if |ds| == 1 {
      assert s[|a| + 1] == ' ';
      assert VisibleCountFrom(s, |a|) == Some(s[|a|..|a| + 1]);
    } else {
      assert s[|a| + 1] == ds[1] && |ds| == 2;
      assert VisibleCountFrom(s, |a|) == Some(s[|a|..|a| + 2]);
    }
  }
}
