/** Python dictionaries keyed by strings, as insertion-ordered sequences of
    entries. Assigning to an existing key replaces its value where it stands;
    assigning to a new key appends it. Iteration follows the sequence. */
module PyDict {
  import opened Py

  datatype Entry<V> = Entry(key: string, val: V)

  type Dict<V> = seq<Entry<V>>

  function Keys<V>(d: Dict<V>): seq<string> {
    seq(|d|, i requires 0 <= i < |d| => d[i].key)
  }

  predicate Distinct(ks: seq<string>) {
    forall i, j :: 0 <= i < j < |ks| ==> ks[i] != ks[j]
  }

  /** What every dictionary value satisfies: no key appears twice. */
  predicate WellFormed<V>(d: Dict<V>) {
    Distinct(Keys(d))
  }

  /** The position of the first `k` in `ks`. */
  function IndexOf(ks: seq<string>, k: string): (r: Option<nat>)
    ensures r.Some? ==> r.value < |ks| && ks[r.value] == k
    ensures r.Some? ==> forall j :: 0 <= j < r.value ==> ks[j] != k
    ensures r.None? <==> k !in ks
  {
    if ks == [] then None
    else if ks[0] == k then Some(0)
    else match IndexOf(ks[1..], k)
      case None => None
      case Some(i) => Some(i + 1)
  }

  /** The position of the last `k` in `ks`. */
  function LastIndexOf(ks: seq<string>, k: string): (r: Option<nat>)
    ensures r.Some? ==> r.value < |ks| && ks[r.value] == k
    ensures r.Some? ==> forall j :: r.value < j < |ks| ==> ks[j] != k
    ensures r.None? <==> k !in ks
  {
    if ks == [] then None
    else if ks[|ks| - 1] == k then Some(|ks| - 1)
    else LastIndexOf(ks[..|ks| - 1], k)
  }

  /** `d.get(k)`. */
  function Lookup<V>(d: Dict<V>, k: string): (r: Option<V>)
    ensures r.Some? <==> k in Keys(d)
    ensures r.Some? ==> exists i :: 0 <= i < |d| && d[i] == Entry(k, r.value)
  {
    match IndexOf(Keys(d), k)
    case None => None
    case Some(i) => Some(d[i].val)
  }

  /** In a well-formed dictionary, an entry at any position is what lookup finds. */
  lemma LookupAt<V>(d: Dict<V>, i: nat)
    requires WellFormed(d) && i < |d|
    ensures Lookup(d, d[i].key) == Some(d[i].val)
  {
    var r := IndexOf(Keys(d), d[i].key);
    assert Keys(d)[i] == d[i].key;
    assert r.Some? && r.value == i;
  }

  lemma {:induction false} IndexOfAppend(ks: seq<string>, k: string, k': string)
    requires k' != k
    ensures IndexOf(ks + [k], k') == IndexOf(ks, k')
  {
    if ks != [] {
      assert (ks + [k])[1..] == ks[1..] + [k];
      IndexOfAppend(ks[1..], k, k');
    }
  }

  /** `d[k] = v`. */
  function Put<V>(d: Dict<V>, k: string, v: V): (r: Dict<V>)
    ensures k in Keys(d) ==> Keys(r) == Keys(d)
    ensures k !in Keys(d) ==> Keys(r) == Keys(d) + [k]
    ensures Lookup(r, k) == Some(v)
    ensures forall k' :: k' != k ==> Lookup(r, k') == Lookup(d, k')
    ensures WellFormed(d) ==> WellFormed(r)
  {
    match IndexOf(Keys(d), k)
    case Some(i) => d[i := Entry(k, v)]
    case None =>
      var r := d + [Entry(k, v)];
      assert Keys(r) == Keys(d) + [k];
      forall k' | k' != k ensures Lookup(r, k') == Lookup(d, k') {
        IndexOfAppend(Keys(d), k, k');
        var j := IndexOf(Keys(d), k');
        if j.Some? { assert r[j.value] == d[j.value]; }
      }
      r
  }

  lemma KeysAppend<V>(a: seq<Entry<V>>, b: seq<Entry<V>>)
    ensures Keys(a + b) == Keys(a) + Keys(b)
  {
    assert forall i :: 0 <= i < |a + b| ==> Keys(a + b)[i] == (Keys(a) + Keys(b))[i];
  }

  lemma DistinctFront(ks: seq<string>)
    requires Distinct(ks) && ks != []
    ensures Distinct(ks[..|ks| - 1]) && ks[|ks| - 1] !in ks[..|ks| - 1]
  {
  }

  lemma PutAbsent<V>(d: Dict<V>, k: string, v: V)
    requires k !in Keys(d)
    ensures Put(d, k, v) == d + [Entry(k, v)]
  {
    assert IndexOf(Keys(d), k).None?;
  }

  /** `dict(pairs)` / a dictionary comprehension: the entries assigned in order. */
  function FromEntries<V>(es: seq<Entry<V>>): (r: Dict<V>)
    ensures WellFormed(r)
  {
    if es == [] then [] else Put(FromEntries(es[..|es| - 1]), es[|es| - 1].key, es[|es| - 1].val)
  }

  /** With no key repeated, building a dictionary from entries changes nothing. */
  lemma {:induction false} FromDistinctEntries<V>(es: seq<Entry<V>>)
    requires WellFormed(es)
    ensures FromEntries(es) == es
  {
    if es != [] {
      SplitLast(es);
      FromDistinctEntries(es[..|es| - 1]);
      AppendAbsent(es);
    }
  }

  /** The first position not yet processed still holds the original element. */
  lemma SameAt<T>(a: seq<T>, b: seq<T>, i: nat)
    requires |a| == |b| && i < |a| && a[i..] == b[i..]
    ensures a[i] == b[i]
  {
    assert a[i] == a[i..][0];
  }

  /** Replacing the first position not yet processed. */
  lemma ReplaceAt<T>(a: seq<T>, b: seq<T>, i: nat, x: T)
    requires |a| == |b| && i < |a| && a[i..] == b[i..]
    ensures a[i := x][..i + 1] == a[..i] + [x] && a[i := x][i + 1..] == b[i + 1..]
  {
    assert a[i + 1..] == a[i..][1..];
  }

  lemma ButLast<T>(s: seq<T>)
    requires s != []
    ensures s == s[..|s| - 1] + [s[|s| - 1]]
  {
  }

  lemma AppendAbsent<V>(es: seq<Entry<V>>)
    requires es != [] && FromEntries(es[..|es| - 1]) == es[..|es| - 1]
    requires es[|es| - 1].key !in Keys(es[..|es| - 1])
    ensures FromEntries(es) == es
  {
    var front, last := es[..|es| - 1], es[|es| - 1];
    ButLast(es);
    FromEntriesSnoc(front, last);
    PutAbsent(front, last.key, last.val);
  }

  lemma SplitLast<V>(es: seq<Entry<V>>)
    requires WellFormed(es) && es != []
    ensures WellFormed(es[..|es| - 1]) && es[|es| - 1].key !in Keys(es[..|es| - 1])
  {
    var ks := Keys(es);
    DistinctFront(ks);
    assert Keys(es[..|es| - 1]) == ks[..|es| - 1];
  }

  /** The keys in order of first occurrence. */
  function Dedup(ks: seq<string>): (r: seq<string>)
    ensures Distinct(r)
    ensures forall k :: k in r <==> k in ks
  {
    if ks == [] then []
    else
      var front := Dedup(ks[..|ks| - 1]);
      assert forall k :: k in ks <==> k in ks[..|ks| - 1] || k == ks[|ks| - 1];
      if ks[|ks| - 1] in front then front else front + [ks[|ks| - 1]]
  }

  /** The keys of a dictionary built by assignments are the assigned keys,
      each at its first assignment. */
  lemma {:induction false} KeysFromEntries<V>(es: seq<Entry<V>>)
    ensures Keys(FromEntries(es)) == Dedup(Keys(es))
  {
    if es != [] {
      var front := es[..|es| - 1];
      assert Keys(front) == Keys(es)[..|es| - 1];
      KeysFromEntries(front);
    }
  }

  /** The dictionary built by assignments maps each key to its last assigned value. */
  lemma {:induction false} LookupFromEntries<V>(es: seq<Entry<V>>, k: string, i: nat)
    requires i < |es| && es[i].key == k
    requires forall j :: i < j < |es| ==> es[j].key != k
    ensures Lookup(FromEntries(es), k) == Some(es[i].val)
  {
    var front := es[..|es| - 1];
    if i < |es| - 1 {
      LookupFromEntries(front, k, i);
    }
  }

  /** One more assignment. */
  /** One more entry of a loop that puts the entries in order. */
  lemma FromEntriesNext<V>(es: seq<Entry<V>>, i: nat)
    requires i < |es|
    ensures FromEntries(es[..i + 1]) == Put(FromEntries(es[..i]), es[i].key, es[i].val)
  {
    assert es[..i + 1][..i] == es[..i];
  }

  lemma FromEntriesSnoc<V>(es: seq<Entry<V>>, e: Entry<V>)
    ensures FromEntries(es + [e]) == Put(FromEntries(es), e.key, e.val)
  {
    assert (es + [e])[..|es|] == es;
  }

  /** Every key of a dictionary built by assignments holds one of the values
      assigned to it. */
  lemma {:induction false} AssignedValue<V>(es: seq<Entry<V>>, k: string)
    requires k in Keys(FromEntries(es))
    ensures exists j :: 0 <= j < |es| && es[j].key == k && Lookup(FromEntries(es), k) == Some(es[j].val)
  {
    var front, last := es[..|es| - 1], es[|es| - 1];
    if last.key != k {
      AssignedValue(front, k);
      var j :| 0 <= j < |front| && front[j].key == k && Lookup(FromEntries(front), k) == Some(front[j].val);
      assert es[j] == front[j];
    }
  }

  /** After the assignments `a` and then `b`, a key last assigned in `a`
      holds that value. */
  lemma LastInFront<V>(a: seq<Entry<V>>, b: seq<Entry<V>>, i: nat)
    requires i < |a| && forall j :: i < j < |a| ==> a[j].key != a[i].key
    requires forall j :: 0 <= j < |b| ==> b[j].key != a[i].key
    ensures Lookup(FromEntries(a + b), a[i].key) == Some(a[i].val)
  {
    var es := a + b;
    forall j | i < j < |es| ensures es[j].key != a[i].key {
      if j < |a| { assert es[j] == a[j]; } else { assert es[j] == b[j - |a|]; }
    }
    LookupFromEntries(es, a[i].key, i);
  }

  /** After the assignments `a` and then `b`, a key last assigned in `b`
      holds that value. */
  lemma LastInBack<V>(a: seq<Entry<V>>, b: seq<Entry<V>>, i: nat)
    requires i < |b| && forall j :: i < j < |b| ==> b[j].key != b[i].key
    ensures Lookup(FromEntries(a + b), b[i].key) == Some(b[i].val)
  {
    var es := a + b;
    assert es[|a| + i] == b[i];
    forall j | |a| + i < j < |es| ensures es[j].key != b[i].key {
      assert es[j] == b[j - |a|];
    }
    LookupFromEntries(es, b[i].key, |a| + i);
  }

  /** When every assigned value satisfies `p`, every value of the dictionary does. */
  lemma AssignedAll<V>(es: seq<Entry<V>>, p: V -> bool)
    requires forall j :: 0 <= j < |es| ==> p(es[j].val)
    ensures forall i :: 0 <= i < |FromEntries(es)| ==> p(FromEntries(es)[i].val)
  {
    var d := FromEntries(es);
    forall i | 0 <= i < |d| ensures p(d[i].val) {
      assert Keys(d)[i] == d[i].key;
      AssignedValue(es, d[i].key);
      LookupAt(d, i);
    }
  }
}
