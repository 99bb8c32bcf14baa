/** `get_passwords_dummy`: a mapping of made-up networks, half WPA and half open.
    The random values (`token_urlsafe`, `choice`) are whatever `Choices` gives. */
module Dummy {
  import opened Py
  import opened PyDict
  import opened Records

  /** What `token_urlsafe(randint(8, 16))` returns: never empty. */
  type Token = s: string | |s| > 0 witness "A"

  /** The random choices for network number `n`; the flag tells a WPA network
      (`true`) from an open one. `macIndex` picks from `MacChoices`. */
  datatype Choices = Choices(psk: nat -> Token, metered: (bool, nat) -> bool, macIndex: (bool, nat) -> nat)

  const MacChoices: seq<string> := ["Disabled", "Enabled", "Daily"]

  /** `int(quantity / 2)`: true division, then truncation toward zero. */
  function TruncHalf(q: int): (r: int)
    ensures q >= 0 ==> r == q / 2
    ensures q < 0 ==> r <= 0
  {
    if q >= 0 then q / 2 else -((-q) / 2)
  }

  /** `len(range(1, int(quantity / 2)))`. */
  function DummyCount(q: int): nat {
    if TruncHalf(q) > 1 then TruncHalf(q) - 1 else 0
  }

  function Mac(ch: Choices, wpa: bool, n: nat): string {
    MacChoices[ch.macIndex(wpa, n) % 3]
  }

  function WpaName(n: nat): string { "network " + NatToString(n) }
  function OpenName(n: nat): string { "open network " + NatToString(n) }

  /** The comprehension for the WPA half, before it becomes a dictionary. */
  function WpaEntries(count: nat, ch: Choices): seq<Entry<NetRecord>> {
    seq(count, i requires 0 <= i < count =>
      Entry(WpaName(i + 1), NetRecord("WPA2-Personal", ch.psk(i + 1), ch.metered(true, i + 1), Mac(ch, true, i + 1))))
  }

  /** The comprehension for the open half, before it becomes a dictionary. */
  function OpenEntries(count: nat, ch: Choices): seq<Entry<NetRecord>> {
    seq(count, i requires 0 <= i < count =>
      Entry(OpenName(i + 1), NetRecord("Open", "", ch.metered(false, i + 1), Mac(ch, false, i + 1))))
  }

  /** `{**data_wpa, **data_open}`. */
  function DummyData(q: int, ch: Choices): (r: Networks)
    ensures WellFormed(r) && |r| == 2 * DummyCount(q)
  {
    var c := DummyCount(q);
    var w, o := WpaEntries(c, ch), OpenEntries(c, ch);
    DummyKeysDistinct(c, ch);
    FromDistinctEntries(w);
    FromDistinctEntries(o);
    FromDistinctEntries(w + o);
    FromEntries(FromEntries(w) + FromEntries(o))
  }

  lemma NamesDiffer(m: nat, n: nat)
    ensures WpaName(m) == WpaName(n) ==> m == n
    ensures OpenName(m) == OpenName(n) ==> m == n
    ensures WpaName(m) != OpenName(n)
  {
    if WpaName(m) == WpaName(n) {
      assert NatToString(m) == WpaName(m)[8..];
      NatToStringInjective(m, n);
    }
    if OpenName(m) == OpenName(n) {
      assert NatToString(m) == OpenName(m)[13..];
      NatToStringInjective(m, n);
    }
    assert WpaName(m)[0] == 'n' && OpenName(n)[0] == 'o';
  }

  lemma DummyKeysDistinct(c: nat, ch: Choices)
    ensures WellFormed(WpaEntries(c, ch)) && WellFormed(OpenEntries(c, ch))
    ensures WellFormed(WpaEntries(c, ch) + OpenEntries(c, ch))
  {
    HalvesDistinct(c, ch);
    var w, o := WpaEntries(c, ch), OpenEntries(c, ch);
    var all := w + o;
    forall i, j | 0 <= i < j < |all| ensures Keys(all)[i] != Keys(all)[j] {
      var ni := if i < c then i + 1 else i - c + 1;
      var nj := if j < c then j + 1 else j - c + 1;
      NamesDiffer(ni, nj);
      NamesDiffer(nj, ni);
    }
  }

  lemma HalvesDistinct(c: nat, ch: Choices)
    ensures WellFormed(WpaEntries(c, ch)) && WellFormed(OpenEntries(c, ch))
  {
    var w, o := WpaEntries(c, ch), OpenEntries(c, ch);
    forall i, j | 0 <= i < j < c ensures Keys(w)[i] != Keys(w)[j] && Keys(o)[i] != Keys(o)[j] {
      NamesDiffer(i + 1, j + 1);
    }
  }

  /** The dummy mapping is the two comprehensions one after the other. */
  lemma DummyEntries(q: int, ch: Choices)
    ensures DummyData(q, ch) == WpaEntries(DummyCount(q), ch) + OpenEntries(DummyCount(q), ch)
  {
    var c := DummyCount(q);
    var w, o := WpaEntries(c, ch), OpenEntries(c, ch);
    DummyKeysDistinct(c, ch);
    FromDistinctEntries(w);
    FromDistinctEntries(o);
    FromDistinctEntries(w + o);
  }

  predicate IsWpaDummy(e: Entry<NetRecord>, n: nat) {
    e.key == WpaName(n) && e.val.auth == "WPA2-Personal" && e.val.psk != ""
  }

  predicate IsOpenDummy(e: Entry<NetRecord>, n: nat) {
    e.key == OpenName(n) && e.val.auth == "Open" && e.val.psk == ""
  }

  lemma HalvesShape(c: nat, ch: Choices)
    ensures |WpaEntries(c, ch) + OpenEntries(c, ch)| == 2 * c
    ensures forall i :: 0 <= i < c ==> IsWpaDummy((WpaEntries(c, ch) + OpenEntries(c, ch))[i], i + 1)
    ensures forall i :: c <= i < 2 * c ==> IsOpenDummy((WpaEntries(c, ch) + OpenEntries(c, ch))[i], i - c + 1)
  {
    var w, o := WpaEntries(c, ch), OpenEntries(c, ch);
    var d := w + o;
    forall i | 0 <= i < c ensures IsWpaDummy(d[i], i + 1) {
      assert d[i] == w[i];
    }
    forall i | c <= i < 2 * c ensures IsOpenDummy(d[i], i - c + 1) {
      assert d[i] == o[i - c];
    }
  }

  /** The dummy mapping: `DummyCount(q)` WPA networks `network 1`, … with a
      non-empty key, then as many open networks `open network 1`, … with an
      empty key; the names never collide, so it holds twice that many networks. */
  lemma DummyShape(q: int, ch: Choices)
    ensures |DummyData(q, ch)| == 2 * DummyCount(q) && WellFormed(DummyData(q, ch))
    ensures forall i :: 0 <= i < DummyCount(q) ==> IsWpaDummy(DummyData(q, ch)[i], i + 1)
    ensures forall i :: DummyCount(q) <= i < 2 * DummyCount(q) ==>
      IsOpenDummy(DummyData(q, ch)[i], i - DummyCount(q) + 1)
  {
    DummyEntries(q, ch);
    HalvesShape(DummyCount(q), ch);
  }

  /** Non-negative quantities give `⌊q/2⌋ − 1` networks of each kind, when positive. */
  lemma DummyCountOf(q: int)
    ensures q >= 4 ==> DummyCount(q) == q / 2 - 1
    ensures q < 4 ==> DummyCount(q) == 0
  {
  }

  /** The default quantity, 10, gives eight networks. */
  lemma DummyTen(ch: Choices)
    ensures |DummyData(10, ch)| == 8
  {
    DummyShape(10, ch);
  }
}
