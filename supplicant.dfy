/** `save_wpa_supplicant`: the lines of a `wpa_supplicant.conf` file written from
    a network mapping. Each of the three collectors carries its own copy; they
    differ only in which `auth` labels give a WPA stanza. The file text is each
    line followed by a newline. */
module Supplicant {
  import opened Py
  import opened PyDict
  import opened Records

  /** Which collector's copy of the renderer runs. */
  datatype Platform = Linux | Windows | Macos

  /** The Linux copy also accepts `wpa-psk` in any letter case. */
  predicate IsWpaAuth(p: Platform, auth: string) {
    auth == "WPA2-Personal" || (p == Linux && LowerEquals(auth, "wpa-psk"))
  }

  predicate IsOpenAuth(auth: string) {
    auth == "" || auth == "Open"
  }

  /** What the package version, `datetime.today()` and `platform.uname()` supply. */
  datatype Header = Header(version: string, created: string, system: string, osVersion: string, node: string)

  const PackageVersion := "0.3.3-beta"

  const WpaBanner := "# ######## WPA ########"
  const OpenBanner := "# ######## OPEN ########"

  /** The comment header and the global settings, up to the WPA banner. */
  function HeaderLines(h: Header, locale: string): (r: seq<string>)
    ensures |r| == 10 && r[9] == WpaBanner
  {
    ["# Generated by wifipasswords " + h.version,
     "# Created: " + h.created,
     "# Device: " + h.system + " " + h.osVersion + " - " + h.node,
     "# Detected country code: " + locale,
     "",
     "ctrl_interface=DIR=/var/run/wpa_supplicant GROUP=netdev",
     "update_config=1",
     "country=" + locale,
     "",
     WpaBanner]
  }

  /** One `network={…}` stanza of the file. */
  datatype Stanza = WpaStanza(ssid: string, psk: string) | OpenStanza(ssid: string)

  function Quoted(field: string, v: string): string {
    field + "\"" + v + "\""
  }

  function StanzaLines(st: Stanza): (r: seq<string>)
    ensures |r| == 6
  {
    match st
    case WpaStanza(s, k) =>
      ["network={", Quoted("\tssid=", s), Quoted("\tpsk=", k), "\tkey_mgmt=WPA-PSK", Quoted("\tid_str=", s), "}"]
    case OpenStanza(s) =>
      ["network={", Quoted("\tssid=", s), "\tkey_mgmt=NONE", Quoted("\tid_str=", s), "\tpriority=-999", "}"]
  }

  function SectionLines(sts: seq<Stanza>): (r: seq<string>)
    ensures |r| == 6 * |sts|
  {
    if sts == [] then [] else SectionLines(sts[..|sts| - 1]) + StanzaLines(sts[|sts| - 1])
  }

  /** The WPA stanzas, in the mapping's order. */
  function WpaStanzas(p: Platform, data: Networks): seq<Stanza> {
    if data == [] then []
    else
      var e := data[|data| - 1];
      WpaStanzas(p, data[..|data| - 1]) + (if IsWpaAuth(p, e.val.auth) then [WpaStanza(e.key, e.val.psk)] else [])
  }

  /** The open stanzas, in the mapping's order. */
  function OpenStanzas(data: Networks): seq<Stanza> {
    if data == [] then []
    else
      var e := data[|data| - 1];
      OpenStanzas(data[..|data| - 1]) + (if IsOpenAuth(e.val.auth) then [OpenStanza(e.key)] else [])
  }

  /** The whole file: header, WPA section, a blank line, and the open section
      when `includeOpen`. */
  function Rendered(p: Platform, data: Networks, includeOpen: bool, locale: string, h: Header): (r: seq<string>)
    ensures |r| == 11 + 6 * |WpaStanzas(p, data)| + (if includeOpen then 1 + 6 * |OpenStanzas(data)| else 0)
    ensures r[..10] == HeaderLines(h, locale)
  {
    HeaderLines(h, locale) + SectionLines(WpaStanzas(p, data)) + [""] +
    (if includeOpen then [OpenBanner] + SectionLines(OpenStanzas(data)) else [])
  }

  lemma SectionLinesSnoc(sts: seq<Stanza>, more: seq<Stanza>)
    requires |more| <= 1
    ensures SectionLines(sts + more) == SectionLines(sts) + (if more == [] then [] else StanzaLines(more[0]))
  {
    if more != [] {
      assert (sts + more)[..|sts|] == sts;
    } else {
      assert sts + more == sts;
    }
  }

  /** One more network adds its WPA stanza, if any, at the end. */
  lemma WpaStep(p: Platform, data: Networks, i: nat)
    requires i < |data|
    ensures SectionLines(WpaStanzas(p, data[..i + 1])) == SectionLines(WpaStanzas(p, data[..i])) +
      (if IsWpaAuth(p, data[i].val.auth) then StanzaLines(WpaStanza(data[i].key, data[i].val.psk)) else [])
  {
    var d := data[..i + 1];
    assert |d| == i + 1 && d[..i] == data[..i] && d[i] == data[i];
    var e := data[i];
    SectionLinesSnoc(WpaStanzas(p, data[..i]), if IsWpaAuth(p, e.val.auth) then [WpaStanza(e.key, e.val.psk)] else []);
  }

  /** One more network adds its open stanza, if any, at the end. */
  lemma OpenStep(data: Networks, i: nat)
    requires i < |data|
    ensures SectionLines(OpenStanzas(data[..i + 1])) == SectionLines(OpenStanzas(data[..i])) +
      (if IsOpenAuth(data[i].val.auth) then StanzaLines(OpenStanza(data[i].key)) else [])
  {
    var d := data[..i + 1];
    assert |d| == i + 1 && d[..i] == data[..i] && d[i] == data[i];
    var e := data[i];
    SectionLinesSnoc(OpenStanzas(data[..i]), if IsOpenAuth(e.val.auth) then [OpenStanza(e.key)] else []);
  }

  /** The pass that writes the WPA stanzas. */
  method WriteWpaSection(p: Platform, data: Networks) returns (lines: seq<string>)
    ensures lines == SectionLines(WpaStanzas(p, data))
  {
    lines := [];
    var i := 0;
    while i < |data|
      invariant 0 <= i <= |data|
      invariant lines == SectionLines(WpaStanzas(p, data[..i]))
    {
      var e := data[i];
      WpaStep(p, data, i);
      if IsWpaAuth(p, e.val.auth) {
        lines := lines + StanzaLines(WpaStanza(e.key, e.val.psk));
      }
      i := i + 1;
    }
    assert data[..|data|] == data;
  }

  /** The pass that writes the open stanzas. */
  method WriteOpenSection(data: Networks) returns (lines: seq<string>)
    ensures lines == SectionLines(OpenStanzas(data))
  {
    lines := [];
    var i := 0;
    while i < |data|
      invariant 0 <= i <= |data|
      invariant lines == SectionLines(OpenStanzas(data[..i]))
    {
      var e := data[i];
      OpenStep(data, i);
      if IsOpenAuth(e.val.auth) {
        lines := lines + StanzaLines(OpenStanza(e.key));
      }
      i := i + 1;
    }
    assert data[..|data|] == data;
  }

  /** The writer: the header, the WPA pass, a blank line, then the open pass
      when `includeOpen`. */
  method WriteSupplicant(p: Platform, data: Networks, includeOpen: bool, locale: string, h: Header)
    returns (lines: seq<string>)
    ensures lines == Rendered(p, data, includeOpen, locale, h)
  {
    var wpa := WriteWpaSection(p, data);
    lines := HeaderLines(h, locale) + wpa + [""];
    if includeOpen {
      var open := WriteOpenSection(data);
      lines := lines + [OpenBanner] + open;
    }
  }

  // ---------------------------------------------------------------------------
  // Reading the stanzas back

  /** The value of `field="v"`. */
  function Unquote(line: string, field: string): Option<string> {
    if |line| >= |field| + 2 && line[..|field| + 1] == field + "\"" && line[|line| - 1] == '"' then
      Some(line[|field| + 1..|line| - 1])
    else None
  }

  lemma UnquoteQuoted(field: string, v: string)
    ensures Unquote(Quoted(field, v), field) == Some(v)
  {
    var line := Quoted(field, v);
    assert line[..|field| + 1] == field + "\"";
    assert line[|field| + 1..|line| - 1] == v;
  }

  /** A six-line stanza as a reader of the file sees it. */
  function ReadStanza(g: seq<string>): Option<Stanza>
    requires |g| == 6
  {
    var ssid := Unquote(g[1], "\tssid=");
    if g[0] != "network={" || g[5] != "}" || ssid.None? then None
    else if g[3] == "\tkey_mgmt=WPA-PSK" && Unquote(g[2], "\tpsk=").Some? then
      Some(WpaStanza(ssid.value, Unquote(g[2], "\tpsk=").value))
    else if g[2] == "\tkey_mgmt=NONE" && g[4] == "\tpriority=-999" then Some(OpenStanza(ssid.value))
    else None
  }

  /** The stanzas at the start of `lines`, up to the first group that is not one. */
  function ReadSection(lines: seq<string>): seq<Stanza>
    decreases |lines|
  {
    if |lines| < 6 then []
    else match ReadStanza(lines[..6])
      case None => []
      case Some(st) => [st] + ReadSection(lines[6..])
  }

  lemma ReadStanzaLines(st: Stanza)
    ensures ReadStanza(StanzaLines(st)) == Some(st)
  {
    UnquoteQuoted("\tssid=", st.ssid);
    if st.WpaStanza? { UnquoteQuoted("\tpsk=", st.psk); }
  }

  lemma {:induction false} SectionLinesCons(st: Stanza, sts: seq<Stanza>)
    ensures SectionLines([st] + sts) == StanzaLines(st) + SectionLines(sts)
    decreases |sts|
  {
    if sts != [] {
      var front := sts[..|sts| - 1];
      assert ([st] + sts)[..|sts|] == [st] + front;
      SectionLinesCons(st, front);
    }
  }

  /** A section reads back as the stanzas written into it, whatever follows it,
      provided what follows does not start with another stanza. */
  lemma {:induction false} ReadSectionLines(sts: seq<Stanza>, rest: seq<string>)
    requires ReadSection(rest) == []
    ensures ReadSection(SectionLines(sts) + rest) == sts
    decreases |sts|
  {
    if sts != [] {
      ReadSectionLines(sts[1..], rest);
      ReadSectionStep(sts, rest);
    }
  }

  /** One stanza more in front of a section that reads back. */
  lemma ReadSectionStep(sts: seq<Stanza>, rest: seq<string>)
    requires sts != [] && ReadSection(SectionLines(sts[1..]) + rest) == sts[1..]
    ensures ReadSection(SectionLines(sts) + rest) == sts
  {
    SectionLinesFirst(sts, rest);
    ReadSectionFront(sts[0], SectionLines(sts[1..]) + rest);
    assert [sts[0]] + sts[1..] == sts;
  }

  lemma SectionLinesFirst(sts: seq<Stanza>, rest: seq<string>)
    requires sts != []
    ensures SectionLines(sts) + rest == StanzaLines(sts[0]) + (SectionLines(sts[1..]) + rest)
  {
    assert [sts[0]] + sts[1..] == sts;
    SectionLinesCons(sts[0], sts[1..]);
    Regroup3(StanzaLines(sts[0]), SectionLines(sts[1..]), rest);
  }

  lemma Regroup3<T>(a: seq<T>, b: seq<T>, c: seq<T>)
    ensures a + b + c == a + (b + c)
  {
  }

  lemma Regroup4<T>(a: seq<T>, x: T, y: T, b: seq<T>)
    ensures a + [x] + ([y] + b) == a + [x, y] + b
  {
    assert a + [x] + ([y] + b) == a + ([x] + [y]) + b;
  }

  lemma ThreeParts<T>(a: seq<T>, m: seq<T>, b: seq<T>)
    ensures |a + m + b| == |a| + |m| + |b|
    ensures (a + m + b)[|a|..|a| + |m|] == m && (a + m + b)[|a| + |m|..] == b + []
  {
  }

  /** A rendered stanza in front reads back first. */
  lemma ReadSectionFront(st: Stanza, tail: seq<string>)
    ensures ReadSection(StanzaLines(st) + tail) == [st] + ReadSection(tail)
  {
    var lines := StanzaLines(st) + tail;
    assert lines[..6] == StanzaLines(st) && lines[6..] == tail;
    ReadStanzaLines(st);
  }

  /** After the blank line, a line that opens no stanza. */
  lemma SectionEnd(tail: seq<string>)
    requires tail != [] && tail[0] == ""
    ensures ReadSection(tail) == []
  {
  }

  lemma DropFront<T>(a: seq<T>, b: seq<T>, c: seq<T>, d: seq<T>)
    ensures (a + b + c + d)[|a|..] == b + (c + d)
  {
    assert a + b + c + d == a + (b + (c + d));
  }

  /** The WPA section of the file reads back as exactly the selected WPA stanzas. */
  lemma ReadRenderedWpa(p: Platform, data: Networks, includeOpen: bool, locale: string, h: Header)
    ensures ReadSection(Rendered(p, data, includeOpen, locale, h)[10..]) == WpaStanzas(p, data)
  {
    var ws := WpaStanzas(p, data);
    var openPart := if includeOpen then [OpenBanner] + SectionLines(OpenStanzas(data)) else [];
    DropFront(HeaderLines(h, locale), SectionLines(ws), [""], openPart);
    SectionEnd([""] + openPart);
    ReadSectionLines(ws, [""] + openPart);
  }

  /** Where the open stanzas start: after the WPA stanzas, the blank line and the banner. */
  function OpenStart(p: Platform, data: Networks): nat {
    10 + 6 * |WpaStanzas(p, data)| + 2
  }

  /** With `includeOpen`, the open banner follows the blank line after the WPA
      section, and the open section reads back as exactly the open stanzas. */
  lemma ReadRenderedOpen(p: Platform, data: Networks, locale: string, h: Header)
    ensures |Rendered(p, data, true, locale, h)| >= OpenStart(p, data)
    ensures Rendered(p, data, true, locale, h)[OpenStart(p, data) - 2..OpenStart(p, data)] == ["", OpenBanner]
    ensures ReadSection(Rendered(p, data, true, locale, h)[OpenStart(p, data)..]) == OpenStanzas(data)
  {
    var head, ws, os := HeaderLines(h, locale), WpaStanzas(p, data), OpenStanzas(data);
    var a := head + SectionLines(ws);
    Regroup4(a, "", OpenBanner, SectionLines(os));
    ThreeParts(a, ["", OpenBanner], SectionLines(os));
    ReadSectionLines(os, []);
  }

  /** A WPA stanza is written for a name and key exactly when the mapping holds
      that name with that key and a WPA label; no open stanza is among them. */
  lemma {:induction false} WpaStanzasSelect(p: Platform, data: Networks, st: Stanza)
    ensures st in WpaStanzas(p, data) <==>
      st.WpaStanza? &&
      exists i :: 0 <= i < |data| && data[i].key == st.ssid && data[i].val.psk == st.psk && IsWpaAuth(p, data[i].val.auth)
  {
    if data != [] {
      var front := data[..|data| - 1];
      WpaStanzasSelect(p, front, st);
      assert forall i :: 0 <= i < |front| ==> front[i] == data[i];
    }
  }

  /** An open stanza is written for a name exactly when the mapping holds that
      name with auth `''` or `'Open'`; no WPA stanza is among them. */
  lemma {:induction false} OpenStanzasSelect(data: Networks, st: Stanza)
    ensures st in OpenStanzas(data) <==>
      st.OpenStanza? && exists i :: 0 <= i < |data| && data[i].key == st.ssid && IsOpenAuth(data[i].val.auth)
  {
    if data != [] {
      var front := data[..|data| - 1];
      OpenStanzasSelect(front, st);
      assert forall i :: 0 <= i < |front| ==> front[i] == data[i];
    }
  }

  /** In a mapping (no name twice), a network whose label is neither WPA nor
      open gets no stanza in either section. */
  lemma OtherLabelsOmitted(p: Platform, data: Networks, i: nat, st: Stanza)
    requires WellFormed(data) && i < |data|
    requires !IsWpaAuth(p, data[i].val.auth) && !IsOpenAuth(data[i].val.auth)
    requires st in WpaStanzas(p, data) || st in OpenStanzas(data)
    ensures st.ssid != data[i].key
  {
    WpaStanzasSelect(p, data, st);
    OpenStanzasSelect(data, st);
    forall j | 0 <= j < |data| && data[j].key == data[i].key ensures j == i {
      assert Keys(data)[i] == data[i].key && Keys(data)[j] == data[j].key;
    }
  }

  /** An empty mapping gives the header, the blank line and the open banner only. */
  lemma RenderedEmpty(p: Platform, includeOpen: bool, locale: string, h: Header)
    ensures Rendered(p, [], includeOpen, locale, h) ==
      HeaderLines(h, locale) + [""] + (if includeOpen then [OpenBanner] else [])
  {
  }
}
