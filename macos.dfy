/** The macOS collector, `WifiPasswordsMacos`. Every command's output is part
    of the `MacosHost` it runs on; the keychain is read through `security`,
    the DNS settings through `scutil --dns` and `ifconfig`. */
module Macos {
  import opened Py
  import opened PyDict
  import opened Records
  import opened Bytes
  import Patterns
  import Supplicant
  import Dummy

  /** What the collector's commands print on one machine. */
  datatype MacosHost = MacosHost(
    keychainDump: string,               // `security dump-keychain`
    findPassword: string -> string,     // stdout of `security find-generic-password -a <ssid> -w`
    findPasswordErr: string -> string,  // its stderr
    dnsSettings: string,                // `scutil --dns`
    ifconfig: string,                   // `ifconfig`
    airportInfo: string)                // `airport -I`

  // ---------------------------------------------------------------------------
  // Known names: the keychain dump

  const AirportMarker := "AirPort network password"
  const AcctField := "\"acct\"<blob>="

  /** An item of the dump is kept when it mentions an AirPort network password. */
  function AirportPick(item: string): Option<string> {
    if Contains(item, AirportMarker) then Some(item) else None
  }

  /** The keychain items: the dump split on `attributes:`, AirPort items only. */
  function AirportItems(dump: string): seq<string> {
    Collect(AirportPick, Split(dump, "attributes:"))
  }

  /** The account blob as a name: `0x…` is hexadecimal up to the first double
      space, decoded as UTF-8 (`ValueError` for a bad digit,
      `UnicodeDecodeError` for bad UTF-8); anything else loses its first and
      last character, the quotes. */
  function DecodeBlob(blob: string): (r: Result<string>)
    ensures r.Err? ==> StartsWith(blob, "0x") && (r.error == ValueError || r.error == UnicodeDecodeError)
  {
    if StartsWith(blob, "0x") then
      var stripped := Split(blob, "  ")[0];
      var bytes :- FromHex(SliceFrom(stripped, 2));
      match Utf8Decode(bytes)
      case None => Err(UnicodeDecodeError)
      case Some(s) => Ok(s)
    else Ok(Inner(blob))
  }

  /** One row of an item: an account row appends its decoded name. */
  function AcctStep(ssids: seq<string>, row: string): Result<seq<string>> {
    if Contains(row, AcctField) then
      var blob :- Item(row, AcctField, 1);
      var ssid :- DecodeBlob(blob);
      Ok(ssids + [ssid])
    else Ok(ssids)
  }

  /** One item: its rows in turn. */
  function ItemStep(ssids: seq<string>, item: string): Result<seq<string>> {
    FoldRows(AcctStep, ssids, Lines(item))
  }

  /** `get_known_ssids`, and the first half of `get_passwords`. */
  function KnownSsids(dump: string): Result<seq<string>> {
    FoldRows(ItemStep, [], AirportItems(dump))
  }

  /** The hexadecimal form of a name's UTF-8 bytes, followed by the double
      space and the printable form the dump shows, decodes to the name. */
  lemma HexBlobRoundTrip(s: string, shown: string)
    ensures DecodeBlob("0x" + ToHex(Utf8Encode(s)) + "  " + shown) == Ok(s)
  {
    var h := ToHex(Utf8Encode(s));
    var blob := "0x" + h + "  " + shown;
    assert blob[..2] == "0x";
    ToHexNoSpace(Utf8Encode(s));
    FirstPieceOfJoin("0x" + h, "  ", shown);
    assert ("0x" + h)[2..] == h;
    FromHexToHex(Utf8Encode(s));
    Utf8RoundTrip(s);
  }

  /** A quoted blob decodes to the text between the quotes. */
  lemma QuotedBlobRoundTrip(s: string)
    ensures DecodeBlob("\"" + s + "\"") == Ok(s)
  {
    var blob := "\"" + s + "\"";
    assert blob[0] == '"';
    assert blob[1..|blob| - 1] == s;
  }

  /** A row naming the account field whose blob does not decode. */
  predicate BadAcct(row: string) {
    Contains(row, AcctField) && DecodeBlob(SecondOr(row, AcctField, "")).Err?
  }

  /** The name an account row contributes, when its blob decodes. */
  function AcctPick(row: string): Option<string> {
    if Contains(row, AcctField) then
      match DecodeBlob(SecondOr(row, AcctField, ""))
      case Ok(s) => Some(s)
      case Err(_) => None
    else None
  }

  lemma AcctStepSpec(ssids: seq<string>, row: string)
    ensures AcctStep(ssids, row).Err? <==> BadAcct(row)
    ensures AcctStep(ssids, row).Ok? ==>
      AcctStep(ssids, row).value == ssids + (match AcctPick(row) case None => [] case Some(v) => [v])
  {
    if Contains(row, AcctField) {
      SecondOrOk(row, AcctField);
    } else {
      assert ssids + [] == ssids;
    }
  }

  /** The nested loop is one loop over the rows of all AirPort items. */
  lemma {:induction false} ItemsFlatten(init: seq<string>, items: seq<string>)
    ensures FoldRows(ItemStep, init, items) == FoldRows(AcctStep, init, Flatten(Lines, items))
  {
    if items != [] {
      var front := items[..|items| - 1];
      ItemsFlatten(init, front);
      FoldRowsAppend(AcctStep, init, Flatten(Lines, front), Lines(items[|items| - 1]));
    }
  }

  /** Reading the names raises exactly when an account row of an AirPort item
      has a blob that does not decode; otherwise the names are the decoded
      blobs of those rows, in dump order. */
  lemma KnownSsidsSpec(dump: string)
    ensures KnownSsids(dump).Err? <==>
      exists i :: 0 <= i < |Flatten(Lines, AirportItems(dump))| && BadAcct(Flatten(Lines, AirportItems(dump))[i])
    ensures KnownSsids(dump).Ok? ==> KnownSsids(dump).value == Collect(AcctPick, Flatten(Lines, AirportItems(dump)))
  {
    var rows := Flatten(Lines, AirportItems(dump));
    ItemsFlatten([], AirportItems(dump));
    forall s, row ensures AcctStep(s, row).Err? <==> BadAcct(row) {
      AcctStepSpec(s, row);
    }
    FoldRowsFails(AcctStep, BadAcct, [], rows);
    if KnownSsids(dump).Ok? {
      forall s, row | AcctStep(s, row).Ok?
        ensures AcctStep(s, row).value == s + (match AcctPick(row) case None => [] case Some(v) => [v])
      {
        AcctStepSpec(s, row);
      }
      FoldRowsCollect(AcctStep, AcctPick, [], rows);
      assert [] + Collect(AcctPick, rows) == Collect(AcctPick, rows);
    }
  }

  // ---------------------------------------------------------------------------
  // Passwords

  /** The record for a keychain name: no label, the stripped password the
      keychain prints, unmetered, no MAC randomisation. */
  function KeychainRecord(host: MacosHost, ssid: string): NetRecord {
    NetRecord("", Strip(host.findPassword(ssid)), false, "Disabled")
  }

  /** `results[ssid] = …` for each name in turn: every name once, in
      first-seen order, with its keychain record. */
  function KeychainNetworks(host: MacosHost, ssids: seq<string>): (r: Networks)
    ensures Keys(r) == Dedup(ssids) && WellFormed(r)
    ensures forall i :: 0 <= i < |r| ==> r[i].val == KeychainRecord(host, r[i].key)
  {
    if ssids == [] then []
    else
      var front := KeychainNetworks(host, ssids[..|ssids| - 1]);
      var k := ssids[|ssids| - 1];
      var r := Put(front, k, KeychainRecord(host, k));
      forall i | 0 <= i < |r| ensures r[i].val == KeychainRecord(host, r[i].key) {
        LookupAt(r, i);
        if r[i].key != k {
          var j :| 0 <= j < |front| && front[j] == Entry(r[i].key, r[i].val);
        }
      }
      r
  }

  /** `get_passwords`. */
  function Passwords(host: MacosHost): Result<Networks> {
    var ssids :- KnownSsids(host.keychainDump);
    Ok(KeychainNetworks(host, ssids))
  }

  /** The passwords are read exactly when the known names are, and are keyed
      by those names, each once; every name's record is its keychain record. */
  lemma PasswordsMatchKnown(host: MacosHost, k: string)
    ensures Passwords(host).Ok? <==> KnownSsids(host.keychainDump).Ok?
    ensures Passwords(host).Ok? ==> Keys(Passwords(host).value) == Dedup(KnownSsids(host.keychainDump).value)
    ensures Passwords(host).Ok? && k in KnownSsids(host.keychainDump).value ==>
      Lookup(Passwords(host).value, k) == Some(KeychainRecord(host, k))
  {
    if Passwords(host).Ok? && k in KnownSsids(host.keychainDump).value {
      var d := Passwords(host).value;
      assert k in Keys(d);
      var i :| 0 <= i < |d| && d[i] == Entry(k, Lookup(d, k).value);
    }
  }

  // ---------------------------------------------------------------------------
  // One password

  const NotFound := "The specified item could not be found in the keychain."

  /** `get_single_password`: `ValueError` when `security` reports the name
      unknown, otherwise its stripped output. */
  function SinglePassword(host: MacosHost, ssid: string): (r: Result<string>)
    ensures r.Err? ==> r.error == ValueError
    ensures r.Ok? && r.value != "" ==> !IsSpace(r.value[0]) && !IsSpace(r.value[|r.value| - 1])
  {
    if Contains(Strip(host.findPasswordErr(ssid)), NotFound) then Err(ValueError)
    else
      StripEnds(host.findPassword(ssid));
      Ok(Strip(host.findPassword(ssid)))
  }

  /** The single password, when there is one, is the key of the name's record
      in the passwords. */
  lemma SinglePasswordAgrees(host: MacosHost, ssid: string)
    requires Passwords(host).Ok? && ssid in KnownSsids(host.keychainDump).value
    ensures SinglePassword(host, ssid).Ok? ==>
      Lookup(Passwords(host).value, ssid).Some? && SinglePassword(host, ssid).value == Lookup(Passwords(host).value, ssid).value.psk
    ensures SinglePassword(host, ssid).Err? <==> Contains(Strip(host.findPasswordErr(ssid)), NotFound)
  {
    PasswordsMatchKnown(host, ssid);
  }

  // ---------------------------------------------------------------------------
  // Connected networks

  /** `get_currently_connected_ssids`: the stripped value of every ` SSID` line. */
  function ConnectedSsids(host: MacosHost): Result<seq<string>> {
    FoldRows(FieldStep(" SSID", ":", true), [], Lines(host.airportInfo))
  }

  /** Each name with its stripped keychain password, in order. */
  function ConnectedPairs(host: MacosHost, ssids: seq<string>): (r: seq<(string, string)>)
    ensures |r| == |ssids|
    ensures forall i :: 0 <= i < |r| ==> r[i] == (ssids[i], KeychainRecord(host, ssids[i]).psk)
  {
    if ssids == [] then []
    else
      var front, last := ssids[..|ssids| - 1], ssids[|ssids| - 1];
      var r := ConnectedPairs(host, front) + [(last, Strip(host.findPassword(last)))];
      assert forall i :: 0 <= i < |front| ==> front[i] == ssids[i];
      r
  }

  /** `get_currently_connected_passwords`. */
  function ConnectedPasswords(host: MacosHost): Result<seq<(string, string)>> {
    var ssids :- ConnectedSsids(host);
    Ok(ConnectedPairs(host, ssids))
  }

  /** Every connected pair names a connected network, and its password is the
      one the single lookup gives and the one the passwords hold for it. */
  lemma ConnectedPasswordsAgree(host: MacosHost, i: nat)
    requires ConnectedPasswords(host).Ok? && i < |ConnectedPasswords(host).value|
    ensures ConnectedSsids(host).Ok? && |ConnectedSsids(host).value| == |ConnectedPasswords(host).value|
    ensures ConnectedPasswords(host).value[i].0 == ConnectedSsids(host).value[i]
    ensures var p := ConnectedPasswords(host).value[i];
      (SinglePassword(host, p.0).Ok? ==> SinglePassword(host, p.0).value == p.1) &&
      (Passwords(host).Ok? && p.0 in KnownSsids(host.keychainDump).value ==>
        Lookup(Passwords(host).value, p.0) == Some(NetRecord("", p.1, false, "Disabled")))
  {
    var p := ConnectedPasswords(host).value[i];
    PasswordsMatchKnown(host, p.0);
  }

  // ---------------------------------------------------------------------------
  // DNS

  const ScopedHeader := "DNS configuration (for scoped queries)"

  /** The blank-line separated sections of `scutil --dns`. */
  function DnsSections(settings: string): seq<string> {
    Split(Strip(settings), "\n\n")
  }

  /** The sections after the scoped-queries header; `ValueError` when no
      section is that header. */
  function ScopedSections(settings: string): (r: Result<seq<string>>)
    ensures r.Err? ==> r.error == ValueError
  {
    var sections := DnsSections(settings);
    match IndexOf(sections, ScopedHeader)
    case None => Err(ValueError)
    case Some(i) => Ok(sections[i + 1..])
  }

  /** The header is missing exactly when no section is it; otherwise the
      scoped sections are those after its first occurrence. */
  lemma ScopedSectionsSpec(settings: string)
    ensures ScopedSections(settings).Err? <==> ScopedHeader !in DnsSections(settings)
    ensures ScopedSections(settings).Ok? ==>
      exists i :: 0 <= i < |DnsSections(settings)| && DnsSections(settings)[i] == ScopedHeader &&
        ScopedHeader !in DnsSections(settings)[..i] && ScopedSections(settings).value == DnsSections(settings)[i + 1..]
  {
    var sections := DnsSections(settings);
    var at := IndexOf(sections, ScopedHeader);
    if at.Some? {
      assert ScopedHeader !in sections[..at.value];
    }
  }

  /** An `ifconfig` line that does not start with a tab names an interface:
      the text before its first `:`. */
  function InterfacePick(line: string): Option<string> {
    if StartsWith(line, "\t") then None else Some(Split(line, ":")[0])
  }

  /** The interface names, in `ifconfig` order. */
  function InterfaceNames(ifconfig: string): seq<string> {
    Collect(InterfacePick, Split(Strip(ifconfig), "\n"))
  }

  /** The setting of an interface without a scoped section. */
  const NoneSetting := DnsSetting("None", "", "")

  /** `dns_dict[interface] = {…}` for each interface, before any section. */
  function NoneEntries(names: seq<string>): seq<Entry<DnsSetting>> {
    seq(|names|, i requires 0 <= i < |names| => Entry(names[i], NoneSetting))
  }

  /** A row of a section: one line, so `.` in a pattern matches all of it. */
  type Line = s: string | '\n' !in s

  lemma NoNewline(p: string)
    requires !Contains(p, "\n")
    ensures '\n' !in p
  {
    if '\n' in p {
      var j :| 0 <= j < |p| && p[j] == '\n';
      assert p[j..j + 1] == "\n";
      ContainsIff(p, "\n");
      assert OccursAt(p, "\n", j);
    }
  }

  /** `item.split('\n')`. */
  function SectionRows(section: string): seq<Line> {
    var rows := Split(section, "\n");
    SplitPieces(section, "\n");
    forall k | 0 <= k < |rows| ensures '\n' !in rows[k] {
      NoNewline(rows[k]);
    }
    rows
  }

  /** What one scoped section says so far. */
  datatype Scope = Scope(interface: string, dns: string, suffix: string)

  /** `row.split(':')[1].strip()` on a row naming `needle`, else `current`. */
  function ColonField(row: string, needle: string, current: string): Result<string> {
    if Contains(row, needle) then
      var v :- Item(row, ":", 1);
      Ok(Strip(v))
    else Ok(current)
  }

  /** `re.search(r'\(.*\)', row)[0][1:-1]` on an `if_index` row, else `current`. */
  function InterfaceField(row: Line, current: string): Result<string> {
    if Contains(row, "if_index") then Patterns.ParenGroup(row) else Ok(current)
  }

  /** One row: a `search domain` row sets the suffix, an `if_index` row the
      interface (the text in its parentheses), a `nameserver` row the server. */
  function ScopeStep(f: Scope, row: Line): Result<Scope> {
    var suffix :- ColonField(row, "search domain", f.suffix);
    var name :- InterfaceField(row, f.interface);
    var dns :- ColonField(row, "nameserver", f.dns);
    Ok(Scope(name, dns, suffix))
  }

  /** One section's fields, each starting empty. */
  function ScopeOf(section: string): Result<Scope> {
    FoldRows(ScopeStep, Scope("", "", ""), SectionRows(section))
  }

  function ScopeSetting(f: Scope): DnsSetting {
    DnsSetting("None", f.dns, f.suffix)
  }

  /** One section: `dns_dict[interface] = {…}` with what it says. */
  function ScopedStep(d: Dict<DnsSetting>, section: string): Result<Dict<DnsSetting>> {
    var f :- ScopeOf(section);
    Ok(Put(d, f.interface, ScopeSetting(f)))
  }

  /** `dns_dict` in dictionary form. */
  function DnsConfig(host: MacosHost): (r: Result<Dict<DnsSetting>>)
    ensures r.Err? ==> r.error == ValueError || r.error == IndexError || r.error == TypeError
    ensures r.Ok? ==> WellFormed(r.value)
  {
    var scoped :- ScopedSections(host.dnsSettings);
    var defaults := FromEntries(NoneEntries(InterfaceNames(host.ifconfig)));
    ScopedStepErrors();
    FoldRowsRaised(ScopedStep, (_: string, e: PyError) => e == IndexError || e == TypeError, defaults, scoped);
    FoldRowsKeeps(ScopedStep, WellFormed, defaults, scoped);
    FoldRows(ScopedStep, defaults, scoped)
  }

  /** A section raises nothing but `IndexError` (a field row without `:`) or
      `TypeError` (an `if_index` row without a parenthesised group). */
  lemma ScopedStepErrors()
    ensures forall d, section :: ScopedStep(d, section).Err? ==>
      ScopedStep(d, section).error == IndexError || ScopedStep(d, section).error == TypeError
  {
    forall d, section ensures ScopedStep(d, section).Err? ==>
      ScopedStep(d, section).error == IndexError || ScopedStep(d, section).error == TypeError
    {
      FoldRowsRaised(ScopeStep, (_: Line, e: PyError) => e == IndexError || e == TypeError, Scope("", "", ""), SectionRows(section));
    }
  }

  /** A row that raises: a `search domain` or `nameserver` row without `:`
      (`IndexError`), or an `if_index` row without a parenthesised group
      (`TypeError`). */
  predicate BadScopeRow(row: Line) {
    Unreadable("search domain", ":", row) ||
    (Contains(row, "if_index") && Patterns.ParenGroup(row).Err?) ||
    Unreadable("nameserver", ":", row)
  }

  function InterfaceRowPick(row: Line): Option<string> {
    if Contains(row, "if_index") then
      match Patterns.ParenGroup(row)
      case Ok(g) => Some(g)
      case Err(_) => None
    else None
  }

  function SuffixPick(row: Line): Option<string> {
    FieldPick("search domain", ":", true)(row)
  }

  function ServerPick(row: Line): Option<string> {
    FieldPick("nameserver", ":", true)(row)
  }

  lemma ColonFieldSpec(row: string, needle: string, current: string)
    ensures ColonField(row, needle, current).Err? <==> Unreadable(needle, ":", row)
    ensures ColonField(row, needle, current).Ok? ==>
      ColonField(row, needle, current).value == match FieldPick(needle, ":", true)(row) case Some(v) => v case None => current
  {
    SecondItem(row, ":");
    if Contains(row, ":") {
      SecondOrOk(row, ":");
    }
  }

  lemma ScopeStepSpec(f: Scope, row: Line)
    ensures ScopeStep(f, row).Err? <==> BadScopeRow(row)
    ensures ScopeStep(f, row).Ok? ==>
      var g := ScopeStep(f, row).value;
      g.suffix == (match SuffixPick(row) case Some(v) => v case None => f.suffix) &&
      g.interface == (match InterfaceRowPick(row) case Some(v) => v case None => f.interface) &&
      g.dns == (match ServerPick(row) case Some(v) => v case None => f.dns)
  {
    ColonFieldSpec(row, "search domain", f.suffix);
    ColonFieldSpec(row, "nameserver", f.dns);
  }

  /** A section raises exactly when one of its rows does. */
  lemma ScopeOfErr(section: string)
    ensures ScopeOf(section).Err? <==>
      exists i :: 0 <= i < |SectionRows(section)| && BadScopeRow(SectionRows(section)[i])
  {
    forall s, row ensures ScopeStep(s, row).Err? <==> BadScopeRow(row) {
      ScopeStepSpec(s, row);
    }
    FoldRowsFails(ScopeStep, BadScopeRow, Scope("", "", ""), SectionRows(section));
  }

  /** Otherwise the interface is the group of the last `if_index` row, the
      server the value of the last `nameserver` row and the suffix that of
      the last `search domain` row, each empty when there is none. */
  lemma ScopeOfFields(section: string)
    requires ScopeOf(section).Ok?
    ensures var rows, f := SectionRows(section), ScopeOf(section).value;
      f.interface == (match LastFound(InterfaceRowPick, rows) case None => "" case Some(i) => InterfaceRowPick(rows[i]).value) &&
      f.dns == (match LastFound(ServerPick, rows) case None => "" case Some(i) => ServerPick(rows[i]).value) &&
      f.suffix == (match LastFound(SuffixPick, rows) case None => "" case Some(i) => SuffixPick(rows[i]).value)
  {
    var rows := SectionRows(section);
    var init := Scope("", "", "");
    forall s, row | ScopeStep(s, row).Ok?
      ensures ScopeStep(s, row).value.interface == (match InterfaceRowPick(row) case Some(v) => v case None => s.interface)
      ensures ScopeStep(s, row).value.dns == (match ServerPick(row) case Some(v) => v case None => s.dns)
      ensures ScopeStep(s, row).value.suffix == (match SuffixPick(row) case Some(v) => v case None => s.suffix)
    {
      ScopeStepSpec(s, row);
    }
    LastFoundField(ScopeStep, (g: Scope) => g.interface, InterfaceRowPick, init, rows);
    LastFoundField(ScopeStep, (g: Scope) => g.dns, ServerPick, init, rows);
    LastFoundField(ScopeStep, (g: Scope) => g.suffix, SuffixPick, init, rows);
  }

  function ScopeEntry(f: Scope): Entry<DnsSetting> {
    Entry(f.interface, ScopeSetting(f))
  }

  function SectionEntry(section: string): Result<Entry<DnsSetting>> {
    var f :- ScopeOf(section);
    Ok(ScopeEntry(f))
  }

  /** The entries the scoped sections assign, in order, or the first
      section's exception. */
  function ScopeEntries(sections: seq<string>): Result<seq<Entry<DnsSetting>>> {
    MapRows(SectionEntry, sections)
  }

  /** The loop over the sections assigns their entries after those already made. */
  lemma {:induction false} ScopedFold(pre: seq<Entry<DnsSetting>>, sections: seq<string>)
    ensures FoldRows(ScopedStep, FromEntries(pre), sections) ==
      match ScopeEntries(sections)
      case Err(e) => Err(e)
      case Ok(es) => Ok(FromEntries(pre + es))
  {
    if sections == [] {
      assert pre + [] == pre;
    } else {
      var front := sections[..|sections| - 1];
      ScopedFold(pre, front);
      var fe := ScopeEntries(front);
      if fe.Ok? {
        var f := ScopeOf(sections[|sections| - 1]);
        if f.Ok? {
          var e := ScopeEntry(f.value);
          assert pre + (fe.value + [e]) == (pre + fe.value) + [e];
          FromEntriesSnoc(pre + fe.value, e);
        }
      }
    }
  }

  /** The scoped sections of a host's DNS output, when the header is there. */
  function Scoped(host: MacosHost): seq<string>
    requires ScopedSections(host.dnsSettings).Ok?
  {
    ScopedSections(host.dnsSettings).value
  }

  /** The DNS mapping is the interface defaults followed by the scoped
      entries, assigned in order: it raises when the header is missing
      (`ValueError`) or a section raises. */
  lemma DnsConfigEntries(host: MacosHost)
    ensures DnsConfig(host) ==
      match ScopedSections(host.dnsSettings)
      case Err(e) => Err(e)
      case Ok(scoped) =>
        match ScopeEntries(scoped)
        case Err(e) => Err(e)
        case Ok(es) => Ok(FromEntries(NoneEntries(InterfaceNames(host.ifconfig)) + es))
  {
    if ScopedSections(host.dnsSettings).Ok? {
      ScopedFold(NoneEntries(InterfaceNames(host.ifconfig)), Scoped(host));
    }
  }

  /** The keys are the interfaces `ifconfig` lists, then those of the
      sections, each once, in first-seen order; every type is `'None'`. */
  lemma DnsConfigKeys(host: MacosHost)
    requires DnsConfig(host).Ok?
    ensures ScopedSections(host.dnsSettings).Ok? && ScopeEntries(Scoped(host)).Ok?
    ensures Keys(DnsConfig(host).value) ==
      Dedup(InterfaceNames(host.ifconfig) + Keys(ScopeEntries(Scoped(host)).value))
    ensures forall i :: 0 <= i < |DnsConfig(host).value| ==> DnsConfig(host).value[i].val.kind == "None"
  {
    DnsConfigEntries(host);
    var names, se := InterfaceNames(host.ifconfig), ScopeEntries(Scoped(host)).value;
    MapRowsOk(SectionEntry, Scoped(host));
    DefaultsThenScoped(names, se);
  }

  lemma DefaultsThenScoped(names: seq<string>, se: seq<Entry<DnsSetting>>)
    requires forall j :: 0 <= j < |se| ==> se[j].val.kind == "None"
    ensures Keys(FromEntries(NoneEntries(names) + se)) == Dedup(names + Keys(se))
    ensures forall i :: 0 <= i < |FromEntries(NoneEntries(names) + se)| ==>
      FromEntries(NoneEntries(names) + se)[i].val.kind == "None"
  {
    var es := NoneEntries(names) + se;
    KeysFromEntries(es);
    KeysAppend(NoneEntries(names), se);
    assert Keys(NoneEntries(names)) == names;
    assert forall j :: 0 <= j < |es| ==> es[j].val.kind == "None" by {
      forall j | 0 <= j < |es| ensures es[j].val.kind == "None" {
        if j >= |names| { assert es[j] == se[j - |names|]; }
      }
    }
    AssignedAll(es, (v: DnsSetting) => v.kind == "None");
  }

  /** An interface no section names keeps the default setting. */
  lemma DnsUnscoped(host: MacosHost, k: string)
    requires DnsConfig(host).Ok? && k in InterfaceNames(host.ifconfig)
    requires ScopedSections(host.dnsSettings).Ok?
    requires forall j :: 0 <= j < |Scoped(host)| ==> ScopeOf(Scoped(host)[j]).Ok? ==> ScopeOf(Scoped(host)[j]).value.interface != k
    ensures Lookup(DnsConfig(host).value, k) == Some(NoneSetting)
  {
    DnsConfigEntries(host);
    MapRowsOk(SectionEntry, Scoped(host));
    DefaultKept(InterfaceNames(host.ifconfig), ScopeEntries(Scoped(host)).value, k);
  }

  lemma DefaultKept(names: seq<string>, se: seq<Entry<DnsSetting>>, k: string)
    requires k in names && forall j :: 0 <= j < |se| ==> se[j].key != k
    ensures Lookup(FromEntries(NoneEntries(names) + se), k) == Some(NoneSetting)
  {
    var last := LastIndexOf(names, k).value;
    LastInFront(NoneEntries(names), se, last);
  }

  /** An interface a section names has the setting of the last such section. */
  lemma DnsScoped(host: MacosHost, j: nat)
    requires DnsConfig(host).Ok?
    requires ScopedSections(host.dnsSettings).Ok? && j < |Scoped(host)|
    ensures ScopeOf(Scoped(host)[j]).Ok?
    ensures var f := ScopeOf(Scoped(host)[j]).value;
      (forall j' :: j < j' < |Scoped(host)| && ScopeOf(Scoped(host)[j']).Ok? ==> ScopeOf(Scoped(host)[j']).value.interface != f.interface) ==>
      Lookup(DnsConfig(host).value, f.interface) == Some(ScopeSetting(f))
  {
    DnsConfigEntries(host);
    ScopedLast(InterfaceNames(host.ifconfig), Scoped(host), j);
  }

  lemma ScopedLast(names: seq<string>, sections: seq<string>, j: nat)
    requires ScopeEntries(sections).Ok? && j < |sections|
    ensures ScopeOf(sections[j]).Ok?
    ensures var f := ScopeOf(sections[j]).value;
      (forall j' :: j < j' < |sections| && ScopeOf(sections[j']).Ok? ==> ScopeOf(sections[j']).value.interface != f.interface) ==>
      Lookup(FromEntries(NoneEntries(names) + ScopeEntries(sections).value), f.interface) == Some(ScopeSetting(f))
  {
    MapRowsOk(SectionEntry, sections);
    var se := ScopeEntries(sections).value;
    var f := ScopeOf(sections[j]).value;
    assert SectionEntry(sections[j]) == Ok(se[j]);
    if forall j' :: j < j' < |sections| && ScopeOf(sections[j']).Ok? ==> ScopeOf(sections[j']).value.interface != f.interface {
      forall j' | j < j' < |se| ensures se[j'].key != se[j].key {
        assert SectionEntry(sections[j']) == Ok(se[j']);
      }
      LastInBack(NoneEntries(names), se, j);
    }
  }

  // ---------------------------------------------------------------------------
  // The text form of the DNS settings

  /** The interfaces with a DNS server, each as a paragraph. */
  function ConfiguredText(d: Dict<DnsSetting>): string {
    if d == [] then ""
    else
      var e := d[|d| - 1];
      ConfiguredText(d[..|d| - 1]) + (if e.val.dns == "" then "" else InterfaceText(e))
  }

  function InterfaceText(e: Entry<DnsSetting>): string {
    "Interface: " + e.key + " \n type: " + e.val.kind + " \n DNS: " + e.val.dns + " \n domain: " + e.val.suffix + "\n\n"
  }

  function OtherPick(e: Entry<DnsSetting>): Option<string> {
    if e.val.dns == "" then Some(e.key) else None
  }

  /** `other_interfaces`: the interfaces without a DNS server, in order. */
  function OtherInterfaces(d: Dict<DnsSetting>): seq<string> {
    Collect(OtherPick, d)
  }

  function Bullets(names: seq<string>): string {
    if names == [] then "" else Bullets(names[..|names| - 1]) + " " + names[|names| - 1] + "\n"
  }

  /** The text `get_dns_config` returns. */
  function DnsSummary(n: nat, d: Dict<DnsSetting>): string {
    "Number of interfaces: " + NatToString(n) + "\n" + ConfiguredText(d) + "\nOther interfaces:\n" + Bullets(OtherInterfaces(d))
  }

  /** An interface is listed among the others exactly when it has no server. */
  lemma OtherInterfacesSpec(d: Dict<DnsSetting>, k: string)
    ensures k in OtherInterfaces(d) <==> exists i :: 0 <= i < |d| && d[i].key == k && d[i].val.dns == ""
  {
    CollectMembers(OtherPick, d, k);
  }

  /** What `get_dns_config` returns. */
  datatype DnsReport = DnsText(text: string) | DnsMap(settings: Dict<DnsSetting>)

  /** The report, once the header has been found. */
  function DnsResult(host: MacosHost, asDictionary: bool): Result<DnsReport> {
    var d :- DnsConfig(host);
    Ok(if asDictionary then DnsMap(d) else DnsText(DnsSummary(|InterfaceNames(host.ifconfig)|, d)))
  }

  // ---------------------------------------------------------------------------
  // The supplicant file

  /** Every record the keychain gives is unlabelled, so the WPA section is
      empty and every network gets an open stanza, in mapping order. */
  lemma {:induction false} UnlabelledStanzas(d: Networks)
    requires forall i :: 0 <= i < |d| ==> d[i].val.auth == ""
    ensures Supplicant.WpaStanzas(Supplicant.Macos, d) == []
    ensures |Supplicant.OpenStanzas(d)| == |d|
    ensures forall i :: 0 <= i < |d| ==> Supplicant.OpenStanzas(d)[i] == Supplicant.OpenStanza(d[i].key)
  {
    if d != [] {
      var front, e := d[..|d| - 1], d[|d| - 1];
      assert forall i :: 0 <= i < |front| ==> front[i] == d[i];
      UnlabelledStanzas(front);
      assert e.val.auth == "";
      var os := Supplicant.OpenStanzas(front);
      assert Supplicant.OpenStanzas(d) == os + [Supplicant.OpenStanza(e.key)];
      forall i | 0 <= i < |d| ensures Supplicant.OpenStanzas(d)[i] == Supplicant.OpenStanza(d[i].key) {
        if i < |front| { assert Supplicant.OpenStanzas(d)[i] == os[i]; }
      }
    }
  }

  lemma PasswordsStanzas(host: MacosHost)
    requires Passwords(host).Ok?
    ensures Supplicant.WpaStanzas(Supplicant.Macos, Passwords(host).value) == []
    ensures |Supplicant.OpenStanzas(Passwords(host).value)| == |Passwords(host).value|
    ensures forall i :: 0 <= i < |Passwords(host).value| ==>
      Supplicant.OpenStanzas(Passwords(host).value)[i] == Supplicant.OpenStanza(Passwords(host).value[i].key)
  {
    UnlabelledStanzas(Passwords(host).value);
  }

  // ---------------------------------------------------------------------------
  // The collector

  class WifiPasswordsMacos {
    var data: Networks
    var numberOfProfiles: nat
    var numberVisibleNetworks: nat
    var numberOfInterfaces: nat

    constructor()
      ensures data == [] && numberOfProfiles == 0 && numberVisibleNetworks == 0 && numberOfInterfaces == 0
    {
      data := [];
      numberOfProfiles := 0;
      numberVisibleNetworks := 0;
      numberOfInterfaces := 0;
    }

    /** `get_passwords`: neither `data` nor the counter changes. */
    method GetPasswords(host: MacosHost) returns (r: Result<Networks>)
      ensures r == Passwords(host)
    {
      var ssids := ReadKeychain(host.keychainDump);
      if ssids.Err? { return Err(ssids.error); }
      var results := ReadPasswords(host, ssids.value);
      r := Ok(results);
    }

    /** The loop asking the keychain for each name's key. */
    method ReadPasswords(host: MacosHost, names: seq<string>) returns (results: Networks)
      ensures results == KeychainNetworks(host, names)
    {
      results := [];
      var i := 0;
      while i < |names|
        invariant 0 <= i <= |names|
        invariant results == KeychainNetworks(host, names[..i])
      {
        assert names[..i + 1][..i] == names[..i];
        var psk := Strip(host.findPassword(names[i]));
        results := Put(results, names[i], NetRecord("", psk, false, "Disabled"));
        i := i + 1;
      }
      assert names[..i] == names;
    }

    /** The nested loop over the AirPort items and their rows. */
    method ReadKeychain(dump: string) returns (r: Result<seq<string>>)
      ensures r == KnownSsids(dump)
    {
      r := ReadItems(AirportItems(dump));
    }

    /** The loop over the AirPort items. */
    method ReadItems(items: seq<string>) returns (r: Result<seq<string>>)
      ensures r == FoldRows(ItemStep, [], items)
    {
      var ssids: seq<string> := [];
      var i := 0;
      while i < |items|
        invariant 0 <= i <= |items|
        invariant FoldRows(ItemStep, [], items[..i]) == Ok(ssids)
      {
        FoldRowsNext(ItemStep, [], items, i, ssids);
        var next := ReadItem(ssids, items[i]);
        if next.Err? { FoldRowsStop(ItemStep, [], items, i, ssids); return Err(next.error); }
        ssids := next.value;
        i := i + 1;
      }
      FoldRowsDone(ItemStep, [], items, ssids);
      r := Ok(ssids);
    }

    method ReadItem(ssids0: seq<string>, item: string) returns (r: Result<seq<string>>)
      ensures r == ItemStep(ssids0, item)
    {
      r := ReadAcctRows(ssids0, Lines(item));
    }

    /** The loop over the rows of one item. */
    method ReadAcctRows(ssids0: seq<string>, rows: seq<string>) returns (r: Result<seq<string>>)
      ensures r == FoldRows(AcctStep, ssids0, rows)
    {
      var ssids := ssids0;
      var i := 0;
      while i < |rows|
        invariant 0 <= i <= |rows|
        invariant FoldRows(AcctStep, ssids0, rows[..i]) == Ok(ssids)
      {
        FoldRowsNext(AcctStep, ssids0, rows, i, ssids);
        var next := ReadAcctRow(ssids, rows[i]);
        if next.Err? { FoldRowsStop(AcctStep, ssids0, rows, i, ssids); return Err(next.error); }
        ssids := next.value;
        i := i + 1;
      }
      FoldRowsDone(AcctStep, ssids0, rows, ssids);
      r := Ok(ssids);
    }

    method ReadAcctRow(ssids: seq<string>, row: string) returns (r: Result<seq<string>>)
      ensures r == AcctStep(ssids, row)
    {
      if !Contains(row, AcctField) { return Ok(ssids); }
      var blob := Item(row, AcctField, 1);
      var ssid := DecodeBlob(blob.value);
      if ssid.Err? { return Err(ssid.error); }
      r := Ok(ssids + [ssid.value]);
    }

    /** `get_passwords_dummy`: the made-up mapping becomes `data`. */
    method GetPasswordsDummy(quantity: int, choices: Dummy.Choices) returns (r: Networks)
      modifies this
      ensures r == Dummy.DummyData(quantity, choices) && data == r && numberOfProfiles == |r|
      ensures numberVisibleNetworks == old(numberVisibleNetworks) && numberOfInterfaces == old(numberOfInterfaces)
    {
      r := Dummy.DummyData(quantity, choices);
      numberOfProfiles := |r|;
      data := r;
    }

    /** `get_passwords_data`. */
    method GetPasswordsData() returns (r: Networks)
      ensures r == data
    {
      r := data;
    }

    /** `get_dns_config`: a missing header raises before anything changes;
        otherwise the counter is the number of `ifconfig` interfaces, set
        before the sections are read, so it changes even when reading them raises. */
    method GetDnsConfig(host: MacosHost, asDictionary: bool) returns (r: Result<DnsReport>)
      modifies this
      ensures ScopedSections(host.dnsSettings).Err? ==>
        r == Err(ValueError) && numberOfInterfaces == old(numberOfInterfaces)
      ensures ScopedSections(host.dnsSettings).Ok? ==>
        r == DnsResult(host, asDictionary) && numberOfInterfaces == |InterfaceNames(host.ifconfig)|
      ensures data == old(data) && numberOfProfiles == old(numberOfProfiles) && numberVisibleNetworks == old(numberVisibleNetworks)
    {
      var scoped := ReadScopedHeader(host.dnsSettings);
      if scoped.Err? { return Err(scoped.error); }
      var names := InterfaceNames(host.ifconfig);
      numberOfInterfaces := |names|;
      var defaults := ReadDefaults(names);
      var d := ReadScopedSections(defaults, scoped.value);
      assert DnsConfig(host) == d;
      if d.Err? { return Err(d.error); }
      if asDictionary {
        r := Ok(DnsMap(d.value));
      } else {
        var text := RenderDns(numberOfInterfaces, d.value);
        r := Ok(DnsText(text));
      }
    }

    /** The search for the scoped header among the sections. */
    method ReadScopedHeader(settings: string) returns (r: Result<seq<string>>)
      ensures r == ScopedSections(settings)
    {
      var sections := DnsSections(settings);
      match IndexOf(sections, ScopedHeader) {
        case None => r := Err(ValueError);
        case Some(i) => r := Ok(sections[i + 1..]);
      }
    }

    /** The loop giving every interface the default setting. */
    method ReadDefaults(names: seq<string>) returns (d: Dict<DnsSetting>)
      ensures d == FromEntries(NoneEntries(names))
    {
      var es := NoneEntries(names);
      d := [];
      var i := 0;
      while i < |names|
        invariant 0 <= i <= |names|
        invariant d == FromEntries(es[..i])
      {
        FromEntriesNext(es, i);
        d := Put(d, names[i], NoneSetting);
        i := i + 1;
      }
      assert es[..i] == es;
    }

    /** The loop over the scoped sections. */
    method ReadScopedSections(d0: Dict<DnsSetting>, sections: seq<string>) returns (r: Result<Dict<DnsSetting>>)
      ensures r == FoldRows(ScopedStep, d0, sections)
    {
      var d := d0;
      var i := 0;
      while i < |sections|
        invariant 0 <= i <= |sections|
        invariant FoldRows(ScopedStep, d0, sections[..i]) == Ok(d)
      {
        FoldRowsNext(ScopedStep, d0, sections, i, d);
        var f := ReadScope(sections[i]);
        if f.Err? { FoldRowsStop(ScopedStep, d0, sections, i, d); return Err(f.error); }
        d := Put(d, f.value.interface, DnsSetting("None", f.value.dns, f.value.suffix));
        i := i + 1;
      }
      FoldRowsDone(ScopedStep, d0, sections, d);
      r := Ok(d);
    }

    /** The loop over one section's rows. */
    method ReadScope(section: string) returns (r: Result<Scope>)
      ensures r == ScopeOf(section)
    {
      r := ReadScopeRows(SectionRows(section));
    }

    /** The loop over the rows of one section. */
    method ReadScopeRows(rows: seq<Line>) returns (r: Result<Scope>)
      ensures r == FoldRows(ScopeStep, Scope("", "", ""), rows)
    {
      var f := Scope("", "", "");
      var i := 0;
      while i < |rows|
        invariant 0 <= i <= |rows|
        invariant FoldRows(ScopeStep, Scope("", "", ""), rows[..i]) == Ok(f)
      {
        FoldRowsNext(ScopeStep, Scope("", "", ""), rows, i, f);
        var next := ReadScopeRow(f, rows[i]);
        if next.Err? { FoldRowsStop(ScopeStep, Scope("", "", ""), rows, i, f); return Err(next.error); }
        f := next.value;
        i := i + 1;
      }
      FoldRowsDone(ScopeStep, Scope("", "", ""), rows, f);
      r := Ok(f);
    }

    method ReadScopeRow(f: Scope, row: Line) returns (r: Result<Scope>)
      ensures r == ScopeStep(f, row)
    {
      var suffix, name, dns := f.suffix, f.interface, f.dns;
      if Contains(row, "search domain") {
        var v := Item(row, ":", 1);
        if v.Err? { return Err(v.error); }
        suffix := Strip(v.value);
      }
      if Contains(row, "if_index") {
        var g := Patterns.ParenGroup(row);
        if g.Err? { return Err(g.error); }
        name := g.value;
      }
      if Contains(row, "nameserver") {
        var v := Item(row, ":", 1);
        if v.Err? { return Err(v.error); }
        dns := Strip(v.value);
      }
      r := Ok(Scope(name, dns, suffix));
    }

    /** The text form: the paragraphs loop, then the loop over the others. */
    method RenderDns(n: nat, d: Dict<DnsSetting>) returns (text: string)
      ensures text == DnsSummary(n, d)
    {
      var head := "Number of interfaces: " + NatToString(n) + "\n";
      var configured, others := RenderConfigured(d);
      var bullets := RenderBullets(others);
      text := head + configured + "\nOther interfaces:\n" + bullets;
    }

    /** The loop over the mapping: a paragraph for each interface with a
        server, the others' names set aside. */
    method RenderConfigured(d: Dict<DnsSetting>) returns (text: string, others: seq<string>)
      ensures text == ConfiguredText(d) && others == OtherInterfaces(d)
    {
      text := "";
      others := [];
      var i := 0;
      while i < |d|
        invariant 0 <= i <= |d|
        invariant text == ConfiguredText(d[..i])
        invariant others == Collect(OtherPick, d[..i])
      {
        assert d[..i + 1][..i] == d[..i];
        CollectStep(OtherPick, d, i);
        if d[i].val.dns == "" {
          others := others + [d[i].key];
        } else {
          text := text + InterfaceText(d[i]);
        }
        i := i + 1;
      }
      assert d[..i] == d;
    }

    method RenderBullets(names: seq<string>) returns (text: string)
      ensures text == Bullets(names)
    {
      text := "";
      var j := 0;
      while j < |names|
        invariant 0 <= j <= |names|
        invariant text == Bullets(names[..j])
      {
        assert names[..j + 1][..j] == names[..j];
        text := text + " " + names[j] + "\n";
        j := j + 1;
      }
      assert names[..j] == names;
    }

    /** `save_wpa_supplicant`: the lines written, from `data` when no mapping is given. */
    method SaveWpaSupplicant(given: Option<Networks>, includeOpen: bool, locale: string, h: Supplicant.Header)
      returns (lines: seq<string>)
      ensures lines == Supplicant.Rendered(Supplicant.Macos, if given.Some? then given.value else data, includeOpen, locale, h)
    {
      var d := if given.Some? then given.value else data;
      lines := Supplicant.WriteSupplicant(Supplicant.Macos, d, includeOpen, locale, h);
    }

    /** `get_number_interfaces`: refreshes the counter through the text form. */
    method GetNumberInterfaces(host: MacosHost) returns (r: Result<nat>)
      modifies this
      ensures ScopedSections(host.dnsSettings).Err? ==>
        r == Err(ValueError) && numberOfInterfaces == old(numberOfInterfaces)
      ensures ScopedSections(host.dnsSettings).Ok? ==>
        numberOfInterfaces == |InterfaceNames(host.ifconfig)| &&
        r == (match DnsConfig(host) case Err(e) => Err(e) case Ok(_) => Ok(numberOfInterfaces))
      ensures data == old(data) && numberOfProfiles == old(numberOfProfiles) && numberVisibleNetworks == old(numberVisibleNetworks)
    {
      var report := GetDnsConfig(host, false);
      if report.Err? { return Err(report.error); }
      r := Ok(numberOfInterfaces);
    }

    /** `get_number_profiles`: collecting the passwords never sets the
        counter, so it stays zero unless the dummy mapping set it. */
    method GetNumberProfiles(host: MacosHost) returns (r: Result<nat>)
      ensures numberOfProfiles != 0 ==> r == Ok(numberOfProfiles)
      ensures numberOfProfiles == 0 ==> r == (match Passwords(host) case Err(e) => Err(e) case Ok(_) => Ok(0))
    {
      if numberOfProfiles == 0 {
        var p := GetPasswords(host);
        if p.Err? { return Err(p.error); }
      }
      r := Ok(numberOfProfiles);
    }

    /** `get_currently_connected_ssids`. */
    method GetCurrentlyConnectedSsids(host: MacosHost) returns (r: Result<seq<string>>)
      ensures r == ConnectedSsids(host)
    {
      r := ScanFields(" SSID", ":", true, Lines(host.airportInfo));
    }

    /** `get_currently_connected_passwords`. */
    method GetCurrentlyConnectedPasswords(host: MacosHost) returns (r: Result<seq<(string, string)>>)
      ensures r == ConnectedPasswords(host)
    {
      var ssids := GetCurrentlyConnectedSsids(host);
      if ssids.Err? { return Err(ssids.error); }
      var pairs := ReadConnectedPairs(host, ssids.value);
      r := Ok(pairs);
    }

    /** The loop asking the keychain for each connected name's key. */
    method ReadConnectedPairs(host: MacosHost, names: seq<string>) returns (pairs: seq<(string, string)>)
      ensures pairs == ConnectedPairs(host, names)
    {
      pairs := [];
      var i := 0;
      while i < |names|
        invariant 0 <= i <= |names|
        invariant pairs == ConnectedPairs(host, names[..i])
      {
        assert names[..i + 1][..i] == names[..i];
        var psk := Strip(host.findPassword(names[i]));
        pairs := pairs + [(names[i], psk)];
        i := i + 1;
      }
      assert names[..i] == names;
    }

    /** `get_known_ssids`. */
    method GetKnownSsids(host: MacosHost) returns (r: Result<seq<string>>)
      ensures r == KnownSsids(host.keychainDump)
    {
      r := ReadKeychain(host.keychainDump);
    }

    /** `get_single_password`. */
    method GetSinglePassword(host: MacosHost, ssid: string) returns (r: Result<string>)
      ensures r == SinglePassword(host, ssid)
    {
      var err := Strip(host.findPasswordErr(ssid));
      if Contains(err, NotFound) { return Err(ValueError); }
      r := Ok(Strip(host.findPassword(ssid)));
    }
  }
}
