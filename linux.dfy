/** The Linux collector, `WifiPasswordsLinux`. NetworkManager is used when its
    configuration directory exists; otherwise the wpa_supplicant file when it
    exists. Every command's output is part of the `LinuxHost` it runs on. */
module Linux {
  import opened Py
  import opened PyDict
  import opened Records
  import opened LinuxNmcli
  import opened LinuxWpaFile
  import Supplicant
  import Dummy

  /** What the collector's commands and path probes see on one machine. */
  datatype LinuxHost = LinuxHost(
    nmConfigured: bool,                  // `/etc/NetworkManager/system-connections` exists
    wpaFilePresent: bool,                // `/etc/wpa_supplicant/wpa_supplicant.conf` is a file
    connections: string,                 // `nmcli -t -f NAME,TYPE c`
    details: string -> string,           // `nmcli -t -f <four fields> c s <name> --show-secrets`
    connectionPsk: string -> string,     // `nmcli -t -f 802-11-wireless-security.psk c s <ssid> --show-secrets`
    connectionPskAndId: string -> string,// `nmcli -t -f 802-11-wireless-security.psk,connection.id c s <ssid> --show-secrets`
    wpaFile: string,                     // `sudo cat` of the wpa_supplicant file
    wifiList: string,                    // `nmcli -t -f SSID,CHAN,RATE,SIGNAL,SECURITY dev wifi`
    devices: string,                     // `nmcli -t -f DEVICE,CONNECTION dev`
    deviceDns: string -> string,         // `nmcli -t -f IP4.DNS,IP4.DOMAIN device show <device>`
    connectionDns: string -> string,     // `nmcli -t -f ipv4.dns,ipv4.ignore-auto-dns c s <connection>`
    deviceStatus: string,                // `nmcli -t d`
    iwgetid: string)                     // `iwgetid -r`

  // ---------------------------------------------------------------------------
  // get_passwords and get_known_ssids

  /** The `networks` comprehension: each wireless profile name once, in listing order. */
  function ProfileKeys(host: LinuxHost): seq<string> {
    Keys(NamedTemplates(ProfileNames(host.connections), Template))
  }

  /** What `get_passwords` returns on this host. */
  function Passwords(host: LinuxHost): (r: Result<Networks>)
    ensures r.Err? ==> r.error == IndexError
    ensures r.Ok? ==> WellFormed(r.value)
    ensures !host.nmConfigured && r.Ok? ==>
      forall i :: 0 <= i < |r.value| ==> !r.value[i].val.metered && r.value[i].val.macrandom == "Disabled"
  {
    if host.nmConfigured then
      NmcliNetworksSpec(ProfileKeys(host), host.details);
      NmcliNetworks(ProfileKeys(host), host.details)
    else if host.wpaFilePresent then
      FileNetworksSpec(host.wpaFile);
      FileNetworks(host.wpaFile)
    else Ok([])
  }

  /** What `get_known_ssids` returns on this host. */
  function KnownSsids(host: LinuxHost): Result<seq<string>> {
    if host.nmConfigured then Ok(ProfileNames(host.connections))
    else if host.wpaFilePresent then FileSsids(host.wpaFile)
    else Ok([])
  }

  /** The passwords are keyed by the known names, each once, in first-seen order;
      with NetworkManager each profile's record comes from its own detail rows. */
  lemma PasswordsMatchKnown(host: LinuxHost)
    requires Passwords(host).Ok?
    ensures KnownSsids(host).Ok?
    ensures Keys(Passwords(host).value) == Dedup(KnownSsids(host).value)
    ensures host.nmConfigured ==> forall i :: 0 <= i < |Passwords(host).value| ==>
      DetailsRecord(host.details(Passwords(host).value[i].key)) == Ok(Passwords(host).value[i].val)
  {
    if host.nmConfigured {
      NmcliNetworksSpec(ProfileKeys(host), host.details);
    } else if host.wpaFilePresent {
      KnownMatchesPasswords(FileBlocks(host.wpaFile));
    }
  }

  /** With neither NetworkManager nor the wpa_supplicant file nothing is found. */
  lemma NoSourceNoPasswords(host: LinuxHost)
    requires !host.nmConfigured && !host.wpaFilePresent
    ensures Passwords(host) == Ok([]) && KnownSsids(host) == Ok([])
  {
  }

  // ---------------------------------------------------------------------------
  // get_visible_networks

  /** One visible network as the dictionary form reports it. */
  datatype VisibleNet = VisibleNet(auth: string, channel: string, signal: string, rates: string)

  /** The fields of a row with at least five of them; a row with fewer raises
      inside the `try` and is skipped. An empty name is reported as `Hidden`. */
  function VisibleFields(row: string): Option<seq<string>> {
    var parts := Split(row, ":");
    if |parts| >= 5 then Some([if parts[0] == "" then "Hidden" else parts[0]] + parts[1..]) else None
  }

  function VisibleName(row: string): Option<string> {
    match VisibleFields(row)
    case None => None
    case Some(f) => Some(f[0])
  }

  function VisibleLine(row: string): Option<string> {
    match VisibleFields(row)
    case None => None
    case Some(f) =>
      Some(f[0] + " \n Channel: " + f[1] + " \n Rate: " + f[2] + " \n Signal: " + f[3] + "% \n Security: " + f[4] + " \n")
  }

  function VisibleDict(rows: seq<string>): Dict<VisibleNet> {
    if rows == [] then []
    else
      var d := VisibleDict(rows[..|rows| - 1]);
      match VisibleFields(rows[|rows| - 1])
      case None => d
      case Some(f) => Put(d, f[0], VisibleNet(f[4], f[1], f[3], f[2]))
  }

  /** The two forms `get_visible_networks` returns. */
  datatype VisibleReport = VisibleText(text: string) | VisibleMap(networks: Dict<VisibleNet>)

  function VisibleSummary(lines: seq<string>): string {
    "There are " + NatToString(|lines|) + " networks visible." + "\n ----- \n" + Join(lines, "\n")
  }

  /** The dictionary holds each readable row's name once; so its size is at most
      the number of readable rows, which is the text form's count. */
  lemma {:induction false} VisibleDictKeys(rows: seq<string>)
    ensures Keys(VisibleDict(rows)) == Dedup(Collect(VisibleName, rows))
    ensures |Collect(VisibleLine, rows)| == |Collect(VisibleName, rows)|
  {
    if rows != [] {
      var front, row := rows[..|rows| - 1], rows[|rows| - 1];
      VisibleDictKeys(front);
      var names := Collect(VisibleName, front);
      match VisibleFields(row)
      case None =>
        assert Collect(VisibleName, rows) == names;
      case Some(f) =>
        assert Collect(VisibleName, rows) == names + [f[0]];
        assert (names + [f[0]])[..|names|] == names;
    }
  }

  // ---------------------------------------------------------------------------
  // get_dns_config

  /** One interface's entry: `{'type': …, 'DNS': […], 'suffix': …}`. */
  datatype DnsEntry = DnsEntry(kind: string, dns: seq<string>, suffix: string)

  /** A device row: the search domain and the DNS server list. */
  function DomainStep(acc: (string, seq<string>), row: string): (r: Result<(string, seq<string>)>)
    ensures r.Err? ==> r.error == IndexError
  {
    var suffix :- if Contains(row, "IP4.DOMAIN") then Item(row, ":", 1) else Ok(acc.0);
    var dns :-
      if Contains(row, "IP4.DNS") then
        var v :- Item(row, ":", 1);
        Ok(Split(v, ","))
      else Ok(acc.1);
    Ok((suffix, dns))
  }

  /** A connection row: `ignore-auto-dns` `yes` makes it `Static`; `no`, when DNS
      servers were listed, makes it `DHCP`. */
  function KindStep(hasDns: bool): (string, string) -> Result<string> {
    (kind: string, row: string) =>
      if Contains(row, "ipv4.ignore-auto-dns") then
        var v :- Item(row, ":", 1);
        Ok(if v == "yes" then "Static" else if v == "no" && hasDns then "DHCP" else kind)
      else Ok(kind)
  }

  function DeviceDns(host: LinuxHost, device: string): Result<(string, seq<string>)> {
    FoldRows(DomainStep, ("", []), Lines(host.deviceDns(device)))
  }

  function ConnectionKind(host: LinuxHost, connection: string, hasDns: bool): Result<string> {
    FoldRows(KindStep(hasDns), "None", Lines(host.connectionDns(connection)))
  }

  /** What a `DEVICE:CONNECTION` row assigns: with exactly two fields, its
      device's type, servers and search domain; any other row assigns nothing. */
  function InterfaceEntry(host: LinuxHost): string -> Result<Option<Entry<DnsEntry>>> {
    (row: string) =>
      var parts := Split(row, ":");
      if |parts| == 2 then
        var sd :- DeviceDns(host, parts[0]);
        var kind :- ConnectionKind(host, parts[1], |sd.1| != 0);
        Ok(Some(Entry(parts[0], DnsEntry(kind, sd.1, sd.0))))
      else Ok(None)
  }

  /** A `DEVICE:CONNECTION` row with exactly two fields adds its device. */
  function InterfaceStep(host: LinuxHost): (Dict<DnsEntry>, string) -> Result<Dict<DnsEntry>> {
    (d: Dict<DnsEntry>, row: string) => PutRead(d, InterfaceEntry(host)(row))
  }

  /** The dictionary `get_dns_config` builds (`{}` without NetworkManager). */
  function DnsConfig(host: LinuxHost): (r: Result<Dict<DnsEntry>>)
    ensures r.Err? ==> r.error == IndexError
    ensures r.Ok? ==> WellFormed(r.value)
    ensures !host.nmConfigured ==> r == Ok([])
  {
    if host.nmConfigured then
      InterfaceStepIndexError(host);
      FoldRowsOnly(InterfaceStep(host), [], Lines(host.devices), IndexError);
      assert forall d, row :: WellFormed(d) && InterfaceStep(host)(d, row).Ok? ==> WellFormed(InterfaceStep(host)(d, row).value) by {
        forall d, row | WellFormed(d) && InterfaceStep(host)(d, row).Ok? ensures WellFormed(InterfaceStep(host)(d, row).value) {
          assert InterfaceStep(host)(d, row) == PutRead(d, InterfaceEntry(host)(row));
        }
      }
      FoldRowsKeeps(InterfaceStep(host), WellFormed, [], Lines(host.devices));
      FoldRows(InterfaceStep(host), [], Lines(host.devices))
    else Ok([])
  }

  /** A device row raises nothing but `IndexError`. */
  lemma InterfaceStepIndexError(host: LinuxHost)
    ensures forall d, row :: InterfaceStep(host)(d, row).Err? ==> InterfaceStep(host)(d, row).error == IndexError
  {
    forall d, row ensures InterfaceStep(host)(d, row).Err? ==> InterfaceStep(host)(d, row).error == IndexError {
      var parts := Split(row, ":");
      assert InterfaceStep(host)(d, row) == PutRead(d, InterfaceEntry(host)(row));
      if |parts| == 2 {
        FoldRowsOnly(DomainStep, ("", []), Lines(host.deviceDns(parts[0])), IndexError);
        forall hasDns: bool, kind, r ensures KindStep(hasDns)(kind, r).Err? ==> KindStep(hasDns)(kind, r).error == IndexError {
        }
        FoldRowsOnly(KindStep(true), "None", Lines(host.connectionDns(parts[1])), IndexError);
        FoldRowsOnly(KindStep(false), "None", Lines(host.connectionDns(parts[1])), IndexError);
      }
    }
  }

  /** The device a row with exactly two fields names. */
  function TwoFieldDevice(row: string): Option<string> {
    var parts := Split(row, ":");
    if |parts| == 2 then Some(parts[0]) else None
  }

  /** A row that reads assigns the device `TwoFieldDevice` names, if any. */
  lemma InterfaceEntryKey(host: LinuxHost, row: string)
    ensures InterfaceEntry(host)(row).Ok? ==>
      TwoFieldDevice(row) == match InterfaceEntry(host)(row).value case None => None case Some(e) => Some(e.key)
  {
  }

  /** With NetworkManager the dictionary is built from the rows' entries in
      order; its keys are the devices of the two-field rows, without repeats,
      in first-seen order. */
  lemma DnsConfigEntries(host: LinuxHost)
    requires host.nmConfigured
    ensures DnsConfig(host) ==
      match EntriesOf(InterfaceEntry(host), Lines(host.devices))
      case Err(e) => Err(e)
      case Ok(es) => Ok(FromEntries(es))
    ensures DnsConfig(host).Ok? ==> Keys(DnsConfig(host).value) == Dedup(Collect(TwoFieldDevice, Lines(host.devices)))
  {
    var rows := Lines(host.devices);
    assert DnsConfig(host) == FoldRows(InterfaceStep(host), [], rows);
    assert forall d, x :: InterfaceStep(host)(d, x) == PutRead(d, InterfaceEntry(host)(x));
    FoldPutEntries(InterfaceStep(host), InterfaceEntry(host), rows);
    var es := EntriesOf(InterfaceEntry(host), rows);
    if es.Ok? {
      forall j | 0 <= j < |rows| && InterfaceEntry(host)(rows[j]).Ok?
        ensures TwoFieldDevice(rows[j]) == match InterfaceEntry(host)(rows[j]).value case None => None case Some(e) => Some(e.key)
      {
        InterfaceEntryKey(host, rows[j]);
      }
      EntriesOfKeys(InterfaceEntry(host), TwoFieldDevice, rows);
      KeysFromEntries(es.value);
    }
  }

  /** A device holds the entry of the last two-field row naming it: the
      connection's type, and the servers and search domain its device rows give. */
  lemma DnsConfigLast(host: LinuxHost, i: nat)
    requires host.nmConfigured && DnsConfig(host).Ok? && i < |Lines(host.devices)|
    requires TwoFieldDevice(Lines(host.devices)[i]).Some?
    requires forall j :: i < j < |Lines(host.devices)| ==>
      TwoFieldDevice(Lines(host.devices)[j]) != TwoFieldDevice(Lines(host.devices)[i])
    ensures var parts := Split(Lines(host.devices)[i], ":");
      var sd := DeviceDns(host, parts[0]);
      sd.Ok? &&
      var kind := ConnectionKind(host, parts[1], |sd.value.1| != 0);
      kind.Ok? &&
      Lookup(DnsConfig(host).value, parts[0]) == Some(DnsEntry(kind.value, sd.value.1, sd.value.0))
  {
    var rows := Lines(host.devices);
    var read := InterfaceEntry(host);
    DnsConfigEntries(host);
    var es := EntriesOf(read, rows);
    assert es.Ok?;
    EntriesOfErr(read, rows);
    var parts := Split(rows[i], ":");
    assert |parts| == 2;
    assert read(rows[i]).Ok?;
    var sd := DeviceDns(host, parts[0]);
    assert sd.Ok?;
    var kind := ConnectionKind(host, parts[1], |sd.value.1| != 0);
    assert kind.Ok?;
    var v := DnsEntry(kind.value, sd.value.1, sd.value.0);
    assert read(rows[i]) == Ok(Some(Entry(parts[0], v)));
    forall j | i < j < |rows| ensures !Assigns(read(rows[j]), parts[0]) {
      InterfaceEntryKey(host, rows[j]);
    }
    EntriesOfLast(read, rows, i, parts[0], v);
  }

  /** A connection row that decides the type. */
  predicate Decisive(row: string, hasDns: bool) {
    Contains(row, "ipv4.ignore-auto-dns") &&
    (SecondOr(row, ":", "") == "yes" || (SecondOr(row, ":", "") == "no" && hasDns))
  }

  predicate LastDecisive(rows: seq<string>, i: nat, hasDns: bool) {
    forall j :: i < j < |rows| ==> !Decisive(rows[j], hasDns)
  }

  function KindOf(row: string): string {
    if SecondOr(row, ":", "") == "yes" then "Static" else "DHCP"
  }

  /** One connection row raises exactly when it names `ignore-auto-dns` without
      a `:`; otherwise a deciding row sets the type and any other keeps it. */
  lemma KindStepSpec(hasDns: bool, kind: string, row: string)
    ensures KindStep(hasDns)(kind, row).Err? <==> Contains(row, "ipv4.ignore-auto-dns") && !Contains(row, ":")
    ensures KindStep(hasDns)(kind, row).Ok? ==>
      KindStep(hasDns)(kind, row).value == if Decisive(row, hasDns) then KindOf(row) else kind
  {
    if Contains(row, ":") { SecondOrOk(row, ":"); } else { SecondOrErr(row, ":"); }
  }

  /** The type a connection row decides, if it decides one. */
  function KindPick(hasDns: bool): string -> Option<string> {
    (row: string) => if Decisive(row, hasDns) then Some(KindOf(row)) else None
  }

  /** The type is that of the last deciding row: `Static` for `yes`, `DHCP`
      for `no`; `None` exactly when no row decides it. */
  lemma KindFold(rows: seq<string>, hasDns: bool)
    requires FoldRows(KindStep(hasDns), "None", rows).Ok?
    ensures var k := FoldRows(KindStep(hasDns), "None", rows).value;
      k == (match LastFound(KindPick(hasDns), rows) case None => "None" case Some(i) => KindOf(rows[i])) &&
      (k == "None" <==> forall i :: 0 <= i < |rows| ==> !Decisive(rows[i], hasDns))
  {
    forall s, row ensures KindStep(hasDns)(s, row).Ok? ==>
      KindStep(hasDns)(s, row).value == (match KindPick(hasDns)(row) case Some(v) => v case None => s)
    {
      KindStepSpec(hasDns, s, row);
    }
    LastFoundFold(KindStep(hasDns), KindPick(hasDns), "None", rows);
    var found := LastFound(KindPick(hasDns), rows);
    if found.None? {
      assert forall i :: 0 <= i < |rows| ==> KindPick(hasDns)(rows[i]).None?;
    }
  }

  /** The suffix is the last domain row's value (`''` without one); the server
      list is the last DNS row's value split at commas, and it is non-empty
      exactly when some row names `IP4.DNS`, even when that value is empty. */
  lemma {:induction false} DomainFold(rows: seq<string>)
    requires FoldRows(DomainStep, ("", []), rows).Ok?
    ensures var sd := FoldRows(DomainStep, ("", []), rows).value;
      sd.0 == LastValue(rows, "IP4.DOMAIN", "") &&
      sd.1 == (match LastMatch(rows, "IP4.DNS") case None => [] case Some(i) => Split(SecondOr(rows[i], ":", ""), ",")) &&
      (|sd.1| != 0 <==> exists i :: 0 <= i < |rows| && Contains(rows[i], "IP4.DNS"))
  {
    if rows != [] {
      var front, row := rows[..|rows| - 1], rows[|rows| - 1];
      assert rows == front + [row];
      DomainFold(front);
      assert forall i :: 0 <= i < |front| ==> front[i] == rows[i];
      LastValueSnoc(front, row, "IP4.DOMAIN", "");
      LastMatchSnoc(front, row, "IP4.DNS");
      SecondItem(row, ":");
      if Contains(row, ":") { SecondOrOk(row, ":"); }
    }
  }

  // ---------------------------------------------------------------------------
  // get_currently_connected_ssids and get_currently_connected_passwords

  /** A `DEVICE:TYPE:STATE:CONNECTION` row of a connected wifi device gives its
      connection; a row missing one of those fields raises inside the `try`
      and is skipped. */
  function ConnectedField(row: string): Option<string> {
    var parts := Split(row, ":");
    if |parts| >= 4 && parts[1] == "wifi" && parts[2] == "connected" then Some(parts[3]) else None
  }

  function NonEmptyLine(row: string): Option<string> {
    if row != "" then Some(row) else None
  }

  /** What `get_currently_connected_ssids` returns on this host. */
  function ConnectedSsids(host: LinuxHost): seq<string> {
    if host.nmConfigured then Collect(ConnectedField, Lines(host.deviceStatus))
    else Collect(NonEmptyLine, Lines(host.iwgetid))
  }

  /** A name is reported connected exactly when a connected wifi row carries it
      (NetworkManager) or it is a non-empty line of `iwgetid -r` (otherwise). */
  lemma ConnectedSsidsMembers(host: LinuxHost, s: string)
    ensures host.nmConfigured ==> (s in ConnectedSsids(host) <==>
      exists i :: 0 <= i < |Lines(host.deviceStatus)| && ConnectedField(Lines(host.deviceStatus)[i]) == Some(s))
    ensures !host.nmConfigured ==> (s in ConnectedSsids(host) <==>
      s != "" && s in Lines(host.iwgetid))
  {
    if host.nmConfigured {
      ConnectedRowsMembers(Lines(host.deviceStatus), s);
    } else {
      NonEmptyMembers(Lines(host.iwgetid), s);
    }
  }

  lemma ConnectedRowsMembers(rows: seq<string>, s: string)
    ensures s in Collect(ConnectedField, rows) <==> exists i :: 0 <= i < |rows| && ConnectedField(rows[i]) == Some(s)
  {
    CollectMembers(ConnectedField, rows, s);
  }

  lemma NonEmptyMembers(rows: seq<string>, s: string)
    ensures s in Collect(NonEmptyLine, rows) <==> s != "" && s in rows
  {
    CollectMembers(NonEmptyLine, rows, s);
    if s in rows { var i :| 0 <= i < |rows| && rows[i] == s; assert NonEmptyLine(rows[i]) == if s != "" then Some(s) else None; }
  }

  /** A connected name whose key lookup prints something is paired with its key. */
  function NmPairStep(host: LinuxHost): (seq<(string, string)>, string) -> Result<seq<(string, string)>> {
    (acc: seq<(string, string)>, ssid: string) =>
      var out := host.connectionPsk(ssid);
      if out == "" then Ok(acc)
      else
        var psk :- FoldRows(PskStep, "", Lines(out));
        Ok(acc + [(ssid, psk)])
  }

  /** The blocks that mention a connected name. */
  function MatchedBlocks(blocks: seq<string>, ssids: seq<string>): (r: seq<string>)
    ensures forall b :: b in r <==> b in blocks && exists s :: s in ssids && Contains(b, s)
  {
    if blocks == [] then []
    else
      var b := blocks[|blocks| - 1];
      MatchedBlocks(blocks[..|blocks| - 1], ssids) + (if exists s :: s in ssids && Contains(b, s) then [b] else [])
  }

  function PairOfBlock(acc: seq<(string, string)>, block: string): Result<seq<(string, string)>> {
    var p :- BlockPair(block);
    Ok(acc + [p])
  }

  /** What `get_currently_connected_passwords` returns on this host. */
  function ConnectedPasswords(host: LinuxHost): (r: Result<seq<(string, string)>>)
    ensures r.Err? ==> r.error == IndexError
  {
    var ssids := ConnectedSsids(host);
    if host.nmConfigured then
      NmPairsFold(host, ssids);
      FoldRows(NmPairStep(host), [], ssids)
    else if host.wpaFilePresent then
      WpaPairsFold(MatchedBlocks(LookupBlocks(host.wpaFile), ssids));
      FoldRows(PairOfBlock, [], MatchedBlocks(LookupBlocks(host.wpaFile), ssids))
    else Ok([])
  }

  predicate KeyedPair(host: LinuxHost, ssids: seq<string>, p: (string, string)) {
    p.0 in ssids && host.connectionPsk(p.0) != "" &&
    p.1 == LastValue(Lines(host.connectionPsk(p.0)), PskField, "")
  }

  /** The pairs NetworkManager gives for the connected names, in order: each name
      whose key lookup prints something, with the value of its last psk row. */
  function NmPairs(host: LinuxHost, ssids: seq<string>): (r: seq<(string, string)>)
    ensures |r| <= |ssids|
    ensures forall k :: 0 <= k < |r| ==> KeyedPair(host, ssids, r[k])
  {
    if ssids == [] then []
    else
      var front, ssid := ssids[..|ssids| - 1], ssids[|ssids| - 1];
      var out := host.connectionPsk(ssid);
      NmPairs(host, front) + (if out == "" then [] else [(ssid, LastValue(Lines(out), PskField, ""))])
  }

  /** Every connected name whose lookup prints something is paired with its key. */
  lemma {:induction false} NmPairsCover(host: LinuxHost, ssids: seq<string>, ssid: string)
    requires ssid in ssids && host.connectionPsk(ssid) != ""
    ensures (ssid, LastValue(Lines(host.connectionPsk(ssid)), PskField, "")) in NmPairs(host, ssids)
  {
    var front := ssids[..|ssids| - 1];
    if ssids[|ssids| - 1] != ssid {
      assert ssids == front + [ssids[|ssids| - 1]];
      NmPairsCover(host, front, ssid);
    }
  }

  /** The key output of a name holds a psk row without the `:` that
      `row.split(':')[1]` needs. */
  predicate PskUnreadable(host: LinuxHost, ssid: string) {
    var rows := Lines(host.connectionPsk(ssid));
    host.connectionPsk(ssid) != "" &&
    exists i :: 0 <= i < |rows| && Contains(rows[i], PskField) && !Contains(rows[i], ":")
  }

  /** With NetworkManager the loop raises `IndexError` exactly when the key output
      of some connected name is unreadable, and otherwise gives `NmPairs`. */
  lemma NmPairsFold(host: LinuxHost, ssids: seq<string>)
    ensures FoldRows(NmPairStep(host), [], ssids).Err? <==>
      exists i :: 0 <= i < |ssids| && PskUnreadable(host, ssids[i])
    ensures FoldRows(NmPairStep(host), [], ssids).Err? ==>
      FoldRows(NmPairStep(host), [], ssids).error == IndexError
    ensures FoldRows(NmPairStep(host), [], ssids).Ok? ==>
      FoldRows(NmPairStep(host), [], ssids).value == NmPairs(host, ssids)
  {
    forall acc, ssid ensures NmPairStep(host)(acc, ssid).Err? <==> PskUnreadable(host, ssid)
      ensures NmPairStep(host)(acc, ssid).Err? ==> NmPairStep(host)(acc, ssid).error == IndexError
    {
      PskFold(Lines(host.connectionPsk(ssid)));
    }
    FoldRowsFails(NmPairStep(host), ssid => PskUnreadable(host, ssid), [], ssids);
    FoldRowsOnly(NmPairStep(host), [], ssids, IndexError);
    if FoldRows(NmPairStep(host), [], ssids).Ok? { NmPairsValue(host, ssids); }
  }

  lemma {:induction false} NmPairsValue(host: LinuxHost, ssids: seq<string>)
    requires FoldRows(NmPairStep(host), [], ssids).Ok?
    ensures FoldRows(NmPairStep(host), [], ssids).value == NmPairs(host, ssids)
  {
    if ssids != [] {
      var front, ssid := ssids[..|ssids| - 1], ssids[|ssids| - 1];
      NmPairsValue(host, front);
      var acc := FoldRows(NmPairStep(host), [], front).value;
      assert FoldRows(NmPairStep(host), [], ssids) == NmPairStep(host)(acc, ssid);
      PskFold(Lines(host.connectionPsk(ssid)));
    }
  }

  /** The file loop reads every matched block into its pair, in order. */
  lemma {:induction false} WpaPairsMap(blocks: seq<string>)
    ensures FoldRows(PairOfBlock, [], blocks) == MapRows(BlockPair, blocks)
  {
    if blocks != [] {
      WpaPairsMap(blocks[..|blocks| - 1]);
    }
  }

  /** A block's words hold one that names the SSID or key without its `=`. */
  predicate BlockBroken(block: string) {
    var words := BlockWords(block);
    exists i :: 0 <= i < |words| && BrokenWord(words[i])
  }

  /** The last quoted `ssid` and `psk` values among a block's words, `''` when not named. */
  function QuotedPair(block: string): (string, string) {
    (LastQuoted(BlockWords(block), "ssid", "ssid=", ""), LastQuoted(BlockWords(block), "psk", "psk=", ""))
  }

  /** Without NetworkManager the loop raises `IndexError` exactly when a matched
      block is broken; otherwise it gives one pair per block, in order, holding the
      block's `QuotedPair`. */
  lemma WpaPairsFold(blocks: seq<string>)
    ensures FoldRows(PairOfBlock, [], blocks).Err? <==> exists k :: 0 <= k < |blocks| && BlockBroken(blocks[k])
    ensures FoldRows(PairOfBlock, [], blocks).Err? ==> FoldRows(PairOfBlock, [], blocks).error == IndexError
    ensures FoldRows(PairOfBlock, [], blocks).Ok? ==>
      var ps := FoldRows(PairOfBlock, [], blocks).value;
      |ps| == |blocks| &&
      forall k :: 0 <= k < |blocks| ==> ps[k] == QuotedPair(blocks[k])
  {
    WpaPairsMap(blocks);
    forall k | 0 <= k < |blocks| ensures BlockPair(blocks[k]).Err? <==> BlockBroken(blocks[k]) {
      BlockPairFields(BlockWords(blocks[k]));
    }
    MapRowsErr(BlockPair, blocks);
    forall acc, block ensures PairOfBlock(acc, block).Err? ==> PairOfBlock(acc, block).error == IndexError {
      BlockPairFields(BlockWords(block));
    }
    FoldRowsOnly(PairOfBlock, [], blocks, IndexError);
    if FoldRows(PairOfBlock, [], blocks).Ok? {
      MapRowsOk(BlockPair, blocks);
      forall k | 0 <= k < |blocks|
        ensures FoldRows(PairOfBlock, [], blocks).value[k] == QuotedPair(blocks[k])
      {
        BlockPairFields(BlockWords(blocks[k]));
      }
    }
  }

  /** `get_currently_connected_passwords` with NetworkManager: the `NmPairs` of the
      connected names, or an exception exactly when a key output is unreadable. */
  lemma ConnectedPasswordsNm(host: LinuxHost)
    requires host.nmConfigured
    ensures var ssids, r := ConnectedSsids(host), ConnectedPasswords(host);
      (r.Err? <==> exists i :: 0 <= i < |ssids| && PskUnreadable(host, ssids[i])) &&
      (r.Ok? ==> r.value == NmPairs(host, ssids))
  {
    NmPairsFold(host, ConnectedSsids(host));
  }

  /** Without NetworkManager: with the file, one `QuotedPair` per block that
      mentions a connected name, in file order, or an exception exactly when such a
      block is broken; with neither, `[]`. */
  lemma ConnectedPasswordsFile(host: LinuxHost)
    requires !host.nmConfigured
    ensures var bs, r := MatchedBlocks(LookupBlocks(host.wpaFile), ConnectedSsids(host)), ConnectedPasswords(host);
      if host.wpaFilePresent then
        (r.Err? <==> exists k :: 0 <= k < |bs| && BlockBroken(bs[k])) &&
        (r.Ok? ==> |r.value| == |bs| && forall k :: 0 <= k < |bs| ==> r.value[k] == QuotedPair(bs[k]))
      else r == Ok([])
  {
    var bs := MatchedBlocks(LookupBlocks(host.wpaFile), ConnectedSsids(host));
    if host.wpaFilePresent {
      assert ConnectedPasswords(host) == FoldRows(PairOfBlock, [], bs);
      WpaPairsFold(bs);
    }
  }

  // ---------------------------------------------------------------------------
  // get_single_password

  /** One block: a block containing the name sets `found` and runs the key
      variable on through its words; any other block changes nothing. */
  function BlockLookupStep(ssid: string): ((bool, string), string) -> Result<(bool, string)> {
    (acc: (bool, string), block: string) =>
      if Contains(block, ssid) then
        var psk :- FoldRows(QuotedStep("psk"), acc.1, BlockWords(block));
        Ok((true, psk))
      else Ok(acc)
  }

  /** What `get_single_password(ssid)` returns on this host. */
  function SinglePassword(host: LinuxHost, ssid: string): (r: Result<string>)
    ensures r.Err? ==> r.error == ValueError || r.error == IndexError
  {
    if host.nmConfigured then
      var out := host.connectionPskAndId(ssid);
      if out == "" then Err(ValueError)
      else
        PskFold(Lines(out));
        FoldRows(PskStep, "", Lines(out))
    else if host.wpaFilePresent then
      BlockLookupIndexError(ssid, LookupBlocks(host.wpaFile));
      WpaSinglePassword(host.wpaFile, ssid)
    else Err(ValueError)
  }

  /** The block-by-block search raises nothing but `IndexError`. */
  lemma BlockLookupIndexError(ssid: string, blocks: seq<string>)
    ensures FoldRows(BlockLookupStep(ssid), (false, ""), blocks).Err? ==>
      FoldRows(BlockLookupStep(ssid), (false, ""), blocks).error == IndexError
  {
    forall acc, block ensures BlockLookupStep(ssid)(acc, block).Err? ==> BlockLookupStep(ssid)(acc, block).error == IndexError {
      forall p, w ensures QuotedStep("psk")(p, w).Err? ==> QuotedStep("psk")(p, w).error == IndexError {
        QuotedStepSpec("psk", p, w);
      }
      FoldRowsOnly(QuotedStep("psk"), acc.1, BlockWords(block), IndexError);
    }
    FoldRowsOnly(BlockLookupStep(ssid), (false, ""), blocks, IndexError);
  }

  /** The wpa_supplicant branch. */
  function WpaSinglePassword(file: string, ssid: string): Result<string> {
    var acc :- FoldRows(BlockLookupStep(ssid), (false, ""), LookupBlocks(file));
    if acc.0 then Ok(acc.1) else Err(ValueError)
  }

  /** The key words of a block that contains the name; none for another block. */
  function NameWords(ssid: string): string -> seq<string> {
    (b: string) => if Contains(b, ssid) then BlockWords(b) else []
  }

  /** The key words of the blocks that contain the name, in file order. */
  function BlocksWithName(blocks: seq<string>, ssid: string): seq<string> {
    Flatten(NameWords(ssid), blocks)
  }

  /** Reading block by block is reading the words of all the blocks that
      contain the name as one list: the key is its last `psk` word's, and
      `found` says whether some block contains the name. */
  lemma {:induction false} LookupMatchesFlattened(blocks: seq<string>, ssid: string)
    ensures match FoldRows(BlockLookupStep(ssid), (false, ""), blocks)
      case Err(e) =>
        (FoldRows(QuotedStep("psk"), "", BlocksWithName(blocks, ssid)) == Err(e) &&
         exists i :: 0 <= i < |blocks| && Contains(blocks[i], ssid))
      case Ok(acc) =>
        (FoldRows(QuotedStep("psk"), "", BlocksWithName(blocks, ssid)) == Ok(acc.1) &&
         (acc.0 <==> exists i :: 0 <= i < |blocks| && Contains(blocks[i], ssid)))
  {
    if blocks != [] {
      LookupMatchesFlattened(blocks[..|blocks| - 1], ssid);
      LookupFlattenedSnoc(blocks, ssid);
    }
  }

  predicate LookupAgrees(blocks: seq<string>, ssid: string) {
    match FoldRows(BlockLookupStep(ssid), (false, ""), blocks)
    case Err(e) =>
      (FoldRows(QuotedStep("psk"), "", BlocksWithName(blocks, ssid)) == Err(e) &&
       exists i :: 0 <= i < |blocks| && Contains(blocks[i], ssid))
    case Ok(acc) =>
      (FoldRows(QuotedStep("psk"), "", BlocksWithName(blocks, ssid)) == Ok(acc.1) &&
       (acc.0 <==> exists i :: 0 <= i < |blocks| && Contains(blocks[i], ssid)))
  }

  /** The last block is read after the blocks before it. */
  lemma LookupFlattenedSnoc(blocks: seq<string>, ssid: string)
    requires blocks != [] && LookupAgrees(blocks[..|blocks| - 1], ssid)
    ensures LookupAgrees(blocks, ssid)
  {
    var front, b := blocks[..|blocks| - 1], blocks[|blocks| - 1];
    assert BlocksWithName(blocks, ssid) == BlocksWithName(front, ssid) + NameWords(ssid)(b);
    FoldRowsAppend(QuotedStep("psk"), "", BlocksWithName(front, ssid), NameWords(ssid)(b));
    assert forall i :: 0 <= i < |front| ==> front[i] == blocks[i];
    if !Contains(b, ssid) {
      assert BlocksWithName(front, ssid) + [] == BlocksWithName(front, ssid);
    }
  }

  /** `ValueError` ("SSID not known") exactly when NetworkManager prints nothing
      for the name, when no wpa_supplicant block contains it, or when neither
      source exists; a known name whose output has no psk row has key `''`. */
  lemma {:induction false} SinglePasswordSpec(host: LinuxHost, ssid: string)
    ensures SinglePassword(host, ssid) == Err(ValueError) <==>
      (host.nmConfigured && host.connectionPskAndId(ssid) == "") ||
      (!host.nmConfigured && host.wpaFilePresent &&
        !exists i :: 0 <= i < |LookupBlocks(host.wpaFile)| && Contains(LookupBlocks(host.wpaFile)[i], ssid)) ||
      (!host.nmConfigured && !host.wpaFilePresent)
    ensures host.nmConfigured && host.connectionPskAndId(ssid) != "" ==>
      var rows := Lines(host.connectionPskAndId(ssid));
      (forall i :: 0 <= i < |rows| ==> !Contains(rows[i], PskField)) ==> SinglePassword(host, ssid) == Ok("")
    ensures !host.nmConfigured && host.wpaFilePresent ==>
      var blocks := LookupBlocks(host.wpaFile);
      var words := BlocksWithName(blocks, ssid);
      (exists i :: 0 <= i < |blocks| && Contains(blocks[i], ssid)) ==>
        (SinglePassword(host, ssid) == Err(IndexError) <==>
          exists i :: 0 <= i < |words| && Contains(words[i], "psk") && !Contains(words[i], "psk=")) &&
        (SinglePassword(host, ssid).Ok? ==> SinglePassword(host, ssid).value == LastQuoted(words, "psk", "psk=", "")) &&
        ((forall i :: 0 <= i < |words| ==> !Contains(words[i], "psk")) ==> SinglePassword(host, ssid) == Ok(""))
  {
    if host.nmConfigured {
      var out := host.connectionPskAndId(ssid);
      if out != "" {
        PskFold(Lines(out));
      }
    } else if host.wpaFilePresent {
      var blocks := LookupBlocks(host.wpaFile);
      LookupMatchesFlattened(blocks, ssid);
      FoldRowsOnly(QuotedStep("psk"), "", BlocksWithName(blocks, ssid), IndexError);
      assert "psk" + "=" == "psk=";
      QuotedFold("psk", "", BlocksWithName(blocks, ssid));
      match FoldRows(BlockLookupStep(ssid), (false, ""), blocks)
      case Err(e) => assert e == IndexError;
      case Ok(acc) =>
    }
  }

  // ---------------------------------------------------------------------------
  // The collector

  class WifiPasswordsLinux {
    var data: Networks
    var numberOfProfiles: nat
    var numberVisibleNetworks: nat
    var numberOfInterfaces: nat

    constructor()
      ensures data == [] && numberOfProfiles == 0 && numberVisibleNetworks == 0 && numberOfInterfaces == 0
    {
      data := [];
      numberOfProfiles := 0;
      numberVisibleNetworks := 0;
      numberOfInterfaces := 0;
    }

    /** `_get_password_subthread`: one profile's record from its detail rows. */
    method PasswordSubthread(output: string) returns (r: Result<NetRecord>)
      ensures r == DetailsRecord(output)
    {
      r := ReadDetailRows(Lines(output));
    }

    /** The loop over the detail rows. */
    method ReadDetailRows(rows: seq<string>) returns (r: Result<NetRecord>)
      ensures r == FoldRows(DetailStep, OpenDefaults, rows)
    {
      var rec := OpenDefaults;
      var i := 0;
      while i < |rows|
        invariant 0 <= i <= |rows|
        invariant FoldRows(DetailStep, OpenDefaults, rows[..i]) == Ok(rec)
      {
        FoldRowsNext(DetailStep, OpenDefaults, rows, i, rec);
        var next := ReadDetailRow(rec, rows[i]);
        if next.Err? { FoldRowsStop(DetailStep, OpenDefaults, rows, i, rec); return Err(next.error); }
        rec := next.value;
        i := i + 1;
      }
      FoldRowsDone(DetailStep, OpenDefaults, rows, rec);
      r := Ok(rec);
    }

    /** One detail row: the four field tests in order. */
    method ReadDetailRow(rec0: NetRecord, row: string) returns (r: Result<NetRecord>)
      ensures r == DetailStep(rec0, row)
    {
      var rec := rec0;
      if Contains(row, KeyMgmtField) {
        var v := Item(row, ":", 1);
        if v.Err? { return Err(v.error); }
        rec := rec.(auth := v.value);
      }
      if Contains(row, PskField) {
        var v := Item(row, ":", 1);
        if v.Err? { return Err(v.error); }
        rec := rec.(psk := v.value);
      }
      if Contains(row, MeteredField) {
        var v := Item(row, ":", 1);
        if v.Err? { return Err(v.error); }
        if Contains(v.value, "yes") { rec := rec.(metered := true); }
      }
      if Contains(row, MacField) {
        var v := Item(row, ":", 1);
        if v.Err? { return Err(v.error); }
        if v.value != "" { rec := rec.(macrandom := v.value); }
      }
      r := Ok(rec);
    }

    /** One wpa_supplicant block's name, label and key. */
    method ReadBlock(block: string) returns (r: Result<BlockFields>)
      ensures r == BlockRead(block)
    {
      r := ReadBlockItems(BlockItems(block));
    }

    /** The loop over the lines of a block. */
    method ReadBlockItems(items: seq<string>) returns (r: Result<BlockFields>)
      ensures r == FoldRows(BlockStep, Unset, items)
    {
      var ssid, auth, psk := " ", " ", " ";
      var i := 0;
      while i < |items|
        invariant 0 <= i <= |items|
        invariant FoldRows(BlockStep, Unset, items[..i]) == Ok(BlockFields(ssid, auth, psk))
      {
        FoldRowsNext(BlockStep, Unset, items, i, BlockFields(ssid, auth, psk));
        var next := ReadBlockItem(BlockFields(ssid, auth, psk), items[i]);
        if next.Err? { FoldRowsStop(BlockStep, Unset, items, i, BlockFields(ssid, auth, psk)); return Err(next.error); }
        ssid, auth, psk := next.value.ssid, next.value.auth, next.value.psk;
        i := i + 1;
      }
      FoldRowsDone(BlockStep, Unset, items, BlockFields(ssid, auth, psk));
      r := Ok(BlockFields(ssid, auth, psk));
    }

    /** One quoted-value test: `item.split(name + '=')[1][1:-1]` when the line names it. */
    method ReadQuoted(name: string, cur: string, item: string) returns (r: Result<string>)
      ensures r == QuotedStep(name)(cur, item)
    {
      if Contains(item, name) {
        var v := Item(item, name + "=", 1);
        if v.Err? { return Err(v.error); }
        return Ok(Inner(v.value));
      }
      return Ok(cur);
    }

    /** One line of a block: the `ssid`, `key_mgmt` and `psk` tests in order. */
    method ReadBlockItem(f: BlockFields, item: string) returns (r: Result<BlockFields>)
      ensures r == BlockStep(f, item)
    {
      var ssid, auth, psk := f.ssid, f.auth, f.psk;
      var ssid' := ReadQuoted("ssid", ssid, item);
      if ssid'.Err? { return Err(ssid'.error); }
      ssid := ssid'.value;
      if Contains(item, "key_mgmt") {
        var v := Item(item, "key_mgmt=", 1);
        if v.Err? { return Err(v.error); }
        if UpperIsNone(v.value) { auth := "Open"; } else { auth := v.value; }
      }
      var psk' := ReadQuoted("psk", psk, item);
      if psk'.Err? { return Err(psk'.error); }
      psk := psk'.value;
      r := Ok(BlockFields(ssid, auth, psk));
    }

    /** The NetworkManager branch: every profile through the worker, in order. */
    method CollectNmcli(host: LinuxHost) returns (r: Result<Networks>)
      ensures r == NmcliNetworks(ProfileKeys(host), host.details)
    {
      r := CollectProfileRows(host, ProfileKeys(host));
    }

    /** The loop over the profile names, one worker call each. */
    method CollectProfileRows(host: LinuxHost, names: seq<string>) returns (r: Result<Networks>)
      ensures r == FoldRows(ProfileStep(DetailsReader(host.details)), [], names)
    {
      var results: Networks := [];
      var read := DetailsReader(host.details);
      var i := 0;
      while i < |names|
        invariant 0 <= i <= |names|
        invariant FoldRows(ProfileStep(read), [], names[..i]) == Ok(results)
      {
        FoldRowsNext(ProfileStep(read), [], names, i, results);
        ProfileStepSpec(read, results, names[i]);
        var rec := PasswordSubthread(host.details(names[i]));
        if rec.Err? { FoldRowsStop(ProfileStep(read), [], names, i, results); return Err(rec.error); }
        results := Put(results, names[i], rec.value);
        i := i + 1;
      }
      FoldRowsDone(ProfileStep(read), [], names, results);
      r := Ok(results);
    }

    /** The wpa_supplicant branch: one record per block, a later block with the
        same name replacing the earlier one. */
    method CollectWpaFile(file: string) returns (r: Result<Networks>)
      ensures r == FileNetworks(file)
    {
      r := ReadFileBlocks(FileBlocks(file));
    }

    /** The loop over the blocks of the file. */
    method ReadFileBlocks(blocks: seq<string>) returns (r: Result<Networks>)
      ensures r == FoldRows(FileStep, [], blocks)
    {
      var results: Networks := [];
      var i := 0;
      while i < |blocks|
        invariant 0 <= i <= |blocks|
        invariant FoldRows(FileStep, [], blocks[..i]) == Ok(results)
      {
        FoldRowsNext(FileStep, [], blocks, i, results);
        var f := ReadBlock(blocks[i]);
        if f.Err? { FoldRowsStop(FileStep, [], blocks, i, results); return Err(f.error); }
        results := Put(results, f.value.ssid, NetRecord(f.value.auth, f.value.psk, false, "Disabled"));
        i := i + 1;
      }
      FoldRowsDone(FileStep, [], blocks, results);
      r := Ok(results);
    }

    /** `get_passwords`: on success `data` is the result and `number_of_profiles`
        its size; an exception leaves the collector as it was. */
    method GetPasswords(host: LinuxHost) returns (r: Result<Networks>)
      modifies this
      ensures r == Passwords(host)
      ensures r.Ok? ==> data == r.value && numberOfProfiles == |r.value|
      ensures r.Err? ==> data == old(data) && numberOfProfiles == old(numberOfProfiles)
      ensures numberVisibleNetworks == old(numberVisibleNetworks) && numberOfInterfaces == old(numberOfInterfaces)
    {
      if host.nmConfigured {
        r := CollectNmcli(host);
      } else if host.wpaFilePresent {
        r := CollectWpaFile(host.wpaFile);
      } else {
        r := Ok([]);
      }
      if r.Ok? {
        numberOfProfiles := |r.value|;
        data := r.value;
      }
    }

    /** `get_passwords_dummy`: the made-up mapping becomes `data`. */
    method GetPasswordsDummy(quantity: int, choices: Dummy.Choices) returns (r: Networks)
      modifies this
      ensures r == Dummy.DummyData(quantity, choices) && data == r && numberOfProfiles == |r|
      ensures numberVisibleNetworks == old(numberVisibleNetworks) && numberOfInterfaces == old(numberOfInterfaces)
    {
      r := Dummy.DummyData(quantity, choices);
      numberOfProfiles := |r|;
      data := r;
    }

    /** `get_passwords_data`. */
    method GetPasswordsData() returns (r: Networks)
      ensures r == data
    {
      r := data;
    }

    /** `get_visible_networks`: without NetworkManager the counter is untouched. */
    method GetVisibleNetworks(host: LinuxHost, asDictionary: bool) returns (r: VisibleReport)
      modifies this
      ensures var rows := Lines(host.wifiList);
        if !host.nmConfigured then
          r == (if asDictionary then VisibleMap([]) else VisibleText("Requires NetworkManager.")) &&
          numberVisibleNetworks == old(numberVisibleNetworks)
        else if asDictionary then
          r == VisibleMap(VisibleDict(rows)) && numberVisibleNetworks == |VisibleDict(rows)|
        else
          r == VisibleText(VisibleSummary(Collect(VisibleLine, rows))) &&
          numberVisibleNetworks == |Collect(VisibleLine, rows)|
      ensures data == old(data) && numberOfProfiles == old(numberOfProfiles) && numberOfInterfaces == old(numberOfInterfaces)
    {
      if !host.nmConfigured {
        r := if asDictionary then VisibleMap([]) else VisibleText("Requires NetworkManager.");
        return;
      }
      var networks, lines := ScanVisible(Lines(host.wifiList), asDictionary);
      if asDictionary {
        numberVisibleNetworks := |networks|;
        r := VisibleMap(networks);
      } else {
        numberVisibleNetworks := |lines|;
        r := VisibleText(VisibleSummary(lines));
      }
    }

    /** The loop of `get_visible_networks`: the rows with five fields, into
        the dictionary or into the list of descriptions. */
    method ScanVisible(rows: seq<string>, asDictionary: bool) returns (networks: Dict<VisibleNet>, lines: seq<string>)
      ensures networks == (if asDictionary then VisibleDict(rows) else [])
      ensures lines == (if asDictionary then [] else Collect(VisibleLine, rows))
    {
      networks, lines := [], [];
      var i := 0;
      while i < |rows|
        invariant 0 <= i <= |rows|
        invariant networks == (if asDictionary then VisibleDict(rows[..i]) else [])
        invariant lines == (if asDictionary then [] else Collect(VisibleLine, rows[..i]))
      {
        CollectStep(VisibleLine, rows, i);
        assert rows[..i + 1][..i] == rows[..i];
        var parts := Split(rows[i], ":");
        if |parts| >= 5 {
          var name := if parts[0] == "" then "Hidden" else parts[0];
          if asDictionary {
            networks := Put(networks, name, VisibleNet(parts[4], parts[1], parts[3], parts[2]));
          } else {
            lines := lines + [name + " \n Channel: " + parts[1] + " \n Rate: " + parts[2] + " \n Signal: " + parts[3] +
              "% \n Security: " + parts[4] + " \n"];
          }
        }
        i := i + 1;
      }
      assert rows[..|rows|] == rows;
    }

    /** `get_dns_config` in dictionary form. It never sets `number_of_interfaces`. */
    method GetDnsConfig(host: LinuxHost) returns (r: Result<Dict<DnsEntry>>)
      ensures r == DnsConfig(host)
    {
      if !host.nmConfigured { return Ok([]); }
      r := ReadInterfaces(host, Lines(host.devices));
    }

    method ReadInterfaces(host: LinuxHost, rows: seq<string>) returns (r: Result<Dict<DnsEntry>>)
      ensures r == FoldRows(InterfaceStep(host), [], rows)
    {
      var step := InterfaceStep(host);
      var dns: Dict<DnsEntry> := [];
      var i := 0;
      while i < |rows|
        invariant 0 <= i <= |rows|
        invariant FoldRows(step, [], rows[..i]) == Ok(dns)
      {
        FoldRowsNext(step, [], rows, i, dns);
        var next := ReadInterface(host, dns, rows[i]);
        if next.Err? { FoldRowsStop(step, [], rows, i, dns); return Err(next.error); }
        dns := next.value;
        i := i + 1;
      }
      FoldRowsDone(step, [], rows, dns);
      r := Ok(dns);
    }

    /** One `DEVICE:CONNECTION` row of `get_dns_config`. */
    method ReadInterface(host: LinuxHost, dns: Dict<DnsEntry>, row: string) returns (r: Result<Dict<DnsEntry>>)
      ensures r == InterfaceStep(host)(dns, row)
    {
      var parts := Split(row, ":");
      if |parts| != 2 {
        assert InterfaceEntry(host)(row) == Ok(None);
        return Ok(dns);
      }
      var sd := ReadDeviceDns(host, parts[0]);
      if sd.Err? {
        assert InterfaceEntry(host)(row) == Err(sd.error);
        return Err(sd.error);
      }
      var kind := ReadConnectionKind(host, parts[1], |sd.value.1| != 0);
      if kind.Err? {
        assert InterfaceEntry(host)(row) == Err(kind.error);
        return Err(kind.error);
      }
      assert InterfaceEntry(host)(row) == Ok(Some(Entry(parts[0], DnsEntry(kind.value, sd.value.1, sd.value.0))));
      r := Ok(Put(dns, parts[0], DnsEntry(kind.value, sd.value.1, sd.value.0)));
    }

    /** The device rows of one interface. */
    method ReadDeviceDns(host: LinuxHost, device: string) returns (r: Result<(string, seq<string>)>)
      ensures r == DeviceDns(host, device)
    {
      r := ReadDeviceRows(Lines(host.deviceDns(device)));
    }

    /** The loop over the device rows. */
    method ReadDeviceRows(rows: seq<string>) returns (r: Result<(string, seq<string>)>)
      ensures r == FoldRows(DomainStep, ("", []), rows)
    {
      var suffix, dns := "", [];
      var i := 0;
      while i < |rows|
        invariant 0 <= i <= |rows|
        invariant FoldRows(DomainStep, ("", []), rows[..i]) == Ok((suffix, dns))
      {
        FoldRowsNext(DomainStep, ("", []), rows, i, (suffix, dns));
        var next := ReadDomainRow(suffix, dns, rows[i]);
        if next.Err? { FoldRowsStop(DomainStep, ("", []), rows, i, (suffix, dns)); return Err(next.error); }
        suffix, dns := next.value.0, next.value.1;
        i := i + 1;
      }
      FoldRowsDone(DomainStep, ("", []), rows, (suffix, dns));
      r := Ok((suffix, dns));
    }

    /** One device row: the domain and DNS tests. */
    method ReadDomainRow(suffix0: string, dns0: seq<string>, row: string) returns (r: Result<(string, seq<string>)>)
      ensures r == DomainStep((suffix0, dns0), row)
    {
      var suffix, dns := suffix0, dns0;
      if Contains(row, "IP4.DOMAIN") {
        var v := Item(row, ":", 1);
        if v.Err? { return Err(v.error); }
        suffix := v.value;
      }
      if Contains(row, "IP4.DNS") {
        var v := Item(row, ":", 1);
        if v.Err? { return Err(v.error); }
        dns := Split(v.value, ",");
      }
      r := Ok((suffix, dns));
    }

    /** The connection rows of one interface. */
    method ReadConnectionKind(host: LinuxHost, connection: string, hasDns: bool) returns (r: Result<string>)
      ensures r == ConnectionKind(host, connection, hasDns)
    {
      r := ReadConnectionRows(hasDns, Lines(host.connectionDns(connection)));
    }

    /** The loop over the connection rows. */
    method ReadConnectionRows(hasDns: bool, rows: seq<string>) returns (r: Result<string>)
      ensures r == FoldRows(KindStep(hasDns), "None", rows)
    {
      var step := KindStep(hasDns);
      var kind := "None";
      var i := 0;
      while i < |rows|
        invariant 0 <= i <= |rows|
        invariant FoldRows(step, "None", rows[..i]) == Ok(kind)
      {
        FoldRowsNext(step, "None", rows, i, kind);
        var next := ReadKindRow(hasDns, kind, rows[i]);
        if next.Err? { FoldRowsStop(step, "None", rows, i, kind); return Err(next.error); }
        kind := next.value;
        i := i + 1;
      }
      FoldRowsDone(step, "None", rows, kind);
      r := Ok(kind);
    }

    /** One connection row: the `ipv4.ignore-auto-dns` test. */
    method ReadKindRow(hasDns: bool, kind: string, row: string) returns (r: Result<string>)
      ensures r == KindStep(hasDns)(kind, row)
    {
      r := Ok(kind);
      if Contains(row, "ipv4.ignore-auto-dns") {
        var v := Item(row, ":", 1);
        if v.Err? { return Err(v.error); }
        if v.value == "yes" {
          r := Ok("Static");
        } else if v.value == "no" && hasDns {
          r := Ok("DHCP");
        }
      }
    }

    /** `save_wpa_supplicant`: the Linux copy of the renderer, on `data` unless
        another mapping is given. */
    method SaveWpaSupplicant(given: Option<Networks>, includeOpen: bool, locale: string, h: Supplicant.Header)
      returns (lines: seq<string>)
      ensures lines == Supplicant.Rendered(Supplicant.Linux, if given.Some? then given.value else data, includeOpen, locale, h)
    {
      var d := if given.Some? then given.value else data;
      lines := Supplicant.WriteSupplicant(Supplicant.Linux, d, includeOpen, locale, h);
    }

    /** `get_number_visible_networks`: refreshes the counter through the text form. */
    method GetNumberVisibleNetworks(host: LinuxHost) returns (n: nat)
      modifies this
      ensures n == numberVisibleNetworks
      ensures host.nmConfigured ==> n == |Collect(VisibleLine, Lines(host.wifiList))|
      ensures !host.nmConfigured ==> n == old(numberVisibleNetworks)
      ensures data == old(data) && numberOfProfiles == old(numberOfProfiles) && numberOfInterfaces == old(numberOfInterfaces)
    {
      var report := GetVisibleNetworks(host, false);
      n := numberVisibleNetworks;
    }

    /** `get_number_interfaces`: the counter, which the Linux collector never
        changes, once the DNS configuration has been read without an exception. */
    method GetNumberInterfaces(host: LinuxHost) returns (r: Result<nat>)
      ensures r == (if DnsConfig(host).Err? then Err(DnsConfig(host).error) else Ok(numberOfInterfaces))
    {
      var config := GetDnsConfig(host);
      if config.Err? { return Err(config.error); }
      r := Ok(numberOfInterfaces);
    }

    /** `get_number_profiles`: collects only while the counter is zero. */
    method GetNumberProfiles(host: LinuxHost) returns (r: Result<nat>)
      modifies this
      ensures old(numberOfProfiles) != 0 ==> r == Ok(old(numberOfProfiles)) && data == old(data) && numberOfProfiles == old(numberOfProfiles)
      ensures old(numberOfProfiles) == 0 ==>
        match Passwords(host)
        case Err(e) => r == Err(e) && data == old(data) && numberOfProfiles == 0
        case Ok(d) => r == Ok(|d|) && data == d && numberOfProfiles == |d|
      ensures numberVisibleNetworks == old(numberVisibleNetworks) && numberOfInterfaces == old(numberOfInterfaces)
    {
      if numberOfProfiles == 0 {
        var p := GetPasswords(host);
        if p.Err? { return Err(p.error); }
      }
      r := Ok(numberOfProfiles);
    }

    /** `get_currently_connected_ssids`. */
    method GetCurrentlyConnectedSsids(host: LinuxHost) returns (ssids: seq<string>)
      ensures ssids == ConnectedSsids(host)
    {
      if host.nmConfigured {
        ssids := ReadDeviceStatus(Lines(host.deviceStatus));
      } else {
        ssids := ReadIwgetid(Lines(host.iwgetid));
      }
    }

    /** The loop over the `nmcli` device rows. */
    method ReadDeviceStatus(rows: seq<string>) returns (ssids: seq<string>)
      ensures ssids == Collect(ConnectedField, rows)
    {
      ssids := [];
      var i := 0;
      while i < |rows|
        invariant 0 <= i <= |rows|
        invariant ssids == Collect(ConnectedField, rows[..i])
      {
        CollectStep(ConnectedField, rows, i);
        var parts := Split(rows[i], ":");
        if |parts| >= 4 && parts[1] == "wifi" && parts[2] == "connected" {
          ssids := ssids + [parts[3]];
        }
        i := i + 1;
      }
      assert rows[..|rows|] == rows;
    }

    /** The loop over the `iwgetid` rows. */
    method ReadIwgetid(rows: seq<string>) returns (ssids: seq<string>)
      ensures ssids == Collect(NonEmptyLine, rows)
    {
      ssids := [];
      var i := 0;
      while i < |rows|
        invariant 0 <= i <= |rows|
        invariant ssids == Collect(NonEmptyLine, rows[..i])
      {
        CollectStep(NonEmptyLine, rows, i);
        if rows[i] != "" {
          ssids := ssids + [rows[i]];
        }
        i := i + 1;
      }
      assert rows[..|rows|] == rows;
    }

    /** `get_currently_connected_passwords`. */
    method GetCurrentlyConnectedPasswords(host: LinuxHost) returns (r: Result<seq<(string, string)>>)
      ensures r == ConnectedPasswords(host)
    {
      var ssids := GetCurrentlyConnectedSsids(host);
      if host.nmConfigured {
        r := ReadNmPairs(host, ssids);
      } else if host.wpaFilePresent {
        r := ReadWpaPairs(MatchedBlocks(LookupBlocks(host.wpaFile), ssids));
      } else {
        r := Ok([]);
      }
    }

    /** The NetworkManager loop: a key lookup per connected name. */
    method ReadNmPairs(host: LinuxHost, ssids: seq<string>) returns (r: Result<seq<(string, string)>>)
      ensures r == FoldRows(NmPairStep(host), [], ssids)
    {
      var step := NmPairStep(host);
      var pairs: seq<(string, string)> := [];
      var i := 0;
      while i < |ssids|
        invariant 0 <= i <= |ssids|
        invariant FoldRows(step, [], ssids[..i]) == Ok(pairs)
      {
        FoldRowsNext(step, [], ssids, i, pairs);
        var next := ReadNmPair(host, pairs, ssids[i]);
        if next.Err? { FoldRowsStop(step, [], ssids, i, pairs); return Err(next.error); }
        pairs := next.value;
        i := i + 1;
      }
      FoldRowsDone(step, [], ssids, pairs);
      r := Ok(pairs);
    }

    method ReadNmPair(host: LinuxHost, pairs: seq<(string, string)>, ssid: string) returns (r: Result<seq<(string, string)>>)
      ensures r == NmPairStep(host)(pairs, ssid)
    {
      var out := host.connectionPsk(ssid);
      if out == "" { return Ok(pairs); }
      var psk := ReadPsk(out);
      if psk.Err? { return Err(psk.error); }
      r := Ok(pairs + [(ssid, psk.value)]);
    }

    /** The wpa_supplicant loop over the blocks naming a connected network. */
    method ReadWpaPairs(blocks: seq<string>) returns (r: Result<seq<(string, string)>>)
      ensures r == FoldRows(PairOfBlock, [], blocks)
    {
      var pairs: seq<(string, string)> := [];
      var i := 0;
      while i < |blocks|
        invariant 0 <= i <= |blocks|
        invariant FoldRows(PairOfBlock, [], blocks[..i]) == Ok(pairs)
      {
        FoldRowsNext(PairOfBlock, [], blocks, i, pairs);
        var p := ReadPair(blocks[i]);
        if p.Err? { FoldRowsStop(PairOfBlock, [], blocks, i, pairs); return Err(p.error); }
        pairs := pairs + [p.value];
        i := i + 1;
      }
      FoldRowsDone(PairOfBlock, [], blocks, pairs);
      r := Ok(pairs);
    }

    /** The key of the last psk row of a lookup's output. */
    method ReadPsk(output: string) returns (r: Result<string>)
      ensures r == FoldRows(PskStep, "", Lines(output))
    {
      r := ReadPskRows(Lines(output));
    }

    /** The loop over the rows of a key lookup. */
    method ReadPskRows(rows: seq<string>) returns (r: Result<string>)
      ensures r == FoldRows(PskStep, "", rows)
    {
      var psk := "";
      var i := 0;
      while i < |rows|
        invariant 0 <= i <= |rows|
        invariant FoldRows(PskStep, "", rows[..i]) == Ok(psk)
      {
        FoldRowsNext(PskStep, "", rows, i, psk);
        if Contains(rows[i], PskField) {
          var v := Item(rows[i], ":", 1);
          if v.Err? { FoldRowsStop(PskStep, "", rows, i, psk); return Err(v.error); }
          psk := v.value;
        }
        i := i + 1;
      }
      FoldRowsDone(PskStep, "", rows, psk);
      r := Ok(psk);
    }

    /** The name and key of one block, read word by word. */
    method ReadPair(block: string) returns (r: Result<(string, string)>)
      ensures r == BlockPair(block)
    {
      r := ReadPairWords(BlockWords(block));
    }

    /** The loop over the words of a block. */
    method ReadPairWords(words: seq<string>) returns (r: Result<(string, string)>)
      ensures r == FoldRows(PairStep, ("", ""), words)
    {
      var ssid, psk := "", "";
      var i := 0;
      while i < |words|
        invariant 0 <= i <= |words|
        invariant FoldRows(PairStep, ("", ""), words[..i]) == Ok((ssid, psk))
      {
        FoldRowsNext(PairStep, ("", ""), words, i, (ssid, psk));
        var next := ReadPairWord(ssid, psk, words[i]);
        if next.Err? { FoldRowsStop(PairStep, ("", ""), words, i, (ssid, psk)); return Err(next.error); }
        ssid, psk := next.value.0, next.value.1;
        i := i + 1;
      }
      FoldRowsDone(PairStep, ("", ""), words, (ssid, psk));
      r := Ok((ssid, psk));
    }

    /** One word of a block: its `ssid` and `psk` tests. */
    method ReadPairWord(ssid0: string, psk0: string, w: string) returns (r: Result<(string, string)>)
      ensures r == PairStep((ssid0, psk0), w)
    {
      var ssid, psk := ssid0, psk0;
      var ssid' := ReadQuoted("ssid", ssid, w);
      if ssid'.Err? { return Err(ssid'.error); }
      ssid := ssid'.value;
      var psk' := ReadQuoted("psk", psk, w);
      if psk'.Err? { return Err(psk'.error); }
      psk := psk'.value;
      r := Ok((ssid, psk));
    }

    /** `get_known_ssids`: sets `number_of_profiles` to the number of names,
        repeats included. */
    method GetKnownSsids(host: LinuxHost) returns (r: Result<seq<string>>)
      modifies this
      ensures r == KnownSsids(host)
      ensures r.Ok? ==> numberOfProfiles == |r.value|
      ensures r.Err? ==> numberOfProfiles == old(numberOfProfiles)
      ensures data == old(data) && numberVisibleNetworks == old(numberVisibleNetworks) && numberOfInterfaces == old(numberOfInterfaces)
    {
      if host.nmConfigured {
        r := Ok(ProfileNames(host.connections));
      } else if host.wpaFilePresent {
        r := ReadKnownSsids(host.wpaFile);
      } else {
        r := Ok([]);
      }
      if r.Ok? { numberOfProfiles := |r.value|; }
    }

    /** The wpa_supplicant branch of `get_known_ssids`: each block's name, repeats kept. */
    method ReadKnownSsids(file: string) returns (r: Result<seq<string>>)
      ensures r == FileSsids(file)
    {
      r := ReadKnownBlocks(FileBlocks(file));
    }

    /** The loop over the blocks of the file. */
    method ReadKnownBlocks(blocks: seq<string>) returns (r: Result<seq<string>>)
      ensures r == FoldRows(KnownStep, [], blocks)
    {
      var ssids: seq<string> := [];
      var i := 0;
      while i < |blocks|
        invariant 0 <= i <= |blocks|
        invariant FoldRows(KnownStep, [], blocks[..i]) == Ok(ssids)
      {
        FoldRowsNext(KnownStep, [], blocks, i, ssids);
        var s := ReadBlockSsid(blocks[i]);
        if s.Err? { FoldRowsStop(KnownStep, [], blocks, i, ssids); return Err(s.error); }
        ssids := ssids + [s.value];
        i := i + 1;
      }
      FoldRowsDone(KnownStep, [], blocks, ssids);
      r := Ok(ssids);
    }

    /** The name of one block. */
    method ReadBlockSsid(block: string) returns (r: Result<string>)
      ensures r == BlockSsid(block)
    {
      r := ReadSsidItems(BlockItems(block));
    }

    /** The loop over the lines of a block. */
    method ReadSsidItems(items: seq<string>) returns (r: Result<string>)
      ensures r == FoldRows(QuotedStep("ssid"), " ", items)
    {
      var ssid := " ";
      var i := 0;
      while i < |items|
        invariant 0 <= i <= |items|
        invariant FoldRows(QuotedStep("ssid"), " ", items[..i]) == Ok(ssid)
      {
        FoldRowsNext(QuotedStep("ssid"), " ", items, i, ssid);
        var v := ReadQuoted("ssid", ssid, items[i]);
        if v.Err? { FoldRowsStop(QuotedStep("ssid"), " ", items, i, ssid); return Err(v.error); }
        ssid := v.value;
        i := i + 1;
      }
      FoldRowsDone(QuotedStep("ssid"), " ", items, ssid);
      r := Ok(ssid);
    }

    /** The key words of one block, continuing from the key found so far. */
    method ReadWordsPsk(words: seq<string>, psk0: string) returns (r: Result<string>)
      ensures r == FoldRows(QuotedStep("psk"), psk0, words)
    {
      var psk := psk0;
      var j := 0;
      while j < |words|
        invariant 0 <= j <= |words|
        invariant FoldRows(QuotedStep("psk"), psk0, words[..j]) == Ok(psk)
      {
        FoldRowsNext(QuotedStep("psk"), psk0, words, j, psk);
        var v := ReadQuoted("psk", psk, words[j]);
        if v.Err? { FoldRowsStop(QuotedStep("psk"), psk0, words, j, psk); return Err(v.error); }
        psk := v.value;
        j := j + 1;
      }
      FoldRowsDone(QuotedStep("psk"), psk0, words, psk);
      r := Ok(psk);
    }

    /** `get_single_password`. */
    method GetSinglePassword(host: LinuxHost, ssid: string) returns (r: Result<string>)
      ensures r == SinglePassword(host, ssid)
    {
      if host.nmConfigured {
        var out := host.connectionPskAndId(ssid);
        if out == "" { return Err(ValueError); }
        r := ReadPsk(out);
      } else if host.wpaFilePresent {
        r := LookupWpaFile(host.wpaFile, ssid);
      } else {
        r := Err(ValueError);
      }
    }

    /** The wpa_supplicant branch of `get_single_password`. */
    method LookupWpaFile(file: string, ssid: string) returns (r: Result<string>)
      ensures r == WpaSinglePassword(file, ssid)
    {
      var acc := ReadLookupBlocks(ssid, LookupBlocks(file));
      if acc.Err? { return Err(acc.error); }
      r := if acc.value.0 then Ok(acc.value.1) else Err(ValueError);
    }

    /** The loop over the blocks of the file. */
    method ReadLookupBlocks(ssid: string, blocks: seq<string>) returns (r: Result<(bool, string)>)
      ensures r == FoldRows(BlockLookupStep(ssid), (false, ""), blocks)
    {
      var step := BlockLookupStep(ssid);
      var psk := "";
      var found := false;
      var i := 0;
      while i < |blocks|
        invariant 0 <= i <= |blocks|
        invariant FoldRows(step, (false, ""), blocks[..i]) == Ok((found, psk))
      {
        FoldRowsNext(step, (false, ""), blocks, i, (found, psk));
        var next := ReadLookupBlock(ssid, (found, psk), blocks[i]);
        if next.Err? { FoldRowsStop(step, (false, ""), blocks, i, (found, psk)); return Err(next.error); }
        found, psk := next.value.0, next.value.1;
        i := i + 1;
      }
      FoldRowsDone(step, (false, ""), blocks, (found, psk));
      r := Ok((found, psk));
    }

    /** One block of the lookup: the key words of a block naming the network. */
    method ReadLookupBlock(ssid: string, acc: (bool, string), block: string) returns (r: Result<(bool, string)>)
      ensures r == BlockLookupStep(ssid)(acc, block)
    {
      if Contains(block, ssid) {
        var next := ReadWordsPsk(BlockWords(block), acc.1);
        if next.Err? { return Err(next.error); }
        r := Ok((true, next.value));
      } else {
        r := Ok(acc);
      }
    }
  }
}
