/** The Windows collector, `WifiPasswordsWindows`. Every `netsh` output is
    split on `\r\n`; every command's output is part of the `WindowsHost` it
    runs on. */
module Windows {
  import opened Py
  import opened PyDict
  import opened Records
  import Patterns
  import Supplicant
  import Dummy

  /** What the collector's `netsh` commands print on one machine. */
  datatype WindowsHost = WindowsHost(
    profiles: string,               // `netsh wlan show profiles`
    profileInfo: string -> string,  // `netsh wlan show profile <name> key=clear`
    networks: string,               // `netsh wlan show networks mode=Bssid`
    dnsSettings: string,            // `netsh interface ip show dns`
    interfaces: string)             // `netsh wlan show interfaces`

  /** `output.split('\r\n')`. */
  function Rows(output: string): seq<string> {
    Split(output, "\r\n")
  }

  // ---------------------------------------------------------------------------
  // Profile names

  /** The names of the `User Profile` rows: item 1 under `': '`, unstripped. */
  function ProfileNames(listing: string): Result<seq<string>> {
    FoldRows(FieldStep("User Profile", ": ", false), [], Rows(listing))
  }

  /** Listing the names raises `IndexError` exactly when a `User Profile` row
      has no `': '`; otherwise the names are the text after the first `': '`
      of each such row (up to the next one), in listing order. */
  lemma ProfileNamesSpec(listing: string)
    ensures ProfileNames(listing).Err? <==>
      exists i :: 0 <= i < |Rows(listing)| && Unreadable("User Profile", ": ", Rows(listing)[i])
    ensures ProfileNames(listing).Err? ==> ProfileNames(listing).error == IndexError
    ensures ProfileNames(listing).Ok? ==>
      ProfileNames(listing).value == Collect(FieldPick("User Profile", ": ", false), Rows(listing))
  {
    FieldsFoldErr("User Profile", ": ", false, Rows(listing));
    if ProfileNames(listing).Ok? {
      FieldsFold("User Profile", ": ", false, Rows(listing));
    }
  }

  // ---------------------------------------------------------------------------
  // One profile's rows

  /** `row.split(': ')[1].strip()`. */
  function InfoValue(row: string): Result<string> {
    var v :- Item(row, ": ", 1);
    Ok(Strip(v))
  }

  /** A `Cost` row that also names `Fixed` or `Variable`. */
  predicate CostMetered(row: string) {
    Contains(row, "Cost") && (Contains(row, "Fixed") || Contains(row, "Variable"))
  }

  /** A row naming `field` gives that field its value; any other row keeps `current`. */
  function InfoField(row: string, field: string, current: string): Result<string> {
    if Contains(row, field) then InfoValue(row) else Ok(current)
  }

  /** One row of `netsh wlan show profile`, the tests in the collector's order. */
  function InfoStep(rec: NetRecord, row: string): (r: Result<NetRecord>)
    ensures r.Err? ==> r.error == IndexError
  {
    var psk :- InfoField(row, "Key Content", rec.psk);
    var auth :- InfoField(row, "Authentication", rec.auth);
    var metered := rec.metered || CostMetered(row);
    var mac :- InfoField(row, "MAC Randomization", rec.macrandom);
    Ok(NetRecord(auth, psk, metered, mac))
  }

  /** The record of one profile, updated from `rec` by its rows. */
  function ProfileRecord(rec: NetRecord, info: string): Result<NetRecord> {
    FoldRows(InfoStep, rec, Rows(info))
  }

  // Reference definitions, field by field

  /** A row naming one of the three fields that take a value. */
  predicate Named(row: string) {
    Contains(row, "Key Content") || Contains(row, "Authentication") || Contains(row, "MAC Randomization")
  }

  function StrippedValue(row: string): string {
    Strip(SecondOr(row, ": ", ""))
  }

  /** The stripped value of the last row naming `field`, or `d`. */
  function LastStripped(rows: seq<string>, field: string, d: string): string {
    match LastMatch(rows, field)
    case None => d
    case Some(i) => StrippedValue(rows[i])
  }

  lemma LastStrippedSnoc(rows: seq<string>, row: string, field: string, d: string)
    ensures LastStripped(rows + [row], field, d) ==
      if Contains(row, field) then StrippedValue(row) else LastStripped(rows, field, d)
  {
    assert (rows + [row])[..|rows|] == rows;
  }

  /** One row raises exactly when it names a field and has no `': '`; otherwise
      each field it names takes that row's stripped value. */
  lemma InfoStepSpec(rec: NetRecord, row: string)
    ensures InfoStep(rec, row).Err? <==> Named(row) && !Contains(row, ": ")
    ensures InfoStep(rec, row).Ok? ==>
      InfoStep(rec, row).value == NetRecord(
        if Contains(row, "Authentication") then StrippedValue(row) else rec.auth,
        if Contains(row, "Key Content") then StrippedValue(row) else rec.psk,
        rec.metered || CostMetered(row),
        if Contains(row, "MAC Randomization") then StrippedValue(row) else rec.macrandom)
  {
    if Contains(row, ": ") { SecondOrOk(row, ": "); } else { SecondItem(row, ": "); }
  }

  /** The rows raise `IndexError` exactly when a row naming a field has no `': '`. */
  lemma ProfileRowsErr(rec: NetRecord, rows: seq<string>)
    ensures FoldRows(InfoStep, rec, rows).Err? <==>
      exists i :: 0 <= i < |rows| && Named(rows[i]) && !Contains(rows[i], ": ")
  {
    forall s, row ensures InfoStep(s, row).Err? <==> Named(row) && !Contains(row, ": ") {
      InfoStepSpec(s, row);
    }
    FoldRowsFails(InfoStep, (row: string) => Named(row) && !Contains(row, ": "), rec, rows);
  }

  /** Key, label and MAC randomisation are the stripped values of the last rows
      naming them, or what the record held before. */
  lemma {:induction false} ProfileRowsValues(rec: NetRecord, rows: seq<string>)
    requires FoldRows(InfoStep, rec, rows).Ok?
    ensures var r := FoldRows(InfoStep, rec, rows).value;
      r.psk == LastStripped(rows, "Key Content", rec.psk) &&
      r.auth == LastStripped(rows, "Authentication", rec.auth) &&
      r.macrandom == LastStripped(rows, "MAC Randomization", rec.macrandom)
  {
    if rows != [] {
      var front, row := rows[..|rows| - 1], rows[|rows| - 1];
      assert rows == front + [row];
      ProfileRowsValues(rec, front);
      LastStrippedSnoc(front, row, "Key Content", rec.psk);
      LastStrippedSnoc(front, row, "Authentication", rec.auth);
      LastStrippedSnoc(front, row, "MAC Randomization", rec.macrandom);
      InfoStepSpec(FoldRows(InfoStep, rec, front).value, row);
    }
  }

  /** Metered once some `Cost` row says `Fixed` or `Variable`, and never reset. */
  lemma ProfileRowsMetered(rec: NetRecord, rows: seq<string>)
    requires FoldRows(InfoStep, rec, rows).Ok?
    ensures FoldRows(InfoStep, rec, rows).value.metered <==>
      rec.metered || exists i :: 0 <= i < |rows| && CostMetered(rows[i])
  {
    forall s, row | InfoStep(s, row).Ok? ensures InfoStep(s, row).value.metered <==> s.metered || CostMetered(row) {
      InfoStepSpec(s, row);
    }
    FoldRowsFlag(InfoStep, (r: NetRecord) => r.metered, CostMetered, rec, rows);
  }

  /** A profile none of whose rows names a field or a metered cost keeps the
      record it started from. */
  lemma ProfileUntouched(rec: NetRecord, info: string)
    requires forall i :: 0 <= i < |Rows(info)| ==> !Named(Rows(info)[i]) && !CostMetered(Rows(info)[i])
    ensures ProfileRecord(rec, info) == Ok(rec)
  {
    var rows := Rows(info);
    ProfileRowsErr(rec, rows);
    ProfileRowsValues(rec, rows);
    ProfileRowsMetered(rec, rows);
  }

  // ---------------------------------------------------------------------------
  // The profile map, updated in place

  /** Each entry's value replaced by `update(key, value)`, in the mapping's
      order; the first exception is the result. */
  function UpdateRecords(update: (string, NetRecord) -> Result<NetRecord>, d: Networks): Result<Networks> {
    if d == [] then Ok([])
    else
      var front :- UpdateRecords(update, d[..|d| - 1]);
      var e := d[|d| - 1];
      var rec :- update(e.key, e.val);
      Ok(front + [Entry(e.key, rec)])
  }

  lemma UpdateRecordsStep(update: (string, NetRecord) -> Result<NetRecord>, d: Networks, i: nat)
    requires i < |d|
    ensures UpdateRecords(update, d[..i + 1]) ==
      match UpdateRecords(update, d[..i])
      case Err(e) => Err(e)
      case Ok(front) =>
        match update(d[i].key, d[i].val)
        case Err(e) => Err(e)
        case Ok(rec) => Ok(front + [Entry(d[i].key, rec)])
  {
    assert d[..i + 1][..i] == d[..i];
  }

  lemma {:induction false} UpdateRecordsErr(update: (string, NetRecord) -> Result<NetRecord>, d: Networks, i: nat)
    requires i <= |d| && UpdateRecords(update, d[..i]).Err?
    ensures UpdateRecords(update, d) == UpdateRecords(update, d[..i])
    decreases |d| - i
  {
    if i < |d| {
      UpdateRecordsStep(update, d, i);
      UpdateRecordsErr(update, d, i + 1);
    } else {
      assert d[..i] == d;
    }
  }

  /** The update raises exactly when one entry's update does; otherwise the
      keys stay where they were and each value is its own entry's update. */
  lemma {:induction false} UpdateRecordsSpec(update: (string, NetRecord) -> Result<NetRecord>, d: Networks)
    ensures UpdateRecords(update, d).Err? <==> exists i :: 0 <= i < |d| && update(d[i].key, d[i].val).Err?
    ensures UpdateRecords(update, d).Ok? ==>
      var r := UpdateRecords(update, d).value;
      Keys(r) == Keys(d) && forall i :: 0 <= i < |d| ==> update(d[i].key, d[i].val) == Ok(r[i].val)
  {
    if d != [] {
      UpdateRecordsSpec(update, d[..|d| - 1]);
      UpdateRecordsSnoc(update, d);
    }
  }

  /** The last network is updated after the networks before it. */
  lemma UpdateRecordsSnoc(update: (string, NetRecord) -> Result<NetRecord>, d: Networks)
    requires d != []
    requires var front := d[..|d| - 1];
      (UpdateRecords(update, front).Err? <==> exists i :: 0 <= i < |front| && update(front[i].key, front[i].val).Err?) &&
      (UpdateRecords(update, front).Ok? ==>
        var r := UpdateRecords(update, front).value;
        Keys(r) == Keys(front) && forall i :: 0 <= i < |front| ==> update(front[i].key, front[i].val) == Ok(r[i].val))
    ensures UpdateRecords(update, d).Err? <==> exists i :: 0 <= i < |d| && update(d[i].key, d[i].val).Err?
    ensures UpdateRecords(update, d).Ok? ==>
      var r := UpdateRecords(update, d).value;
      Keys(r) == Keys(d) && forall i :: 0 <= i < |d| ==> update(d[i].key, d[i].val) == Ok(r[i].val)
  {
    var front, e := d[..|d| - 1], d[|d| - 1];
    assert forall i :: 0 <= i < |front| ==> front[i] == d[i];
    var fr := UpdateRecords(update, front);
    if fr.Ok? && update(e.key, e.val).Ok? {
      var f, rec := fr.value, update(e.key, e.val).value;
      var r := f + [Entry(e.key, rec)];
      assert UpdateRecords(update, d) == Ok(r);
      KeysAppend(f, [Entry(e.key, rec)]);
      KeysAppend(front, [e]);
      assert d == front + [e];
      assert Keys([Entry(e.key, rec)]) == [e.key] == Keys([e]);
      forall i | 0 <= i < |d| ensures update(d[i].key, d[i].val) == Ok(r[i].val) {
        if i < |front| { assert r[i] == f[i]; }
      }
    }
  }

  /** What updating a profile's value does: its own rows, from its value. */
  function InfoUpdate(info: string -> string): (string, NetRecord) -> Result<NetRecord> {
    (name: string, rec: NetRecord) => ProfileRecord(rec, info(name))
  }

  /** What `get_passwords` returns on this host. */
  function Passwords(host: WindowsHost): (r: Result<Networks>)
    ensures r.Err? ==> r.error == IndexError
  {
    ProfileNamesSpec(host.profiles);
    var names :- ProfileNames(host.profiles);
    var t := NamedTemplates(names, Template);
    InfoUpdateIndexError(host.profileInfo);
    UpdateOnly(InfoUpdate(host.profileInfo), t);
    UpdateRecords(InfoUpdate(host.profileInfo), t)
  }

  /** The passwords are keyed by the profile names, each once, in first-listed
      order; each profile's record is its own rows read from the template. */
  lemma PasswordsSpec(host: WindowsHost)
    requires Passwords(host).Ok?
    ensures ProfileNames(host.profiles).Ok?
    ensures var d := Passwords(host).value;
      Keys(d) == Dedup(ProfileNames(host.profiles).value) && WellFormed(d) &&
      forall i :: 0 <= i < |d| ==> ProfileRecord(Template, host.profileInfo(d[i].key)) == Ok(d[i].val)
  {
    var names := ProfileNames(host.profiles).value;
    var t := NamedTemplates(names, Template);
    var update := InfoUpdate(host.profileInfo);
    UpdateRecordsSpec(update, t);
    var d := Passwords(host).value;
    assert d == UpdateRecords(update, t).value;
    forall i | 0 <= i < |d| ensures ProfileRecord(Template, host.profileInfo(d[i].key)) == Ok(d[i].val) {
      assert Keys(d)[i] == Keys(t)[i];
      assert update(t[i].key, t[i].val) == Ok(d[i].val);
    }
  }

  /** The exception of the update is the exception of an entry's update. */
  lemma {:induction false} UpdateOnly(update: (string, NetRecord) -> Result<NetRecord>, d: Networks)
    requires forall k, v :: update(k, v).Err? ==> update(k, v).error == IndexError
    ensures UpdateRecords(update, d).Err? ==> UpdateRecords(update, d).error == IndexError
  {
    if d != [] {
      UpdateOnly(update, d[..|d| - 1]);
    }
  }

  lemma InfoUpdateIndexError(info: string -> string)
    ensures forall k, v :: InfoUpdate(info)(k, v).Err? ==> InfoUpdate(info)(k, v).error == IndexError
  {
    forall k, v ensures InfoUpdate(info)(k, v).Err? ==> InfoUpdate(info)(k, v).error == IndexError {
      FoldRowsOnly(InfoStep, v, Rows(info(k)), IndexError);
    }
  }

  // ---------------------------------------------------------------------------
  // get_visible_networks

  /** What `get_visible_networks` returns: the command's text, `{}`, or the
      per-network dictionary, whose contents are not modelled. */
  datatype VisibleReport = VisibleText(text: string) | VisibleNone | VisiblePerNetwork

  predicate PoweredDown(host: WindowsHost) {
    Contains(host.networks, "powered down")
  }

  /** The new visible-network count, or the exception reading it. */
  function VisibleNumber(host: WindowsHost): Result<nat> {
    if PoweredDown(host) then Ok(0) else Patterns.VisibleCount(host.networks)
  }

  function VisibleResult(host: WindowsHost, asDictionary: bool): VisibleReport {
    if !asDictionary then VisibleText(host.networks)
    else if PoweredDown(host) then VisibleNone
    else VisiblePerNetwork
  }

  /** A powered-down radio: no networks, an empty dictionary, and no exception. */
  lemma PoweredDownSpec(host: WindowsHost, asDictionary: bool)
    requires PoweredDown(host)
    ensures VisibleNumber(host) == Ok(0)
    ensures asDictionary ==> VisibleResult(host, asDictionary) == VisibleNone
    ensures !asDictionary ==> VisibleResult(host, asDictionary) == VisibleText(host.networks)
  {
  }

  // ---------------------------------------------------------------------------
  // get_dns_config

  /** `dns_settings.strip().split('\r\n\r\n')`: one block per interface. */
  function DnsBlocks(settings: string): seq<string> {
    Split(Strip(settings), "\r\n\r\n")
  }

  /** `Static` for a statically configured block, else `DHCP` when it says so, else `None`. */
  function DnsKind(block: string): (r: string)
    ensures r == "Static" <==> Contains(block, "Statically")
    ensures r == "DHCP" <==> !Contains(block, "Statically") && Contains(block, "DHCP")
    ensures r == "None" <==> !Contains(block, "Statically") && !Contains(block, "DHCP")
  {
    if Contains(block, "Statically") then "Static"
    else if Contains(block, "DHCP") then "DHCP"
    else "None"
  }

  /** One block: the quoted interface name, the value of its second line and
      the suffix after `Register with which suffix:`, each stripped. */
  function BlockEntry(block: string): Result<Entry<DnsSetting>> {
    var name :- Item(block, "\"", 1);
    var second :- Item(block, "\r\n", 1);
    var dns :- Item(second, ": ", 1);
    var suffix :- Item(block, "Register with which suffix:", 1);
    Ok(Entry(Strip(name), DnsSetting(DnsKind(block), Strip(dns), Strip(suffix))))
  }

  function DnsStep(d: Dict<DnsSetting>, block: string): Result<Dict<DnsSetting>> {
    var e :- BlockEntry(block);
    Ok(Put(d, e.key, e.val))
  }

  /** `dns_dict` in dictionary form. */
  function DnsConfig(host: WindowsHost): (r: Result<Dict<DnsSetting>>)
    ensures r.Err? ==> r.error == IndexError
    ensures r.Ok? ==> WellFormed(r.value)
  {
    FoldRowsOnly(DnsStep, [], DnsBlocks(host.dnsSettings), IndexError);
    FoldRowsKeeps(DnsStep, WellFormed, [], DnsBlocks(host.dnsSettings));
    FoldRows(DnsStep, [], DnsBlocks(host.dnsSettings))
  }

  /** The entries of the blocks, in order, or the first block's exception. */
  function BlockEntries(blocks: seq<string>): Result<seq<Entry<DnsSetting>>> {
    if blocks == [] then Ok([])
    else
      var front :- BlockEntries(blocks[..|blocks| - 1]);
      var e :- BlockEntry(blocks[|blocks| - 1]);
      Ok(front + [e])
  }

  /** The DNS dictionary is the blocks' entries assigned in order: it raises when
      a block does, and otherwise holds each interface once, in first-seen
      order, with the setting of its last block. */
  lemma {:induction false} DnsConfigEntries(blocks: seq<string>)
    ensures FoldRows(DnsStep, [], blocks) ==
      match BlockEntries(blocks)
      case Err(e) => Err(e)
      case Ok(es) => Ok(FromEntries(es))
  {
    if blocks != [] {
      var front := blocks[..|blocks| - 1];
      DnsConfigEntries(front);
      var fe := BlockEntries(front);
      if fe.Ok? {
        var e := BlockEntry(blocks[|blocks| - 1]);
        if e.Ok? {
          assert (fe.value + [e.value])[..|fe.value|] == fe.value;
        }
      }
    }
  }

  /** There is always at least one block, and exactly one when the stripped
      output has no blank line. */
  lemma DnsBlocksCount(settings: string)
    ensures |DnsBlocks(settings)| >= 1
    ensures |DnsBlocks(settings)| == 1 <==> !Contains(Strip(settings), "\r\n\r\n")
  {
  }

  /** What `get_dns_config` returns. */
  datatype DnsReport = DnsText(text: string) | DnsMap(settings: Dict<DnsSetting>)

  // ---------------------------------------------------------------------------
  // The collector

  class WifiPasswordsWindows {
    var data: Networks
    var numberOfProfiles: nat
    var numberVisibleNetworks: nat
    var numberOfInterfaces: nat

    constructor()
      ensures data == [] && numberOfProfiles == 0 && numberVisibleNetworks == 0 && numberOfInterfaces == 0
    {
      data := [];
      numberOfProfiles := 0;
      numberVisibleNetworks := 0;
      numberOfInterfaces := 0;
    }

    /** One row of a profile's output: the four tests in order. */
    method ReadInfoRow(rec: NetRecord, row: string) returns (r: Result<NetRecord>)
      ensures r == InfoStep(rec, row)
    {
      var psk := ReadInfoField(row, "Key Content", rec.psk);
      if psk.Err? { return Err(psk.error); }
      var auth := ReadInfoField(row, "Authentication", rec.auth);
      if auth.Err? { return Err(auth.error); }
      var metered := rec.metered;
      if Contains(row, "Cost") {
        if Contains(row, "Fixed") || Contains(row, "Variable") {
          metered := true;
        }
      }
      var mac := ReadInfoField(row, "MAC Randomization", rec.macrandom);
      if mac.Err? { return Err(mac.error); }
      r := Ok(NetRecord(auth.value, psk.value, metered, mac.value));
    }

    /** `value[field] = row.split(': ')[1].strip()` when the row names the field. */
    method ReadInfoField(row: string, field: string, current: string) returns (r: Result<string>)
      ensures r == InfoField(row, field, current)
    {
      r := Ok(current);
      if Contains(row, field) {
        var v := Item(row, ": ", 1);
        if v.Err? { return Err(v.error); }
        r := Ok(Strip(v.value));
      }
    }

    /** The inner loop: one profile's value updated by its rows. */
    method ReadProfile(rec0: NetRecord, info: string) returns (r: Result<NetRecord>)
      ensures r == ProfileRecord(rec0, info)
    {
      r := ReadInfoRows(rec0, Rows(info));
    }

    /** The loop over the rows of a profile listing. */
    method ReadInfoRows(rec0: NetRecord, rows: seq<string>) returns (r: Result<NetRecord>)
      ensures r == FoldRows(InfoStep, rec0, rows)
    {
      var rec := rec0;
      var i := 0;
      while i < |rows|
        invariant 0 <= i <= |rows|
        invariant FoldRows(InfoStep, rec0, rows[..i]) == Ok(rec)
      {
        var next := ReadInfoRow(rec, rows[i]);
        if next.Err? { FoldRowsStop(InfoStep, rec0, rows, i, rec); return next; }
        FoldRowsNext(InfoStep, rec0, rows, i, rec);
        rec := next.value;
        i := i + 1;
      }
      FoldRowsDone(InfoStep, rec0, rows, rec);
      r := Ok(rec);
    }

    /** The outer loop: every value of `networks` updated where it stands. */
    method UpdateProfiles(info: string -> string, networks0: Networks) returns (r: Result<Networks>)
      ensures r == UpdateRecords(InfoUpdate(info), networks0)
    {
      var networks := networks0;
      var i := 0;
      while i < |networks0|
        invariant 0 <= i <= |networks0| && |networks| == |networks0|
        invariant UpdateRecords(InfoUpdate(info), networks0[..i]) == Ok(networks[..i])
        invariant networks[i..] == networks0[i..]
      {
        UpdateRecordsStep(InfoUpdate(info), networks0, i);
        SameAt(networks, networks0, i);
        var rec := ReadProfile(networks[i].val, info(networks[i].key));
        if rec.Err? { UpdateRecordsErr(InfoUpdate(info), networks0, i + 1); return Err(rec.error); }
        ReplaceAt(networks, networks0, i, Entry(networks0[i].key, rec.value));
        networks := networks[i := Entry(networks[i].key, rec.value)];
        i := i + 1;
      }
      assert networks0[..i] == networks0 && networks[..i] == networks;
      r := Ok(networks);
    }

    /** `get_passwords`: on success `data` is the result and
        `number_of_profiles` its size; an exception leaves the collector as it was. */
    method GetPasswords(host: WindowsHost) returns (r: Result<Networks>)
      modifies this
      ensures r == Passwords(host)
      ensures r.Ok? ==> data == r.value && numberOfProfiles == |r.value|
      ensures r.Err? ==> data == old(data) && numberOfProfiles == old(numberOfProfiles)
      ensures numberVisibleNetworks == old(numberVisibleNetworks) && numberOfInterfaces == old(numberOfInterfaces)
    {
      var names := ScanFields("User Profile", ": ", false, Rows(host.profiles));
      if names.Err? { return Err(names.error); }
      var networks := NamedTemplates(names.value, Template);
      r := UpdateProfiles(host.profileInfo, networks);
      if r.Ok? {
        numberOfProfiles := |r.value|;
        data := r.value;
      }
    }

    /** `get_passwords_dummy`: the made-up mapping becomes `data`. */
    method GetPasswordsDummy(quantity: int, choices: Dummy.Choices) returns (r: Networks)
      modifies this
      ensures r == Dummy.DummyData(quantity, choices) && data == r && numberOfProfiles == |r|
      ensures numberVisibleNetworks == old(numberVisibleNetworks) && numberOfInterfaces == old(numberOfInterfaces)
    {
      r := Dummy.DummyData(quantity, choices);
      numberOfProfiles := |r|;
      data := r;
    }

    /** `get_passwords_data`. */
    method GetPasswordsData() returns (r: Networks)
      ensures r == data
    {
      r := data;
    }

    /** `get_visible_networks`: the counter is zero when the radio is powered
        down and otherwise the count the output states; reading it can raise. */
    method GetVisibleNetworks(host: WindowsHost, asDictionary: bool) returns (r: Result<VisibleReport>)
      modifies this
      ensures match VisibleNumber(host)
        case Err(e) => r == Err(e) && numberVisibleNetworks == old(numberVisibleNetworks)
        case Ok(n) => r == Ok(VisibleResult(host, asDictionary)) && numberVisibleNetworks == n
      ensures data == old(data) && numberOfProfiles == old(numberOfProfiles) && numberOfInterfaces == old(numberOfInterfaces)
    {
      if Contains(host.networks, "powered down") {
        numberVisibleNetworks := 0;
      } else {
        var n := Patterns.VisibleCount(host.networks);
        if n.Err? { return Err(n.error); }
        numberVisibleNetworks := n.value;
      }
      if asDictionary {
        if !Contains(host.networks, "powered down") {
          r := Ok(VisiblePerNetwork);
        } else {
          r := Ok(VisibleNone);
        }
      } else {
        r := Ok(VisibleText(host.networks));
      }
    }

    /** `get_dns_config`: the counter is the number of blocks, set before the
        blocks are read, so it changes even when reading them raises. */
    method GetDnsConfig(host: WindowsHost, asDictionary: bool) returns (r: Result<DnsReport>)
      modifies this
      ensures numberOfInterfaces == |DnsBlocks(host.dnsSettings)|
      ensures !asDictionary ==> r == Ok(DnsText(host.dnsSettings))
      ensures asDictionary ==>
        match DnsConfig(host)
        case Err(e) => r == Err(e)
        case Ok(d) => r == Ok(DnsMap(d))
      ensures data == old(data) && numberOfProfiles == old(numberOfProfiles) && numberVisibleNetworks == old(numberVisibleNetworks)
    {
      var blocks := DnsBlocks(host.dnsSettings);
      numberOfInterfaces := |blocks|;
      if !asDictionary { return Ok(DnsText(host.dnsSettings)); }
      var d := ReadDnsBlocks(blocks);
      if d.Err? { return Err(d.error); }
      r := Ok(DnsMap(d.value));
    }

    /** The loop of `get_dns_config` over the blocks. */
    method ReadDnsBlocks(blocks: seq<string>) returns (r: Result<Dict<DnsSetting>>)
      ensures r == FoldRows(DnsStep, [], blocks)
    {
      var d: Dict<DnsSetting> := [];
      var i := 0;
      while i < |blocks|
        invariant 0 <= i <= |blocks|
        invariant FoldRows(DnsStep, [], blocks[..i]) == Ok(d)
      {
        FoldRowsNext(DnsStep, [], blocks, i, d);
        var e := ReadDnsBlock(blocks[i]);
        if e.Err? { FoldRowsStop(DnsStep, [], blocks, i, d); return Err(e.error); }
        d := Put(d, e.value.key, e.value.val);
        i := i + 1;
      }
      FoldRowsDone(DnsStep, [], blocks, d);
      r := Ok(d);
    }

    /** One block of `get_dns_config`. */
    method ReadDnsBlock(block: string) returns (r: Result<Entry<DnsSetting>>)
      ensures r == BlockEntry(block)
    {
      var name := Item(block, "\"", 1);
      if name.Err? { return Err(name.error); }
      var kind := "None";
      if Contains(block, "Statically") {
        kind := "Static";
      } else if Contains(block, "DHCP") {
        kind := "DHCP";
      }
      var second := Item(block, "\r\n", 1);
      if second.Err? { return Err(second.error); }
      var dns := Item(second.value, ": ", 1);
      if dns.Err? { return Err(dns.error); }
      var suffix := Item(block, "Register with which suffix:", 1);
      if suffix.Err? { return Err(suffix.error); }
      r := Ok(Entry(Strip(name.value), DnsSetting(kind, Strip(dns.value), Strip(suffix.value))));
    }

    /** `save_wpa_supplicant`: the lines written, from `data` when no mapping is given. */
    method SaveWpaSupplicant(given: Option<Networks>, includeOpen: bool, locale: string, h: Supplicant.Header)
      returns (lines: seq<string>)
      ensures lines == Supplicant.Rendered(Supplicant.Windows, if given.Some? then given.value else data, includeOpen, locale, h)
    {
      var d := if given.Some? then given.value else data;
      lines := Supplicant.WriteSupplicant(Supplicant.Windows, d, includeOpen, locale, h);
    }

    /** `get_number_visible_networks`: refreshes the counter through the text form. */
    method GetNumberVisibleNetworks(host: WindowsHost) returns (r: Result<nat>)
      modifies this
      ensures match VisibleNumber(host)
        case Err(e) => r == Err(e) && numberVisibleNetworks == old(numberVisibleNetworks)
        case Ok(n) => r == Ok(n) && numberVisibleNetworks == n
      ensures data == old(data) && numberOfProfiles == old(numberOfProfiles) && numberOfInterfaces == old(numberOfInterfaces)
    {
      var report := GetVisibleNetworks(host, false);
      if report.Err? { return Err(report.error); }
      r := Ok(numberVisibleNetworks);
    }

    /** `get_number_interfaces`: the number of DNS blocks. */
    method GetNumberInterfaces(host: WindowsHost) returns (n: nat)
      modifies this
      ensures n == numberOfInterfaces == |DnsBlocks(host.dnsSettings)|
      ensures data == old(data) && numberOfProfiles == old(numberOfProfiles) && numberVisibleNetworks == old(numberVisibleNetworks)
    {
      var report := GetDnsConfig(host, false);
      n := numberOfInterfaces;
    }

    /** `get_number_profiles`: collects only while the counter is zero. */
    method GetNumberProfiles(host: WindowsHost) returns (r: Result<nat>)
      modifies this
      ensures old(numberOfProfiles) != 0 ==> r == Ok(old(numberOfProfiles)) && data == old(data) && numberOfProfiles == old(numberOfProfiles)
      ensures old(numberOfProfiles) == 0 ==>
        match Passwords(host)
        case Err(e) => r == Err(e) && data == old(data) && numberOfProfiles == 0
        case Ok(d) => r == Ok(|d|) && data == d && numberOfProfiles == |d|
      ensures numberVisibleNetworks == old(numberVisibleNetworks) && numberOfInterfaces == old(numberOfInterfaces)
    {
      if numberOfProfiles == 0 {
        var p := GetPasswords(host);
        if p.Err? { return Err(p.error); }
      }
      r := Ok(numberOfProfiles);
    }

    /** `get_currently_connected_ssids`: the stripped value of every ` SSID` line. */
    method GetCurrentlyConnectedSsids(host: WindowsHost) returns (r: Result<seq<string>>)
      ensures r == FoldRows(FieldStep(" SSID", ":", true), [], Rows(host.interfaces))
    {
      r := ScanFields(" SSID", ":", true, Rows(host.interfaces));
    }
  }

  /** The connected names raise `IndexError` exactly when a ` SSID` line has no
      `:`; otherwise they are the stripped text after the first `:` of each
      such line, in order. A `BSSID` line alone never counts: ` SSID` needs the
      space before it. */
  lemma ConnectedSsidsSpec(output: string)
    ensures FoldRows(FieldStep(" SSID", ":", true), [], Rows(output)).Err? <==>
      exists i :: 0 <= i < |Rows(output)| && Unreadable(" SSID", ":", Rows(output)[i])
    ensures FoldRows(FieldStep(" SSID", ":", true), [], Rows(output)).Ok? ==>
      FoldRows(FieldStep(" SSID", ":", true), [], Rows(output)).value ==
      Collect(FieldPick(" SSID", ":", true), Rows(output))
  {
    FieldsFoldErr(" SSID", ":", true, Rows(output));
    if FoldRows(FieldStep(" SSID", ":", true), [], Rows(output)).Ok? {
      FieldsFold(" SSID", ":", true, Rows(output));
    }
  }
}
