/** What the Linux collector reads from `nmcli -t` output: profile names from
    the connection list, and a profile's record from its detail rows. In terse
    mode each row is `field:value`. */
module LinuxNmcli {
  import opened Py
  import opened PyDict
  import opened Records

  const KeyMgmtField := "802-11-wireless-security.key-mgmt"
  const PskField := "802-11-wireless-security.psk"
  const MeteredField := "connection.metered"
  const MacField := "802-11-wireless.cloned-mac-address"

  /** The record a profile has before its rows are read. */
  const OpenDefaults := NetRecord("Open", "", false, "Disabled")

  // ---------------------------------------------------------------------------
  // Detail rows

  /** A psk row sets the key to its value field. */
  function PskStep(psk: string, row: string): (r: Result<string>)
    ensures r.Err? ==> r.error == IndexError
  {
    if Contains(row, PskField) then Item(row, ":", 1) else Ok(psk)
  }

  /** One detail row, each field test in the order the collector makes them. */
  function DetailStep(rec: NetRecord, row: string): (r: Result<NetRecord>)
    ensures r.Err? ==> r.error == IndexError
  {
    var auth :- if Contains(row, KeyMgmtField) then Item(row, ":", 1) else Ok(rec.auth);
    var psk :- PskStep(rec.psk, row);
    var metered :-
      if Contains(row, MeteredField) then
        var v :- Item(row, ":", 1);
        Ok(rec.metered || Contains(v, "yes"))
      else Ok(rec.metered);
    var mac :-
      if Contains(row, MacField) then
        var v :- Item(row, ":", 1);
        Ok(if v != "" then v else rec.macrandom)
      else Ok(rec.macrandom);
    Ok(NetRecord(auth, psk, metered, mac))
  }

  /** The record read from the detail rows of one profile. */
  function DetailsRecord(output: string): Result<NetRecord> {
    FoldRows(DetailStep, OpenDefaults, Split(output, "\n"))
  }

  // Reference definitions of the record, field by field

  predicate Mentions(row: string) {
    Contains(row, KeyMgmtField) || Contains(row, PskField) || Contains(row, MeteredField) || Contains(row, MacField)
  }

  predicate MeteredYes(row: string) {
    Contains(row, MeteredField) && Contains(SecondOr(row, ":", ""), "yes")
  }

  /** The last non-empty cloned-mac-address value, or `d`. */
  function LastNonEmptyMac(rows: seq<string>, d: string): string {
    if rows == [] then d
    else
      var row := rows[|rows| - 1];
      if Contains(row, MacField) && SecondOr(row, ":", "") != "" then SecondOr(row, ":", "")
      else LastNonEmptyMac(rows[..|rows| - 1], d)
  }

  /** One detail row raises exactly when it names a field and has no `:`;
      otherwise each field it names takes that row's value field. */
  lemma DetailStepSpec(rec: NetRecord, row: string)
    ensures DetailStep(rec, row).Err? <==> Mentions(row) && !Contains(row, ":")
    ensures DetailStep(rec, row).Ok? ==>
      var v := SecondOr(row, ":", "");
      DetailStep(rec, row).value == NetRecord(
        if Contains(row, KeyMgmtField) then v else rec.auth,
        if Contains(row, PskField) then v else rec.psk,
        rec.metered || MeteredYes(row),
        if Contains(row, MacField) && v != "" then v else rec.macrandom)
  {
    if Contains(row, ":") { SecondOrOk(row, ":"); } else { SecondItem(row, ":"); }
  }

  /** The detail rows raise `IndexError` exactly when a row naming one of the
      four fields has no `:`. */
  lemma DetailsFoldErr(rows: seq<string>)
    ensures FoldRows(DetailStep, OpenDefaults, rows).Err? <==>
      exists i :: 0 <= i < |rows| && Mentions(rows[i]) && !Contains(rows[i], ":")
  {
    forall rec, row ensures DetailStep(rec, row).Err? <==> Mentions(row) && !Contains(row, ":") {
      DetailStepSpec(rec, row);
    }
    FoldRowsFails(DetailStep, (row: string) => Mentions(row) && !Contains(row, ":"), OpenDefaults, rows);
  }

  /** When they read, auth and psk are the value fields of the last key-mgmt
      and psk rows (`Open` and `''` when there are none), metered holds exactly
      when some metered row's value contains `yes`, and macrandom is the last
      non-empty cloned-mac-address value (`Disabled` when none). */
  lemma DetailsFold(rows: seq<string>)
    requires FoldRows(DetailStep, OpenDefaults, rows).Ok?
    ensures var r := FoldRows(DetailStep, OpenDefaults, rows).value;
      r.auth == LastValue(rows, KeyMgmtField, "Open") &&
      r.psk == LastValue(rows, PskField, "") &&
      (r.metered <==> exists i :: 0 <= i < |rows| && MeteredYes(rows[i])) &&
      r.macrandom == LastNonEmptyMac(rows, "Disabled")
  {
    DetailsKeys(rows);
    DetailsMetered(rows);
    DetailsMac(rows);
  }

  lemma {:induction false} DetailsKeys(rows: seq<string>)
    requires FoldRows(DetailStep, OpenDefaults, rows).Ok?
    ensures var r := FoldRows(DetailStep, OpenDefaults, rows).value;
      r.auth == LastValue(rows, KeyMgmtField, "Open") && r.psk == LastValue(rows, PskField, "")
  {
    if rows != [] {
      var front, row := rows[..|rows| - 1], rows[|rows| - 1];
      assert rows == front + [row];
      DetailsKeys(front);
      LastValueSnoc(front, row, KeyMgmtField, "Open");
      LastValueSnoc(front, row, PskField, "");
      DetailStepSpec(FoldRows(DetailStep, OpenDefaults, front).value, row);
    }
  }

  lemma {:induction false} DetailsMetered(rows: seq<string>)
    requires FoldRows(DetailStep, OpenDefaults, rows).Ok?
    ensures FoldRows(DetailStep, OpenDefaults, rows).value.metered <==>
      exists i :: 0 <= i < |rows| && MeteredYes(rows[i])
  {
    if rows != [] {
      var front, row := rows[..|rows| - 1], rows[|rows| - 1];
      DetailsMetered(front);
      assert forall i :: 0 <= i < |front| ==> front[i] == rows[i];
      DetailStepSpec(FoldRows(DetailStep, OpenDefaults, front).value, row);
    }
  }

  lemma {:induction false} DetailsMac(rows: seq<string>)
    requires FoldRows(DetailStep, OpenDefaults, rows).Ok?
    ensures FoldRows(DetailStep, OpenDefaults, rows).value.macrandom == LastNonEmptyMac(rows, "Disabled")
  {
    if rows != [] {
      var front, row := rows[..|rows| - 1], rows[|rows| - 1];
      DetailsMac(front);
      DetailStepSpec(FoldRows(DetailStep, OpenDefaults, front).value, row);
    }
  }

  /** A profile with no rows naming the four fields keeps the defaults. */
  lemma DetailsDefaults(output: string)
    requires forall i :: 0 <= i < |Split(output, "\n")| ==> !Mentions(Split(output, "\n")[i])
    ensures DetailsRecord(output) == Ok(OpenDefaults)
  {
    var rows := Split(output, "\n");
    DetailsFoldErr(rows);
    DetailsFold(rows);
    var r := DetailsRecord(output).value;
    assert LastMatch(rows, KeyMgmtField).None? && LastMatch(rows, PskField).None?;
    NoMacDefault(rows, "Disabled");
  }

  lemma {:induction false} NoMacDefault(rows: seq<string>, d: string)
    requires forall i :: 0 <= i < |rows| ==> !Contains(rows[i], MacField)
    ensures LastNonEmptyMac(rows, d) == d
  {
    if rows != [] {
      var front := rows[..|rows| - 1];
      assert forall i :: 0 <= i < |front| ==> front[i] == rows[i];
      NoMacDefault(front, d);
    }
  }

  /** The key read from psk rows alone (`''` when there is none), and when it
      raises `IndexError`. */
  lemma {:induction false} PskFold(rows: seq<string>)
    ensures FoldRows(PskStep, "", rows).Err? <==>
      exists i :: 0 <= i < |rows| && Contains(rows[i], PskField) && !Contains(rows[i], ":")
    ensures FoldRows(PskStep, "", rows).Ok? ==> FoldRows(PskStep, "", rows).value == LastValue(rows, PskField, "")
    ensures FoldRows(PskStep, "", rows).Err? ==> FoldRows(PskStep, "", rows).error == IndexError
  {
    if rows != [] {
      var front, row := rows[..|rows| - 1], rows[|rows| - 1];
      assert rows == front + [row];
      PskFold(front);
      assert forall i :: 0 <= i < |front| ==> front[i] == rows[i];
      LastValueSnoc(front, row, PskField, "");
      if Contains(row, ":") { SecondOrOk(row, ":"); } else { SecondItem(row, ":"); }
    }
  }

  // ---------------------------------------------------------------------------
  // Profile names

  /** The first `:` at or after `from` that does not follow a backslash. */
  function BareColonFrom(row: string, from: nat): (r: Option<nat>)
    decreases |row| - from
    ensures r.Some? ==> from <= r.value < |row| && row[r.value] == ':' && (r.value == 0 || row[r.value - 1] != '\\')
    ensures r.Some? ==> forall j :: from <= j < r.value && row[j] == ':' ==> j > 0 && row[j - 1] == '\\'
    ensures r.None? ==> forall j :: from <= j < |row| && row[j] == ':' ==> j > 0 && row[j - 1] == '\\'
  {
    if from >= |row| then None
    else if row[from] == ':' && (from == 0 || row[from - 1] != '\\') then Some(from)
    else BareColonFrom(row, from + 1)
  }

  /** `re.split(r"(?<!\\):", row)[0]`: the text before the first `:` that does
      not follow a backslash (the whole row when there is none). */
  function ProfileName(row: string): (r: string)
    ensures StartsWith(row, r)
  {
    match BareColonFrom(row, 0)
    case None => row
    case Some(i) => row[..i]
  }

  /** Every `:` in the name is escaped by a backslash, as `nmcli -t` writes it. */
  predicate NoBareColon(n: string) {
    forall j :: 0 <= j < |n| && n[j] == ':' ==> j > 0 && n[j - 1] == '\\'
  }

  /** The name is read back from `name:type` when its colons are escaped and it
      does not end with a backslash. */
  lemma ProfileNameOf(n: string, t: string)
    requires NoBareColon(n) && (n == [] || n[|n| - 1] != '\\')
    ensures ProfileName(n + ":" + t) == n
  {
    var row := n + ":" + t;
    assert row[|n|] == ':';
    assert forall j :: 0 <= j < |n| ==> row[j] == n[j];
    var i := BareColonFrom(row, 0);
    assert i.Some? && i.value == |n|;
    assert row[..|n|] == n;
  }

  /** A name that ends with a backslash is not cut at the field separator: the
      whole row is taken as the name. */
  lemma ProfileNameTrailingBackslash(n: string, t: string)
    requires n != [] && n[|n| - 1] == '\\' && ':' !in n && ':' !in t
    ensures ProfileName(n + ":" + t) == n + ":" + t
  {
    var row := n + ":" + t;
    assert forall j :: 0 <= j < |row| && row[j] == ':' ==> j == |n|;
    assert BareColonFrom(row, 0).None?;
  }

  /** The profile names of the wireless rows of `nmcli -t -f NAME,TYPE c`, in
      listing order and with repeats. */
  function WirelessNames(rows: seq<string>): seq<string> {
    if rows == [] then []
    else
      var row := rows[|rows| - 1];
      WirelessNames(rows[..|rows| - 1]) + (if Contains(row, "802-11-wireless") then [ProfileName(row)] else [])
  }

  function ProfileNames(listing: string): seq<string> {
    WirelessNames(Split(listing, "\n"))
  }

  /** A name is listed exactly when some wireless row carries it. */
  lemma {:induction false} WirelessNamesMembers(rows: seq<string>, n: string)
    ensures n in WirelessNames(rows) <==>
      exists i :: 0 <= i < |rows| && Contains(rows[i], "802-11-wireless") && ProfileName(rows[i]) == n
  {
    if rows != [] {
      var front := rows[..|rows| - 1];
      WirelessNamesMembers(front, n);
      assert forall i :: 0 <= i < |front| ==> front[i] == rows[i];
    }
  }

  // ---------------------------------------------------------------------------
  // The pooled collection

  /** One profile as a worker reads it: `read` gives its record, or raises. */
  function ProfileStep(read: string -> Result<NetRecord>): (Networks, string) -> Result<Networks> {
    (d: Networks, name: string) =>
      var rec :- read(name);
      Ok(Put(d, name, rec))
  }

  /** `dict(pool.imap(worker, networks.items()))` as a sequential map over the names. */
  function CollectProfiles(read: string -> Result<NetRecord>, names: seq<string>): Result<Networks> {
    FoldRows(ProfileStep(read), [], names)
  }

  /** The worker of the Linux collector: the detail output of the named profile only. */
  function DetailsReader(details: string -> string): string -> Result<NetRecord> {
    (name: string) => DetailsRecord(details(name))
  }

  function NmcliNetworks(names: seq<string>, details: string -> string): Result<Networks> {
    CollectProfiles(DetailsReader(details), names)
  }

  lemma ProfileStepSpec(read: string -> Result<NetRecord>, d: Networks, name: string)
    ensures ProfileStep(read)(d, name) ==
      match read(name)
      case Err(e) => Err(e)
      case Ok(rec) => Ok(Put(d, name, rec))
  {
  }

  /** The collection raises exactly when some profile's worker does, and with
      the exception of one of them. */
  lemma CollectProfilesErr(read: string -> Result<NetRecord>, names: seq<string>)
    ensures CollectProfiles(read, names).Err? <==> exists i :: 0 <= i < |names| && read(names[i]).Err?
    ensures CollectProfiles(read, names).Err? ==>
      exists i :: 0 <= i < |names| && read(names[i]) == Err(CollectProfiles(read, names).error)
  {
    forall d, name ensures ProfileStep(read)(d, name).Err? <==> read(name).Err? {
      ProfileStepSpec(read, d, name);
    }
    FoldRowsFails(ProfileStep(read), (name: string) => read(name).Err?, [], names);
    forall d, name | ProfileStep(read)(d, name).Err? ensures read(name) == Err(ProfileStep(read)(d, name).error) {
      ProfileStepSpec(read, d, name);
    }
    FoldRowsRaised(ProfileStep(read), (name: string, e: PyError) => read(name) == Err(e), [], names);
  }

  /** When every worker succeeds, the map has the names in order and maps each
      to what its own worker returned. */
  lemma {:induction false} CollectProfilesOk(read: string -> Result<NetRecord>, names: seq<string>)
    requires Distinct(names) && CollectProfiles(read, names).Ok?
    ensures var d := CollectProfiles(read, names).value;
      Keys(d) == names && WellFormed(d) &&
      forall i :: 0 <= i < |names| ==> read(names[i]) == Ok(d[i].val)
  {
    if names != [] {
      var front := names[..|names| - 1];
      assert Distinct(front) by { assert forall i :: 0 <= i < |front| ==> front[i] == names[i]; }
      assert CollectProfiles(read, front).Ok?;
      CollectProfilesOk(read, front);
      CollectProfilesSnoc(read, names);
    }
  }

  /** The last name goes after the names before it. */
  lemma CollectProfilesSnoc(read: string -> Result<NetRecord>, names: seq<string>)
    requires names != [] && Distinct(names) && CollectProfiles(read, names).Ok?
    requires CollectProfiles(read, names[..|names| - 1]).Ok?
    requires var front, d := names[..|names| - 1], CollectProfiles(read, names[..|names| - 1]).value;
      Keys(d) == front && WellFormed(d) && forall i :: 0 <= i < |front| ==> read(front[i]) == Ok(d[i].val)
    ensures var d := CollectProfiles(read, names).value;
      Keys(d) == names && WellFormed(d) &&
      forall i :: 0 <= i < |names| ==> read(names[i]) == Ok(d[i].val)
  {
    var front, name := names[..|names| - 1], names[|names| - 1];
    var d0 := CollectProfiles(read, front).value;
    assert CollectProfiles(read, names) == ProfileStep(read)(d0, name);
    ProfileStepSpec(read, d0, name);
    var rec := read(name).value;
    assert name !in Keys(d0) by {
      forall i | 0 <= i < |front| ensures front[i] != name { assert front[i] == names[i]; }
    }
    PutAbsent(d0, name, rec);
    var d := d0 + [Entry(name, rec)];
    assert CollectProfiles(read, names).value == d;
    KeysAppend(d0, [Entry(name, rec)]);
    assert Keys([Entry(name, rec)]) == [name];
    assert Keys(d) == names by { assert front + [name] == names; }
    forall i | 0 <= i < |names| ensures read(names[i]) == Ok(d[i].val) {
      if i < |front| { assert names[i] == front[i] && d[i] == d0[i]; }
    }
  }

  /** Detail rows raise nothing but `IndexError`. */
  lemma DetailsIndexError(output: string)
    ensures DetailsRecord(output).Err? ==> DetailsRecord(output).error == IndexError
  {
    FoldRowsOnly(DetailStep, OpenDefaults, Split(output, "\n"), IndexError);
  }

  /** The NetworkManager branch raises `IndexError` exactly when some profile's
      detail rows do; otherwise it maps the names, in order, to their records. */
  lemma NmcliNetworksSpec(names: seq<string>, details: string -> string)
    requires Distinct(names)
    ensures NmcliNetworks(names, details).Err? <==>
      exists i :: 0 <= i < |names| && DetailsRecord(details(names[i])).Err?
    ensures NmcliNetworks(names, details).Err? ==> NmcliNetworks(names, details).error == IndexError
    ensures NmcliNetworks(names, details).Ok? ==>
      var d := NmcliNetworks(names, details).value;
      Keys(d) == names && WellFormed(d) &&
      forall i :: 0 <= i < |names| ==> DetailsRecord(details(names[i])) == Ok(d[i].val)
  {
    var read := DetailsReader(details);
    assert forall n :: read(n) == DetailsRecord(details(n));
    CollectProfilesErr(read, names);
    var r := NmcliNetworks(names, details);
    if r.Err? {
      var i :| 0 <= i < |names| && read(names[i]) == Err(r.error);
      DetailsIndexError(details(names[i]));
    } else {
      CollectProfilesOk(read, names);
    }
  }
}
