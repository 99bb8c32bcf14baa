/** What the Linux collector reads from `/etc/wpa_supplicant/wpa_supplicant.conf`
    when NetworkManager is not configured: the `network={…}` blocks, and in
    each block the `ssid`, `key_mgmt` and `psk` lines. */
module LinuxWpaFile {
  import opened Py
  import opened PyDict
  import opened Records
  import opened Patterns

  /** The three values a block is read into. */
  datatype BlockFields = BlockFields(ssid: string, auth: string, psk: string)

  /** A value the block does not set stays a single space. */
  const Unset := BlockFields(" ", " ", " ")

  /** A line naming `name` sets the value to the quoted text after `name=`;
      the name and key tests of every block read have this shape. */
  function QuotedStep(name: string): (string, string) -> Result<string> {
    (cur: string, item: string) =>
      if Contains(item, name) then
        var v :- Item(item, name + "=", 1);
        Ok(Inner(v))
      else Ok(cur)
  }

  /** `NONE` in any letter case is reported as `Open`; other values verbatim. */
  function KeyMgmtAuth(v: string): (r: string)
    ensures UpperIsNone(v) ==> r == "Open"
    ensures !UpperIsNone(v) ==> r == v
  {
    if UpperIsNone(v) then "Open" else v
  }

  function KeyMgmtStep(auth: string, item: string): (r: Result<string>)
    ensures r.Err? ==> r.error == IndexError
  {
    if Contains(item, "key_mgmt") then
      var v :- Item(item, "key_mgmt=", 1);
      Ok(KeyMgmtAuth(v))
    else Ok(auth)
  }

  /** One line of a block: the `ssid`, `key_mgmt` and `psk` tests in order. */
  function BlockStep(f: BlockFields, item: string): (r: Result<BlockFields>)
    ensures r.Err? ==> r.error == IndexError
  {
    var ssid :- QuotedStep("ssid")(f.ssid, item);
    var auth :- KeyMgmtStep(f.auth, item);
    var psk :- QuotedStep("psk")(f.psk, item);
    Ok(BlockFields(ssid, auth, psk))
  }

  /** `block.strip().replace('\t', '').split('\n')`. */
  function BlockItems(block: string): seq<string> {
    Split(ReplaceChar(Strip(block), '\t', ""), "\n")
  }

  function BlockRead(block: string): Result<BlockFields> {
    FoldRows(BlockStep, Unset, BlockItems(block))
  }

  /** The record a block assigns to its name: its auth and key, unmetered,
      with MAC randomisation `Disabled`. */
  function FileEntry(block: string): Result<Option<Entry<NetRecord>>> {
    var f :- BlockRead(block);
    Ok(Some(Entry(f.ssid, NetRecord(f.auth, f.psk, false, "Disabled"))))
  }

  /** A block adds (or replaces) the record of its name. */
  function FileStep(d: Networks, block: string): Result<Networks> {
    PutRead(d, FileEntry(block))
  }

  /** The blocks of the file: `re.findall('(?<=network={)[^}]*(?=})', file)`. */
  function FileBlocks(file: string): seq<string> {
    Blocks(file, "network={")
  }

  /** The wpa_supplicant branch of `get_passwords`. */
  function FileNetworks(file: string): Result<Networks> {
    FoldRows(FileStep, [], FileBlocks(file))
  }

  // ---------------------------------------------------------------------------
  // What a block reads as

  /** `item.split(sep)[1]` after the quotes are dropped, for the line known to name it. */
  function Unquoted(item: string, sep: string): string
    requires sep != []
  {
    Inner(SecondOr(item, sep, ""))
  }

  /** A line names a value but lacks the `=` that introduces it. */
  predicate Broken(item: string) {
    (Contains(item, "ssid") && !Contains(item, "ssid=")) ||
    (Contains(item, "key_mgmt") && !Contains(item, "key_mgmt=")) ||
    (Contains(item, "psk") && !Contains(item, "psk="))
  }

  /** A line raises `IndexError` exactly when it names `name` without `name=`;
      otherwise a line naming `name` gives its quote-stripped value and any other
      line keeps the current one. */
  lemma QuotedStepSpec(name: string, cur: string, item: string)
    ensures QuotedStep(name)(cur, item).Err? <==> Contains(item, name) && !Contains(item, name + "=")
    ensures QuotedStep(name)(cur, item).Err? ==> QuotedStep(name)(cur, item).error == IndexError
    ensures QuotedStep(name)(cur, item).Ok? ==>
      QuotedStep(name)(cur, item).value == if Contains(item, name) then Unquoted(item, name + "=") else cur
  {
    if Contains(item, name + "=") { SecondOrOk(item, name + "="); } else { SecondOrErr(item, name + "="); }
  }

  /** One line raises exactly when it is broken; otherwise each value it names
      takes that line's value. */
  lemma BlockStepSpec(f: BlockFields, item: string)
    ensures BlockStep(f, item).Err? <==> Broken(item)
    ensures BlockStep(f, item).Ok? ==>
      BlockStep(f, item).value == BlockFields(
        if Contains(item, "ssid") then Unquoted(item, "ssid=") else f.ssid,
        if Contains(item, "key_mgmt") then KeyMgmtAuth(SecondOr(item, "key_mgmt=", "")) else f.auth,
        if Contains(item, "psk") then Unquoted(item, "psk=") else f.psk)
  {
    assert "ssid" + "=" == "ssid=" && "psk" + "=" == "psk=";
    QuotedStepSpec("ssid", f.ssid, item);
    QuotedStepSpec("psk", f.psk, item);
    if Contains(item, "key_mgmt=") { SecondOrOk(item, "key_mgmt="); } else { SecondOrErr(item, "key_mgmt="); }
  }

  /** The quote-stripped value named by the last line containing `needle`, or
      `d` when no line contains it. */
  function LastQuoted(items: seq<string>, needle: string, sep: string, d: string): string
    requires sep != []
  {
    match LastMatch(items, needle)
    case None => d
    case Some(i) => Unquoted(items[i], sep)
  }

  lemma LastMatchSnoc(items: seq<string>, item: string, needle: string)
    ensures LastMatch(items + [item], needle) ==
      if Contains(item, needle) then Some(|items|) else LastMatch(items, needle)
  {
    assert (items + [item])[..|items|] == items;
  }

  /** A block raises `IndexError` exactly when one of its lines is broken. */
  lemma BlockReadErr(items: seq<string>)
    ensures FoldRows(BlockStep, Unset, items).Err? <==> exists i :: 0 <= i < |items| && Broken(items[i])
  {
    forall f, item ensures BlockStep(f, item).Err? <==> Broken(item) {
      BlockStepSpec(f, item);
    }
    FoldRowsFails(BlockStep, Broken, Unset, items);
  }

  /** A block that reads gives the quoted name and key of its last `ssid` and
      `psk` lines and the name of its last `key_mgmt` line (`Open` for `NONE` in
      any case); what the block does not name stays a single space. */
  lemma BlockReadFields(items: seq<string>)
    requires FoldRows(BlockStep, Unset, items).Ok?
    ensures var f := FoldRows(BlockStep, Unset, items).value;
      f.ssid == LastQuoted(items, "ssid", "ssid=", " ") &&
      f.psk == LastQuoted(items, "psk", "psk=", " ") &&
      f.auth == match LastMatch(items, "key_mgmt")
                case None => " "
                case Some(i) => KeyMgmtAuth(SecondOr(items[i], "key_mgmt=", ""))
  {
    BlockReadQuoted(items);
    BlockReadAuth(items);
  }

  lemma {:induction false} BlockReadQuoted(items: seq<string>)
    requires FoldRows(BlockStep, Unset, items).Ok?
    ensures var f := FoldRows(BlockStep, Unset, items).value;
      f.ssid == LastQuoted(items, "ssid", "ssid=", " ") && f.psk == LastQuoted(items, "psk", "psk=", " ")
  {
    if items != [] {
      var front, item := items[..|items| - 1], items[|items| - 1];
      assert items == front + [item];
      BlockReadQuoted(front);
      LastMatchSnoc(front, item, "ssid");
      LastMatchSnoc(front, item, "psk");
      BlockStepSpec(FoldRows(BlockStep, Unset, front).value, item);
    }
  }

  lemma {:induction false} BlockReadAuth(items: seq<string>)
    requires FoldRows(BlockStep, Unset, items).Ok?
    ensures FoldRows(BlockStep, Unset, items).value.auth ==
      match LastMatch(items, "key_mgmt")
      case None => " "
      case Some(i) => KeyMgmtAuth(SecondOr(items[i], "key_mgmt=", ""))
  {
    if items != [] {
      var front, item := items[..|items| - 1], items[|items| - 1];
      assert items == front + [item];
      BlockReadAuth(front);
      LastMatchSnoc(front, item, "key_mgmt");
      BlockStepSpec(FoldRows(BlockStep, Unset, front).value, item);
    }
  }

  /** Every record from the file is unmetered with MAC randomisation `Disabled`,
      and no name appears twice. */
  lemma {:induction false} FileRecordsFixed(blocks: seq<string>)
    requires FoldRows(FileStep, [], blocks).Ok?
    ensures var d := FoldRows(FileStep, [], blocks).value;
      WellFormed(d) && forall i :: 0 <= i < |d| ==> !d[i].val.metered && d[i].val.macrandom == "Disabled"
  {
    if blocks != [] {
      var front := blocks[..|blocks| - 1];
      FileRecordsFixed(front);
      var d := FoldRows(FileStep, [], front).value;
      var f := BlockRead(blocks[|blocks| - 1]).value;
      var rec := NetRecord(f.auth, f.psk, false, "Disabled");
      var d' := Put(d, f.ssid, rec);
      forall i | 0 <= i < |d'| ensures !d'[i].val.metered && d'[i].val.macrandom == "Disabled" {
        LookupAt(d', i);
        if d'[i].key != f.ssid {
          var j :| 0 <= j < |d| && d[j] == Entry(d'[i].key, d'[i].val);
        }
      }
    }
  }

  /** The file's passwords raise nothing but `IndexError`; otherwise every record
      is unmetered with MAC randomisation `Disabled`, and no name appears twice. */
  lemma FileNetworksSpec(file: string)
    ensures FileNetworks(file).Err? ==> FileNetworks(file).error == IndexError
    ensures FileNetworks(file).Ok? ==>
      var d := FileNetworks(file).value;
      WellFormed(d) && forall i :: 0 <= i < |d| ==> !d[i].val.metered && d[i].val.macrandom == "Disabled"
  {
    forall d, block ensures FileStep(d, block).Err? ==> FileStep(d, block).error == IndexError {
      FoldRowsOnly(BlockStep, Unset, BlockItems(block), IndexError);
    }
    FoldRowsOnly(FileStep, [], FileBlocks(file), IndexError);
    if FileNetworks(file).Ok? { FileRecordsFixed(FileBlocks(file)); }
  }

  /** The file's passwords are the dictionary built from the blocks' records,
      in file order, or the first exception. */
  lemma FileNetworksEntries(file: string)
    ensures FileNetworks(file) ==
      match EntriesOf(FileEntry, FileBlocks(file))
      case Err(e) => Err(e)
      case Ok(es) => Ok(FromEntries(es))
  {
    FoldPutEntries(FileStep, FileEntry, FileBlocks(file));
  }

  /** When the file's passwords read, every block reads, and a name holds the
      record of the last block with that name: that block's auth and key,
      unmetered, with MAC randomisation `Disabled`. */
  lemma FileNetworksLast(file: string, i: nat)
    requires FileNetworks(file).Ok? && i < |FileBlocks(file)|
    ensures forall j :: 0 <= j < |FileBlocks(file)| ==> BlockRead(FileBlocks(file)[j]).Ok?
    ensures var bs := FileBlocks(file);
      var f := BlockRead(bs[i]).value;
      (forall j :: i < j < |bs| ==> BlockRead(bs[j]).value.ssid != f.ssid) ==>
        Lookup(FileNetworks(file).value, f.ssid) == Some(NetRecord(f.auth, f.psk, false, "Disabled"))
  {
    var bs := FileBlocks(file);
    FileNetworksEntries(file);
    EntriesOfErr(FileEntry, bs);
    assert forall j :: 0 <= j < |bs| ==> FileEntry(bs[j]).Ok?;
    var f := BlockRead(bs[i]).value;
    if forall j :: i < j < |bs| ==> BlockRead(bs[j]).value.ssid != f.ssid {
      assert forall j :: i < j < |bs| ==> !Assigns(FileEntry(bs[j]), f.ssid);
      EntriesOfLast(FileEntry, bs, i, f.ssid, NetRecord(f.auth, f.psk, false, "Disabled"));
    }
  }

  // ---------------------------------------------------------------------------
  // `get_known_ssids`: the names alone

  function BlockSsid(block: string): Result<string> {
    FoldRows(QuotedStep("ssid"), " ", BlockItems(block))
  }

  function KnownStep(ssids: seq<string>, block: string): Result<seq<string>> {
    var s :- BlockSsid(block);
    Ok(ssids + [s])
  }

  /** The wpa_supplicant branch of `get_known_ssids`: one name per block, repeats kept. */
  function FileSsids(file: string): Result<seq<string>> {
    FoldRows(KnownStep, [], FileBlocks(file))
  }

  /** Reading only the names of a block gives the name the full reading gives. */
  lemma {:induction false} BlockSsidAgrees(items: seq<string>)
    requires FoldRows(BlockStep, Unset, items).Ok?
    ensures FoldRows(QuotedStep("ssid"), " ", items) == Ok(FoldRows(BlockStep, Unset, items).value.ssid)
  {
    if items != [] {
      var front, item := items[..|items| - 1], items[|items| - 1];
      BlockSsidAgrees(front);
    }
  }

  /** When the passwords of the file read, its known names read too, and the
      passwords' keys are those names without repeats, in first-seen order. */
  lemma {:induction false} KnownMatchesPasswords(blocks: seq<string>)
    requires FoldRows(FileStep, [], blocks).Ok?
    ensures FoldRows(KnownStep, [], blocks).Ok?
    ensures Keys(FoldRows(FileStep, [], blocks).value) == Dedup(FoldRows(KnownStep, [], blocks).value)
  {
    if blocks != [] {
      var front, block := blocks[..|blocks| - 1], blocks[|blocks| - 1];
      KnownMatchesPasswords(front);
      BlockSsidAgrees(BlockItems(block));
      var ks := FoldRows(KnownStep, [], front).value;
      var f := BlockRead(block).value;
      assert FoldRows(KnownStep, [], blocks).value == ks + [f.ssid];
      assert (ks + [f.ssid])[..|ks|] == ks;
    }
  }

  // ---------------------------------------------------------------------------
  // Blocks read word by word, as the connected and single-password lookups do

  /** `block.strip().replace('\t', '').replace('\n', ' ').split(' ')`. */
  function BlockWords(block: string): seq<string> {
    Split(ReplaceChar(ReplaceChar(Strip(block), '\t', ""), '\n', " "), " ")
  }

  /** The blocks the lookups read: `re.findall('(?<=network=)[^}]*(?=})', file)`,
      each starting with the `{`. */
  function LookupBlocks(file: string): seq<string> {
    Blocks(file, "network=")
  }

  /** One word, for the name and the key. */
  function PairStep(p: (string, string), word: string): (r: Result<(string, string)>)
    ensures r.Err? ==> r.error == IndexError
  {
    var ssid :- QuotedStep("ssid")(p.0, word);
    var psk :- QuotedStep("psk")(p.1, word);
    Ok((ssid, psk))
  }

  /** The `(ssid, psk)` pair of a block, both `''` when not named. */
  function BlockPair(block: string): Result<(string, string)> {
    FoldRows(PairStep, ("", ""), BlockWords(block))
  }

  /** A word that names the SSID or the key without the `=` that introduces it. */
  predicate BrokenWord(word: string) {
    (Contains(word, "ssid") && !Contains(word, "ssid=")) ||
    (Contains(word, "psk") && !Contains(word, "psk="))
  }

  /** One word raises exactly when it is broken; otherwise the name and the key
      each take the word's value when the word names them. */
  lemma PairStepSpec(p: (string, string), word: string)
    ensures PairStep(p, word).Err? <==> BrokenWord(word)
    ensures PairStep(p, word).Ok? ==>
      PairStep(p, word).value == (
        if Contains(word, "ssid") then Unquoted(word, "ssid=") else p.0,
        if Contains(word, "psk") then Unquoted(word, "psk=") else p.1)
  {
    assert "ssid" + "=" == "ssid=" && "psk" + "=" == "psk=";
    QuotedStepSpec("ssid", p.0, word);
    QuotedStepSpec("psk", p.1, word);
  }

  /** The words of a block raise `IndexError` exactly when one of them is broken;
      otherwise the pair is the quoted values of the last words naming `ssid` and
      `psk`, each `''` when no word names it. */
  lemma BlockPairFields(words: seq<string>)
    ensures FoldRows(PairStep, ("", ""), words).Err? <==> exists i :: 0 <= i < |words| && BrokenWord(words[i])
    ensures FoldRows(PairStep, ("", ""), words).Err? ==> FoldRows(PairStep, ("", ""), words).error == IndexError
    ensures FoldRows(PairStep, ("", ""), words).Ok? ==>
      FoldRows(PairStep, ("", ""), words).value ==
        (LastQuoted(words, "ssid", "ssid=", ""), LastQuoted(words, "psk", "psk=", ""))
  {
    forall p, w ensures PairStep(p, w).Err? <==> BrokenWord(w) {
      PairStepSpec(p, w);
    }
    FoldRowsFails(PairStep, BrokenWord, ("", ""), words);
    FoldRowsOnly(PairStep, ("", ""), words, IndexError);
    if FoldRows(PairStep, ("", ""), words).Ok? { BlockPairLast(words); }
  }

  lemma {:induction false} BlockPairLast(words: seq<string>)
    requires FoldRows(PairStep, ("", ""), words).Ok?
    ensures FoldRows(PairStep, ("", ""), words).value ==
      (LastQuoted(words, "ssid", "ssid=", ""), LastQuoted(words, "psk", "psk=", ""))
  {
    if words != [] {
      var front, word := words[..|words| - 1], words[|words| - 1];
      assert words == front + [word];
      BlockPairLast(front);
      var acc := FoldRows(PairStep, ("", ""), front).value;
      assert FoldRows(PairStep, ("", ""), words) == PairStep(acc, word);
      PairStepSpec(acc, word);
      LastMatchSnoc(front, word, "ssid");
      LastMatchSnoc(front, word, "psk");
    }
  }

  /** Reading `name` from words one at a time raises `IndexError` exactly when
      a word names it without `name=`; otherwise it gives the quoted value of
      the last word naming it, or `d` when none does. */
  lemma {:induction false} QuotedFold(name: string, d: string, words: seq<string>)
    ensures FoldRows(QuotedStep(name), d, words).Err? <==>
      exists i :: 0 <= i < |words| && Contains(words[i], name) && !Contains(words[i], name + "=")
    ensures FoldRows(QuotedStep(name), d, words).Err? ==> FoldRows(QuotedStep(name), d, words).error == IndexError
    ensures FoldRows(QuotedStep(name), d, words).Ok? ==>
      FoldRows(QuotedStep(name), d, words).value == LastQuoted(words, name, name + "=", d)
  {
    if words != [] {
      var front, word := words[..|words| - 1], words[|words| - 1];
      assert words == front + [word];
      assert forall i :: 0 <= i < |front| ==> front[i] == words[i];
      QuotedFold(name, d, front);
      var r := FoldRows(QuotedStep(name), d, front);
      if r.Ok? {
        assert FoldRows(QuotedStep(name), d, words) == QuotedStep(name)(r.value, word);
        QuotedStepSpec(name, r.value, word);
        LastMatchSnoc(front, word, name);
      }
    }
  }
}
