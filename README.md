# wifipasswords in Dafny

A model of `wifipasswords`, a library that recovers the saved Wi-Fi networks of a
machine (names, pre-shared keys, metering and MAC randomisation), the visible
networks, the DNS settings and the connected networks, and that writes a
`wpa_supplicant.conf` from what it found. It has one collector class per
platform: `WifiPasswordsLinux`, `WifiPasswordsWindows` and `WifiPasswordsMacos`.

How the model is built:

- **Hosts.** Every shell command and file probe a collector makes is a field of a
  host value: `LinuxHost`, `WindowsHost` and `MacosHost`. A field is the command's
  standard output as a string. A command that takes a network or device name is a
  function from that name to its output. A path check (`os.path.exists` on the
  NetworkManager path, `os.path.isfile` on the wpa_supplicant file) is a `bool`. A collector method takes the host as a parameter.
- **Classes.** Each collector is a Dafny `class` with the Python object's fields
  (`data`, `numberOfProfiles`, `numberVisibleNetworks`, `numberOfInterfaces`). Its
  methods have `modifies this` and state the whole new state, including which
  counters stay the same.
- **Loops.** Each `for row in …` loop of the source is a `while` loop in a method.
  The loop is proved equal to a fold (`FoldRows`) of a step function over the
  rows. Lemmas then tie each fold to an independent description ("the last row
  that mentions the field", "some row is malformed", "the keys are the
  de-duplicated names").
- **Exceptions.** An exception that escapes (`IndexError` from `split(…)[1]`,
  `ValueError` from `list.index` or an explicit `raise`,
  `UnicodeDecodeError`) is the `Err` arm of a `Result`.
- **Dictionaries.** A Python `dict` is a `seq<Entry<V>>` with Python's insertion
  semantics. `Put` replaces the value in place for a key already present, and
  otherwise appends.
- **String helpers.** `str.strip`, `str.split`, `in`, `startswith`, `upper` and
  `lower` follow Python's definitions. This includes the whitespace set of
  `strip`, and the Kelvin sign that `lower()` maps to `k`.
- **Thread pool.** The thread pool in the Linux `get_passwords` is modelled as
  sequential. `pool.imap` yields its results in the order of its inputs, so the dictionary
  is the same.

Modules:

| module | file | what it holds |
|---|---|---|
| `Py` | `py.dfy` | Python string operations, `Result`, `PyError` |
| `Records` | `records.dfy` | `NetRecord` (`auth`, `psk`, `metered`, `macrandom`), `FoldRows`, `Collect`, `Flatten`, generic fold lemmas |
| `PyDict` | `pydict.dfy` | insertion-ordered dictionaries |
| `Bytes` | `bytes.dfy` | `bytes.fromhex` and strict UTF-8 decoding |
| `Patterns` | `patterns.dfy` | the regular expressions the collectors use |
| `Supplicant` | `supplicant.dfy` | the `wpa_supplicant.conf` writer shared by all platforms |
| `Dummy` | `dummy.dfy` | `get_passwords_dummy` |
| `LinuxNmcli` | `linux_nmcli.dfy` | NetworkManager profile parsing |
| `LinuxWpaFile` | `linux_wpa.dfy` | `wpa_supplicant.conf` parsing on Linux |
| `Linux`, `Windows`, `Macos` | `linux.dfy`, `windows.dfy`, `macos.dfy` | the collector classes |

## Model

| member | source | states |
|---|---|---|
| Bytes.FromHexToHex | wifipasswords/wifipasswords_macos.py:70-73 | `bytes.fromhex` reads back every byte string written as pairs of hex digits |
| Bytes.FromHex | wifipasswords/wifipasswords_macos.py:72 | `bytes.fromhex` raises only `ValueError`, and gives at most one byte for every two characters read |
| Bytes.Utf8Decode | wifipasswords/wifipasswords_macos.py:72 | `decode('utf-8')` gives at most one character per byte; ASCII bytes always decode, one character per byte with the same code |
| Bytes.ToHexNoSpace | wifipasswords/wifipasswords_macos.py:72 | a hex-encoded SSID has no space in it, so `split('  ')[0]` keeps it whole |
| Bytes.Utf8RoundTrip | wifipasswords/wifipasswords_macos.py:73 | `decode('utf-8')` recovers every string from its UTF-8 encoding |
| Patterns.MatchAt | wifipasswords/wifipasswords_linux.py:99 | a match of `network={…}` from a position ends at a `}` with no `}` before it (the pattern `[^}]*`) |
| Patterns.BlocksFrom | wifipasswords/wifipasswords_linux.py:99 | no block that `findall` returns contains `}` |
| Patterns.NoBraceNoBlocks | wifipasswords/wifipasswords_linux.py:99 | text with no `}` holds no `network={…}` block |
| Patterns.Blocks | wifipasswords/wifipasswords_linux.py:343 | no block that `re.findall` returns contains `}` |
| Patterns.LastIndexOf | wifipasswords/wifipasswords_macos.py:168 | finds the last occurrence of a character, and `None` exactly when the character is absent |
| Patterns.ParenGroupOf | wifipasswords/wifipasswords_macos.py:168 | `re.search(r'\(.*\)', row)[0][1:-1]` picks the text between the first `(` and the last `)` |
| Patterns.ParenGroup | wifipasswords/wifipasswords_macos.py:168 | fails only with `TypeError` (subscripting `None`); a group is the text strictly between a `(` and a later `)` that has no `)` after it |
| Patterns.VisibleCountFrom | wifipasswords/wifipasswords_windows.py:112-113 | the match it finds is one or two ASCII digits |
| Patterns.VisibleCount | wifipasswords/wifipasswords_windows.py:112-113 | the visible-network count read from `netsh` is below 100 |
| Patterns.VisibleTailOf | wifipasswords/wifipasswords_windows.py:112 | text continuing with ` network… currently visible` on the same line satisfies the lookahead |
| Patterns.SkipNonDigits | wifipasswords/wifipasswords_windows.py:112 | the search moves past any run of non-digits without changing its result |
| Patterns.VisibleCountOf | wifipasswords/wifipasswords_windows.py:112-113 | in `<no digits><1-2 digits> network… currently visible…`, the match is exactly those digits |
| Supplicant.HeaderLines | wifipasswords/wifipasswords_linux.py:239-250 | the header is ten lines and ends with the WPA section banner |
| Supplicant.StanzaLines | wifipasswords/wifipasswords_linux.py:253-258 | every network stanza is six lines |
| Supplicant.SectionLines | wifipasswords/wifipasswords_linux.py:251-258 | a section is six lines per stanza |
| Supplicant.WpaStep | wifipasswords/wifipasswords_linux.py:251-258 | one more network adds its WPA stanza exactly when its `auth` is the platform's WPA label |
| Supplicant.OpenStep | wifipasswords/wifipasswords_linux.py:262-269 | one more network adds an open stanza exactly when its `auth` is an open label |
| Supplicant.WriteWpaSection | wifipasswords/wifipasswords_linux.py:251-258 | the loop writes the WPA stanzas of the selected networks, in dictionary order |
| Supplicant.WriteOpenSection | wifipasswords/wifipasswords_linux.py:260-269 | the loop writes the open stanzas of the selected networks, in dictionary order |
| Supplicant.WriteSupplicant | wifipasswords/wifipasswords_linux.py:231-269 | the file is the header, then the WPA section, then the open section only when `include_open` |
| Supplicant.UnquoteQuoted | wifipasswords/wifipasswords_linux.py:254-255 | a quoted `field="value"` line gives back its value |
| Supplicant.ReadStanzaLines | wifipasswords/wifipasswords_linux.py:253-258 | each stanza can be read back from its six lines |
| Supplicant.ReadSectionLines | wifipasswords/wifipasswords_linux.py:251-258 | reading a section back gives exactly the stanzas written, in order |
| Supplicant.ReadRenderedWpa | wifipasswords/wifipasswords_linux.py:239-258 | after the header, the file reads back as the WPA stanzas of the data |
| Supplicant.ReadRenderedOpen | wifipasswords/wifipasswords_linux.py:259-269 | with `include_open`, the open banner follows the WPA section, and after it the file reads back as the open stanzas |
| Supplicant.WpaStanzasSelect | wifipasswords/wifipasswords_linux.py:252 | a WPA stanza is written if and only if some network has that SSID and key and carries the platform's WPA label (on Windows, wifipasswords_windows.py:215) |
| Supplicant.OpenStanzasSelect | wifipasswords/wifipasswords_linux.py:263 | an open stanza is written if and only if some network has that SSID and an open label |
| Supplicant.OtherLabelsOmitted | wifipasswords/wifipasswords_linux.py:251-269 | a network whose `auth` is neither label, such as WPA3 or enterprise, appears in neither section |
| Supplicant.RenderedEmpty | wifipasswords/wifipasswords_linux.py:231-269 | no networks gives the header, a blank line, and the open banner only when `include_open` |
| Supplicant.Rendered | wifipasswords/wifipasswords_linux.py:231-269 | the file starts with the ten header lines and has 11 lines plus six per WPA stanza, and, with `include_open`, one banner line plus six per open stanza |
| Dummy.TruncHalf | wifipasswords/wifipasswords_linux.py:138 | `int(quantity / 2)` truncates toward zero: the floor half for non-negative quantities, never positive for negative ones |
| Dummy.DummyKeysDistinct | wifipasswords/wifipasswords_linux.py:134-143 | the two comprehensions produce distinct names, within each half and across both |
| Dummy.DummyEntries | wifipasswords/wifipasswords_linux.py:144 | `{**data_wpa, **data_open}` is the WPA entries followed by the open entries, with none lost |
| Dummy.HalvesShape | wifipasswords/wifipasswords_linux.py:134-143 | the first half are `network n` with WPA2-Personal and a non-empty key; the second half are `open network n` without a key |
| Dummy.DummyShape | wifipasswords/wifipasswords_linux.py:129-147 | the dummy mapping has twice `DummyCount` networks, the WPA ones first, then the open ones |
| Dummy.DummyCountOf | wifipasswords/wifipasswords_linux.py:138 | `range(1, int(quantity/2))` gives `quantity/2 - 1` networks of each kind for quantities of 4 and more, and none below 4 |
| Dummy.DummyTen | wifipasswords/wifipasswords_linux.py:129 | the default quantity of 10 gives 8 networks |
| Dummy.DummyData | wifipasswords/wifipasswords_linux.py:129-147 | the dummy mapping has no repeated SSID and holds twice `DummyCount(quantity)` networks |
| LinuxNmcli.PskStep | wifipasswords/wifipasswords_linux.py:335-337 | a PSK row can fail only with `IndexError` |
| LinuxNmcli.DetailStep | wifipasswords/wifipasswords_linux.py:68-78 | a profile detail row can fail only with `IndexError` |
| LinuxNmcli.DetailStepSpec | wifipasswords/wifipasswords_linux.py:68-78 | a row fails exactly when it names one of the four fields and has no `:`; otherwise it sets that field to the value after the first `:`. A metered `yes` is sticky, and an empty MAC value is ignored |
| LinuxNmcli.DetailsFoldErr | wifipasswords/wifipasswords_linux.py:68-78 | a profile's details fail exactly when some row names a field without a `:` |
| LinuxNmcli.DetailsFold | wifipasswords/wifipasswords_linux.py:56-79 | the record holds the last key-mgmt value (default `Open`) and the last PSK (default empty). It is metered if and only if some row says metered `yes`, and holds the last non-empty MAC setting (default `Disabled`) |
| LinuxNmcli.DetailsKeys | wifipasswords/wifipasswords_linux.py:69-72 | `auth` is the last key-mgmt value and `psk` the last PSK value |
| LinuxNmcli.DetailsMetered | wifipasswords/wifipasswords_linux.py:73-75 | `metered` holds if and only if some row says metered `yes` |
| LinuxNmcli.DetailsMac | wifipasswords/wifipasswords_linux.py:76-78 | `macrandom` is the last non-empty MAC-randomisation value, else `Disabled` |
| LinuxNmcli.DetailsDefaults | wifipasswords/wifipasswords_linux.py:63-66 | output that mentions none of the four fields gives the open defaults |
| LinuxNmcli.NoMacDefault | wifipasswords/wifipasswords_linux.py:76-78 | without a MAC row, the default is kept |
| LinuxNmcli.PskFold | wifipasswords/wifipasswords_linux.py:335-337 | the PSK read fails with `IndexError` exactly when a PSK row has no `:`, and otherwise returns the last PSK value |
| LinuxNmcli.BareColonFrom | wifipasswords/wifipasswords_linux.py:87 | finds the first `:` not preceded by `\`; when there is none, every `:` is escaped |
| LinuxNmcli.ProfileName | wifipasswords/wifipasswords_linux.py:87 | the name taken from a row is a prefix of the row |
| LinuxNmcli.ProfileNameOf | wifipasswords/wifipasswords_linux.py:87 | `re.split(r'(?<!\\):', row)[0]` is the name before the first unescaped colon |
| LinuxNmcli.ProfileNameTrailingBackslash | wifipasswords/wifipasswords_linux.py:87 | a name ending in `\` escapes the separator, so the whole row is taken as the name |
| LinuxNmcli.WirelessNamesMembers | wifipasswords/wifipasswords_linux.py:87-88 | a name is listed if and only if some `802-11-wireless` row carries it |
| LinuxNmcli.ProfileStepSpec | wifipasswords/wifipasswords_linux.py:90-92 | each profile record is stored under its name, and a failing read stops the whole collection |
| LinuxNmcli.CollectProfilesErr | wifipasswords/wifipasswords_linux.py:90-92 | the collection fails if and only if some profile's read fails, and then with that read's error |
| LinuxNmcli.CollectProfilesOk | wifipasswords/wifipasswords_linux.py:90-92 | with distinct names, the dictionary's keys are the names in order and each holds its own profile's record |
| LinuxNmcli.CollectProfilesSnoc | wifipasswords/wifipasswords_linux.py:90-92 | adding one more distinct name keeps the keys-and-records property |
| LinuxNmcli.DetailsIndexError | wifipasswords/wifipasswords_linux.py:68-78 | the only error reading a profile's details is `IndexError` |
| LinuxNmcli.NmcliNetworksSpec | wifipasswords/wifipasswords_linux.py:85-92 | the NetworkManager branch fails, with `IndexError`, if and only if some profile's details fail; otherwise its keys are the profile names and each value is that profile's record |
| LinuxWpaFile.QuotedStepSpec | wifipasswords/wifipasswords_linux.py:105-115 | a line naming `ssid` (or `psk`) raises `IndexError` exactly when it lacks `ssid=` (or `psk=`), and raises nothing else; otherwise a line naming the field gives its quote-stripped text after the `=`, and any other line keeps the current value |
| LinuxWpaFile.KeyMgmtAuth | wifipasswords/wifipasswords_linux.py:108-113 | a key-mgmt value whose upper case is `NONE` becomes `Open`; any other value is kept |
| LinuxWpaFile.KeyMgmtStep | wifipasswords/wifipasswords_linux.py:108-113 | a key-mgmt item can fail only with `IndexError` |
| LinuxWpaFile.BlockStep | wifipasswords/wifipasswords_linux.py:105-115 | a block item can fail only with `IndexError` |
| LinuxWpaFile.BlockStepSpec | wifipasswords/wifipasswords_linux.py:105-115 | an item fails exactly when it is broken (mentions a field without its `=`); otherwise it updates exactly the fields it mentions |
| LinuxWpaFile.LastMatchSnoc | wifipasswords/wifipasswords_linux.py:105-115 | the last item mentioning a field is the new item, if it mentions the field, else the earlier last one |
| LinuxWpaFile.BlockReadErr | wifipasswords/wifipasswords_linux.py:101-115 | reading a block fails if and only if some item is broken |
| LinuxWpaFile.BlockReadFields | wifipasswords/wifipasswords_linux.py:101-115 | the block's SSID, key and auth come from the last item mentioning each field; auth is `' '` when no item does |
| LinuxWpaFile.BlockReadQuoted | wifipasswords/wifipasswords_linux.py:105-115 | SSID and key are the last quoted values of their fields |
| LinuxWpaFile.BlockReadAuth | wifipasswords/wifipasswords_linux.py:108-113 | auth is the last key-mgmt value, with `NONE` read as `Open` |
| LinuxWpaFile.FileRecordsFixed | wifipasswords/wifipasswords_linux.py:117-120 | every network read from the file is unmetered with MAC randomisation `Disabled`, and its keys are distinct |
| LinuxWpaFile.BlockSsidAgrees | wifipasswords/wifipasswords_linux.py:374-383 | `get_known_ssids` reads the same SSID from a block as `get_passwords` |
| LinuxWpaFile.KnownMatchesPasswords | wifipasswords/wifipasswords_linux.py:96-120 | when `get_passwords` reads the file, `get_known_ssids` succeeds too, and the password keys are its SSIDs without repeats |
| LinuxWpaFile.PairStep | wifipasswords/wifipasswords_linux.py:354-358 | a word of a connected block can fail only with `IndexError` |
| LinuxWpaFile.PairStepSpec | wifipasswords/wifipasswords_linux.py:354-358 | a word raises exactly when it names `ssid` or `psk` without its `=`; otherwise the SSID and the key each take the word's quote-stripped value when the word names them, and keep theirs when it does not |
| LinuxWpaFile.BlockPairFields | wifipasswords/wifipasswords_linux.py:350-358 | a block's words raise `IndexError` if and only if one of them is broken; otherwise the pair is the quote-stripped values of the last words naming `ssid` and `psk`, each `''` when no word names it |
| LinuxWpaFile.QuotedFold | wifipasswords/wifipasswords_linux.py:413-417 | reading `psk` (or `ssid`) word by word raises `IndexError` exactly when a word names it without its `=`; otherwise the result is the quoted value of the last word naming it, or the starting value when none does |
| LinuxWpaFile.FileNetworksSpec | wifipasswords/wifipasswords_linux.py:96-120 | the file branch of `get_passwords` raises only `IndexError`; otherwise no SSID appears twice and every record is unmetered with MAC randomisation `Disabled` |
| LinuxWpaFile.FileNetworksEntries | wifipasswords/wifipasswords_linux.py:100-120 | the file branch of `get_passwords` is the dictionary built by assigning each block's record to its SSID in file order, or the first block's exception |
| LinuxWpaFile.FileNetworksLast | wifipasswords/wifipasswords_linux.py:100-120 | when the file reads, every block reads, and an SSID holds the record of the last block with that SSID: that block's auth and key (as `LinuxWpaFile.BlockReadFields` gives them), unmetered, with MAC randomisation `Disabled` |
| Linux.PasswordsMatchKnown | wifipasswords/wifipasswords_linux.py:82-126 | when `get_passwords` succeeds, so does `get_known_ssids`, with the same names. With NetworkManager, each value is that profile's record |
| Linux.NoSourceNoPasswords | wifipasswords/wifipasswords_linux.py:121-122 | with neither NetworkManager nor a wpa_supplicant file, both give empty results |
| Linux.Passwords | wifipasswords/wifipasswords_linux.py:82-126 | `get_passwords` raises nothing but `IndexError`, its dictionary has no repeated SSID, and every record read from the wpa_supplicant file is unmetered with MAC randomisation `Disabled` |
| Linux.VisibleDictKeys | wifipasswords/wifipasswords_linux.py:157-182 | the visible-network dictionary is keyed by the scanned SSIDs without repeats, and the text lists one line per scanned row |
| Linux.DomainStep | wifipasswords/wifipasswords_linux.py:203-207 | a device DNS row can fail only with `IndexError` |
| Linux.KindStepSpec | wifipasswords/wifipasswords_linux.py:208-213 | an `ignore-auto-dns` row without `:` fails. A `yes` makes the type `Static`, and a `no` makes it `DHCP` when DNS servers were listed; other rows keep the type |
| Linux.KindFold | wifipasswords/wifipasswords_linux.py:208-213 | the type is decided by the last decisive row, and stays `None` if and only if no row is decisive |
| Linux.DomainFold | wifipasswords/wifipasswords_linux.py:203-207 | the suffix is the last domain value and the servers come from the last DNS row; DNS servers are present if and only if some row lists them |
| Linux.InterfaceStepIndexError | wifipasswords/wifipasswords_linux.py:197-214 | a `DEVICE:CONNECTION` row raises nothing but `IndexError` |
| Linux.DnsConfig | wifipasswords/wifipasswords_linux.py:190-228 | the DNS dictionary raises nothing but `IndexError`, holds each device once, and is `{}` without NetworkManager |
| Linux.DnsConfigEntries | wifipasswords/wifipasswords_linux.py:194-214 | with NetworkManager the DNS dictionary is built by assigning each two-field row's entry in order; its keys are the devices of the two-field `DEVICE:CONNECTION` rows without repeats, in first-seen order |
| Linux.DnsConfigLast | wifipasswords/wifipasswords_linux.py:194-214 | a device holds the entry of the last two-field row naming it: the type its connection's rows decide (`Linux.KindFold`) and the servers and suffix its device rows give (`Linux.DomainFold`) |
| Linux.ConnectedSsidsMembers | wifipasswords/wifipasswords_linux.py:296-319 | with NetworkManager, an SSID is listed if and only if some `connected` row gives it; without it, if and only if it is a non-empty line of `iwgetid -r` |
| Linux.ConnectedRowsMembers | wifipasswords/wifipasswords_linux.py:300-307 | an SSID is collected if and only if some device row gives it |
| Linux.NonEmptyMembers | wifipasswords/wifipasswords_linux.py:310-317 | a line is collected if and only if it is non-empty |
| Linux.MatchedBlocks | wifipasswords/wifipasswords_linux.py:346-347 | a block is kept if and only if it contains one of the connected SSIDs |
| Linux.NmPairs | wifipasswords/wifipasswords_linux.py:329-338 | the reference list: at most one pair per entry of the connected list, and each pair is a connected SSID whose lookup printed something, with the value of its last PSK row |
| Linux.NmPairsCover | wifipasswords/wifipasswords_linux.py:329-338 | every connected SSID whose lookup prints something is paired with its key |
| Linux.NmPairsFold | wifipasswords/wifipasswords_linux.py:329-338 | the NetworkManager loop raises `IndexError` if and only if the key output of some connected SSID has a PSK row without `:`; otherwise it returns exactly `NmPairs`, the answered SSIDs in order with their keys |
| Linux.WpaPairsMap | wifipasswords/wifipasswords_linux.py:349-359 | the file loop is the list of the blocks' pairs, in order, stopping at the first exception |
| Linux.WpaPairsFold | wifipasswords/wifipasswords_linux.py:349-359 | the file loop raises `IndexError` if and only if some matched block is broken; otherwise it gives exactly one pair per matched block, in order, each the block's last quoted SSID and key (`''` when absent) |
| Linux.ConnectedPasswords | wifipasswords/wifipasswords_linux.py:322-361 | `get_currently_connected_passwords` raises nothing but `IndexError` |
| Linux.ConnectedPasswordsNm | wifipasswords/wifipasswords_linux.py:322-338 | with NetworkManager it fails if and only if the key output of a connected SSID is unreadable, and otherwise returns `NmPairs` of the connected SSIDs |
| Linux.ConnectedPasswordsFile | wifipasswords/wifipasswords_linux.py:340-361 | without NetworkManager but with the file, it fails if and only if a block mentioning a connected SSID is broken, and otherwise gives one pair per such block, in file order, each the block's last quoted SSID and key; with neither source it returns `[]` |
| Linux.LookupMatchesFlattened | wifipasswords/wifipasswords_linux.py:406-417 | the per-block search finds the SSID if and only if some block contains it, and its key is the one read from the words of the matching blocks taken as one list, which `LinuxWpaFile.QuotedFold` shows is the last quoted `psk=` value among them, or `''` |
| Linux.LookupFlattenedSnoc | wifipasswords/wifipasswords_linux.py:410-417 | adding one more block keeps that agreement |
| Linux.SinglePasswordSpec | wifipasswords/wifipasswords_linux.py:391-420 | `ValueError` is raised if and only if NetworkManager knows nothing of the SSID, or the file has no block containing it, or neither source exists. A NetworkManager answer without a PSK row gives an empty key. From the file, once some block contains the SSID: `IndexError` if and only if a word of a matching block names `psk` without `psk=`; otherwise the key is the quoted value of the last `psk` word of the matching blocks, and `''` when none names `psk` |
| Linux.BlockLookupIndexError | wifipasswords/wifipasswords_linux.py:406-417 | the block-by-block key search raises nothing but `IndexError` |
| Linux.SinglePassword | wifipasswords/wifipasswords_linux.py:391-420 | `get_single_password` raises only `ValueError` (an unknown SSID) or `IndexError` (a malformed row) |
| Linux.WifiPasswordsLinux.constructor | wifipasswords/wifipasswords_linux.py:31-39 | a new collector has no data and all counters zero |
| Linux.WifiPasswordsLinux.PasswordSubthread | wifipasswords/wifipasswords_linux.py:56-79 | a profile's record is read from its `nmcli` details: the described record of `LinuxNmcli.DetailsFold`, or `IndexError` when a field row lacks `:` |
| Linux.WifiPasswordsLinux.ReadDetailRows | wifipasswords/wifipasswords_linux.py:68-78 | the loop over detail rows yields the record `LinuxNmcli.DetailsFold` characterises (last key-mgmt and PSK, metered from any `yes`, last non-empty MAC), stopping at the first malformed row |
| Linux.WifiPasswordsLinux.ReadDetailRow | wifipasswords/wifipasswords_linux.py:69-78 | one detail row updates exactly the fields `LinuxNmcli.DetailStepSpec` names |
| Linux.WifiPasswordsLinux.ReadBlock | wifipasswords/wifipasswords_linux.py:101-115 | one `network={…}` block gives its SSID, auth and key as `LinuxWpaFile.BlockReadFields` describes, or `IndexError` for a broken item |
| Linux.WifiPasswordsLinux.ReadBlockItems | wifipasswords/wifipasswords_linux.py:105-115 | the item loop keeps the last SSID, key-mgmt and PSK values of the block and stops at the first broken item |
| Linux.WifiPasswordsLinux.ReadBlockItem | wifipasswords/wifipasswords_linux.py:106-115 | one item updates exactly the fields it mentions, as `LinuxWpaFile.BlockStepSpec` states |
| Linux.WifiPasswordsLinux.CollectNmcli | wifipasswords/wifipasswords_linux.py:85-92 | the NetworkManager branch: keys are the wireless profile names without repeats, each holding its own profile's record (`LinuxNmcli.NmcliNetworksSpec`) |
| Linux.WifiPasswordsLinux.CollectProfileRows | wifipasswords/wifipasswords_linux.py:90-92 | the loop over profile names stores each record under its name and stops at the first failing profile |
| Linux.WifiPasswordsLinux.CollectWpaFile | wifipasswords/wifipasswords_linux.py:96-120 | the wpa_supplicant-file branch: equals the file fold, which `LinuxWpaFile.FileNetworksLast` shows holds, under each SSID, the unmetered, `Disabled` record of the last block with that SSID; its keys are the blocks' SSIDs without repeats (`LinuxWpaFile.KnownMatchesPasswords`) |
| Linux.WifiPasswordsLinux.ReadFileBlocks | wifipasswords/wifipasswords_linux.py:100-120 | the loop over the blocks equals the fold that `LinuxWpaFile.FileNetworksEntries` shows assigns each block's record to its SSID in order, stopping at the first broken block |
| Linux.WifiPasswordsLinux.GetPasswords | wifipasswords/wifipasswords_linux.py:82-126 | returns the networks, stores them as `data` and counts them. On error nothing changes; the other counters are never touched |
| Linux.WifiPasswordsLinux.GetPasswordsDummy | wifipasswords/wifipasswords_linux.py:129-147 | returns and stores the dummy networks and counts them |
| Linux.WifiPasswordsLinux.GetPasswordsData | wifipasswords/wifipasswords_linux.py:150-151 | returns the stored data |
| Linux.WifiPasswordsLinux.GetVisibleNetworks | wifipasswords/wifipasswords_linux.py:154-187 | without NetworkManager, gives `{}` or the notice and keeps the counter. Otherwise gives the dictionary or the text and counts what it returned |
| Linux.WifiPasswordsLinux.ScanVisible | wifipasswords/wifipasswords_linux.py:161-175 | the scan loop fills only the form that was asked for: the SSID-keyed dictionary (hidden SSIDs as `Hidden`) or one text line per row with at least five fields; shorter rows are skipped |
| Linux.WifiPasswordsLinux.GetDnsConfig | wifipasswords/wifipasswords_linux.py:190-217 | the DNS dictionary, `{}` without NetworkManager: keyed by the devices of the two-field `DEVICE:CONNECTION` rows (`Linux.DnsConfigEntries`), each holding the entry of its last such row (`Linux.DnsConfigLast`), with the type, servers and suffix `Linux.KindFold` and `Linux.DomainFold` describe |
| Linux.WifiPasswordsLinux.ReadInterfaces | wifipasswords/wifipasswords_linux.py:194-214 | the device loop equals the fold that `Linux.DnsConfigEntries` shows assigns one entry per two-field row, in order, the last row for a device winning (`Linux.DnsConfigLast`), and stops at the first error |
| Linux.WifiPasswordsLinux.ReadInterface | wifipasswords/wifipasswords_linux.py:197-214 | a `DEVICE:CONNECTION` row with exactly two fields adds its device; other rows change nothing |
| Linux.WifiPasswordsLinux.ReadDeviceDns | wifipasswords/wifipasswords_linux.py:201-207 | a device's search domain and DNS servers, from the last rows naming them |
| Linux.WifiPasswordsLinux.ReadDeviceRows | wifipasswords/wifipasswords_linux.py:203-207 | the device row loop keeps the last domain and the last server list, stopping at a row that names a field without `:` |
| Linux.WifiPasswordsLinux.ReadDomainRow | wifipasswords/wifipasswords_linux.py:204-207 | one device row replaces the domain or server list it names |
| Linux.WifiPasswordsLinux.ReadConnectionKind | wifipasswords/wifipasswords_linux.py:202-213 | a connection's DNS type: decided by its last decisive `ignore-auto-dns` row, else `None` |
| Linux.WifiPasswordsLinux.ReadConnectionRows | wifipasswords/wifipasswords_linux.py:208-213 | the connection row loop computes that type and stops at an `ignore-auto-dns` row without `:` |
| Linux.WifiPasswordsLinux.ReadKindRow | wifipasswords/wifipasswords_linux.py:209-213 | one connection row sets the type as `Linux.KindStepSpec` states |
| Linux.WifiPasswordsLinux.SaveWpaSupplicant | wifipasswords/wifipasswords_linux.py:231-269 | writes the given data, or else the stored data, in the Linux layout |
| Linux.WifiPasswordsLinux.GetNumberVisibleNetworks | wifipasswords/wifipasswords_linux.py:280-282 | rescans and returns the number of visible networks; without NetworkManager, returns the old count |
| Linux.WifiPasswordsLinux.GetNumberInterfaces | wifipasswords/wifipasswords_linux.py:285-287 | runs the DNS query, which sets no counter, and returns the stored count or its error |
| Linux.WifiPasswordsLinux.GetNumberProfiles | wifipasswords/wifipasswords_linux.py:290-293 | a non-zero count is returned as it is; a zero count runs `get_passwords` first |
| Linux.WifiPasswordsLinux.GetCurrentlyConnectedSsids | wifipasswords/wifipasswords_linux.py:296-319 | the connected SSIDs, exactly those `Linux.ConnectedSsidsMembers` characterises: from `nmcli -t d` connected wifi rows, or the non-empty `iwgetid` lines |
| Linux.WifiPasswordsLinux.ReadDeviceStatus | wifipasswords/wifipasswords_linux.py:301-307 | the `nmcli -t d` loop collects field 3 of each connected wifi row, in order, skipping short rows |
| Linux.WifiPasswordsLinux.ReadIwgetid | wifipasswords/wifipasswords_linux.py:311-317 | the `iwgetid` loop collects the non-empty lines in order |
| Linux.WifiPasswordsLinux.GetCurrentlyConnectedPasswords | wifipasswords/wifipasswords_linux.py:322-361 | returns `ConnectedPasswords` of the host, so the result is what `Linux.ConnectedPasswordsNm` and `Linux.ConnectedPasswordsFile` state: the NetworkManager pairs of the answered SSIDs, or one last-quoted pair per file block that mentions a connected SSID, or `[]` with neither source; the only exception is `IndexError` |
| Linux.WifiPasswordsLinux.ReadNmPairs | wifipasswords/wifipasswords_linux.py:329-338 | the loop computes the NetworkManager fold, which `Linux.NmPairsFold` shows is exactly `NmPairs` (a pair per answered SSID, in order, with its last PSK value), or `IndexError` when an answer has a PSK row without `:` |
| Linux.WifiPasswordsLinux.ReadNmPair | wifipasswords/wifipasswords_linux.py:330-338 | one SSID adds `(ssid, last psk value)` when its answer is non-empty and nothing otherwise |
| Linux.WifiPasswordsLinux.ReadWpaPairs | wifipasswords/wifipasswords_linux.py:349-359 | the loop computes the per-block fold, which `Linux.WpaPairsFold` shows is one pair per block, in order, or `IndexError` when a block is broken |
| Linux.WifiPasswordsLinux.ReadPsk | wifipasswords/wifipasswords_linux.py:332-337 | the key in a `nmcli` answer: the last PSK value, else empty, or `IndexError` (`LinuxNmcli.PskFold`) |
| Linux.WifiPasswordsLinux.ReadPskRows | wifipasswords/wifipasswords_linux.py:335-337 | the answer's row loop keeps the last PSK value |
| Linux.WifiPasswordsLinux.ReadPair | wifipasswords/wifipasswords_linux.py:349-359 | computes `BlockPair`, which `LinuxWpaFile.BlockPairFields` shows is the last quoted SSID and key among the block's space-separated words, each `''` when absent, or `IndexError` for a broken word |
| Linux.WifiPasswordsLinux.ReadPairWords | wifipasswords/wifipasswords_linux.py:350-358 | the word loop computes the pair fold; by `LinuxWpaFile.BlockPairFields` it keeps the last quoted SSID and key and raises `IndexError` exactly when a word names a field without its `=` |
| Linux.WifiPasswordsLinux.ReadPairWord | wifipasswords/wifipasswords_linux.py:354-358 | one word computes `PairStep`: by `LinuxWpaFile.PairStepSpec` it replaces the SSID or key it names |
| Linux.WifiPasswordsLinux.ReadQuoted | wifipasswords/wifipasswords_linux.py:354-358 | one quoted-value test computes `QuotedStep`, whose behaviour `LinuxWpaFile.QuotedStepSpec` states |
| Linux.WifiPasswordsLinux.GetKnownSsids | wifipasswords/wifipasswords_linux.py:364-388 | the known SSIDs, counted in `number_of_profiles` |
| Linux.WifiPasswordsLinux.ReadKnownSsids | wifipasswords/wifipasswords_linux.py:374-383 | one SSID per block of the file, in order, repeats kept (`' '` for a block without one) |
| Linux.WifiPasswordsLinux.ReadKnownBlocks | wifipasswords/wifipasswords_linux.py:377-383 | the block loop appends each block's SSID and stops at the first broken block |
| Linux.WifiPasswordsLinux.ReadBlockSsid | wifipasswords/wifipasswords_linux.py:378-383 | one block's SSID is its last quoted `ssid=` value, the same one `get_passwords` reads (`LinuxWpaFile.BlockSsidAgrees`) |
| Linux.WifiPasswordsLinux.ReadSsidItems | wifipasswords/wifipasswords_linux.py:380-382 | the item loop keeps the last SSID value |
| Linux.WifiPasswordsLinux.ReadWordsPsk | wifipasswords/wifipasswords_linux.py:413-417 | the key among a matching block's words equals the `psk` fold, which `LinuxWpaFile.QuotedFold` shows is the last quoted `psk=` value, or the key carried in when no word names `psk` |
| Linux.WifiPasswordsLinux.GetSinglePassword | wifipasswords/wifipasswords_linux.py:391-420 | the key of one SSID as `Linux.SinglePasswordSpec` gives it: the last PSK value from NetworkManager, or the last quoted `psk=` value of the matching file blocks (`''` when none); `ValueError` exactly in the cases listed there |
| Linux.WifiPasswordsLinux.LookupWpaFile | wifipasswords/wifipasswords_linux.py:406-417 | the file branch: `ValueError` when no block contains the SSID; otherwise the quoted value of the last `psk` word of the blocks containing it, or `''` when none names `psk` (`Linux.SinglePasswordSpec`) |
| Linux.WifiPasswordsLinux.ReadLookupBlocks | wifipasswords/wifipasswords_linux.py:410-417 | the block loop records whether some block contains the SSID and keeps the key read from the words of those blocks, which `Linux.LookupMatchesFlattened` and `LinuxWpaFile.QuotedFold` show is the last quoted `psk=` value among them, or `''` |
| Linux.WifiPasswordsLinux.ReadLookupBlock | wifipasswords/wifipasswords_linux.py:411-417 | a block containing the SSID sets the found flag and updates the key; other blocks change nothing |
| Windows.ProfileNamesSpec | wifipasswords/wifipasswords_windows.py:49-50 | the profile listing fails, with `IndexError`, exactly when a `User Profile` row lacks `: `; otherwise it gives the text after the first `: ` of each such row, unstripped, in order |
| Windows.InfoStep | wifipasswords/wifipasswords_windows.py:59-68 | a profile detail row can fail only with `IndexError` |
| Windows.LastStrippedSnoc | wifipasswords/wifipasswords_windows.py:59-68 | the last value of a field is the new row's, if it names the field, else the earlier one |
| Windows.InfoStepSpec | wifipasswords/wifipasswords_windows.py:59-68 | a row fails exactly when it names one of the fields and has no `: `; otherwise it updates the fields it names, and a `Cost` of `Fixed` or `Variable` makes it metered |
| Windows.ProfileRowsErr | wifipasswords/wifipasswords_windows.py:59-68 | a profile fails if and only if some named row lacks `: ` |
| Windows.ProfileRowsValues | wifipasswords/wifipasswords_windows.py:59-68 | key, auth and MAC randomisation are the last stripped values of their rows, else the template's |
| Windows.ProfileRowsMetered | wifipasswords/wifipasswords_windows.py:64-66 | metered holds if and only if the template says so or some cost row is metered |
| Windows.ProfileUntouched | wifipasswords/wifipasswords_windows.py:59-68 | a profile whose rows name no field keeps the template |
| Windows.UpdateRecordsStep | wifipasswords/wifipasswords_windows.py:52-68 | updating one more network appends its new record |
| Windows.UpdateRecordsErr | wifipasswords/wifipasswords_windows.py:52-68 | once an update fails, the whole pass fails with that error |
| Windows.UpdateRecordsSpec | wifipasswords/wifipasswords_windows.py:52-68 | the pass fails if and only if some network's update fails; otherwise the keys are unchanged and each value is its own update |
| Windows.UpdateRecordsSnoc | wifipasswords/wifipasswords_windows.py:52-68 | adding one more network keeps that property |
| Windows.UpdateOnly | wifipasswords/wifipasswords_windows.py:52-68 | if no single update can fail other than with `IndexError`, neither can the pass |
| Windows.InfoUpdateIndexError | wifipasswords/wifipasswords_windows.py:59-68 | a profile update can fail only with `IndexError` |
| Windows.PasswordsSpec | wifipasswords/wifipasswords_windows.py:38-72 | the keys are the listed profile names without repeats, and each value is the template updated by that profile's details |
| Windows.Passwords | wifipasswords/wifipasswords_windows.py:38-72 | `get_passwords` raises nothing but `IndexError` |
| Windows.PoweredDownSpec | wifipasswords/wifipasswords_windows.py:109-117 | with the radio powered down, the count is 0, the dictionary form is `{}`, and the text form is the `netsh` output |
| Windows.DnsKind | wifipasswords/wifipasswords_windows.py:179-184 | `Static` if and only if the block says `Statically`; `DHCP` if and only if it says DHCP and not `Statically`; `None` otherwise |
| Windows.DnsConfigEntries | wifipasswords/wifipasswords_windows.py:175-189 | the DNS dictionary is built from the blocks' entries in order, and a failing block fails it |
| Windows.DnsBlocksCount | wifipasswords/wifipasswords_windows.py:172-173 | there is always at least one interface block, and exactly one when the output has no blank-line separator |
| Windows.DnsConfig | wifipasswords/wifipasswords_windows.py:175-189 | the DNS dictionary raises nothing but `IndexError` and holds each interface once |
| Windows.WifiPasswordsWindows.constructor | wifipasswords/wifipasswords_windows.py:30-36 | a new collector has no data and all counters zero |
| Windows.WifiPasswordsWindows.ReadInfoRow | wifipasswords/wifipasswords_windows.py:59-68 | one detail row updates exactly the fields `Windows.InfoStepSpec` names |
| Windows.WifiPasswordsWindows.ReadInfoField | wifipasswords/wifipasswords_windows.py:60-68 | a named field row gives its stripped value after `: `, or `IndexError`; other rows keep the current value |
| Windows.WifiPasswordsWindows.ReadProfile | wifipasswords/wifipasswords_windows.py:53-68 | one profile's record: the template updated by its detail rows, as `Windows.ProfileRowsValues` and `Windows.ProfileRowsMetered` describe |
| Windows.WifiPasswordsWindows.ReadInfoRows | wifipasswords/wifipasswords_windows.py:59-68 | the detail row loop keeps the last value of each field and stops at the first malformed row |
| Windows.WifiPasswordsWindows.UpdateProfiles | wifipasswords/wifipasswords_windows.py:52-68 | the loop over profiles replaces each record where it stands, keeping the keys and their order (`Windows.UpdateRecordsSpec`), and stops at the first failing profile |
| Windows.WifiPasswordsWindows.GetPasswords | wifipasswords/wifipasswords_windows.py:38-72 | returns the networks, stores them as `data` and counts them; nothing changes on error |
| Windows.WifiPasswordsWindows.GetPasswordsDummy | wifipasswords/wifipasswords_windows.py:75-93 | returns and stores the dummy networks and counts them |
| Windows.WifiPasswordsWindows.GetPasswordsData | wifipasswords/wifipasswords_windows.py:96-97 | returns the stored data |
| Windows.WifiPasswordsWindows.GetVisibleNetworks | wifipasswords/wifipasswords_windows.py:100-160 | sets the visible count (0 when powered down) and returns the output, or its error when no count can be read |
| Windows.WifiPasswordsWindows.GetDnsConfig | wifipasswords/wifipasswords_windows.py:163-191 | counts the interface blocks and gives the text, or the dictionary of DNS settings |
| Windows.WifiPasswordsWindows.ReadDnsBlocks | wifipasswords/wifipasswords_windows.py:177-188 | the interface block loop adds each block's entry under its quoted name, the last block for a name winning, and stops at the first malformed block |
| Windows.WifiPasswordsWindows.ReadDnsBlock | wifipasswords/wifipasswords_windows.py:178-188 | one interface block gives its name, type (`Windows.DnsKind`), DNS server and suffix, or `IndexError` |
| Windows.WifiPasswordsWindows.SaveWpaSupplicant | wifipasswords/wifipasswords_windows.py:194-232 | writes the given, or else the stored, data in the Windows layout |
| Windows.WifiPasswordsWindows.GetNumberVisibleNetworks | wifipasswords/wifipasswords_windows.py:243-245 | rescans and returns the visible count |
| Windows.WifiPasswordsWindows.GetNumberInterfaces | wifipasswords/wifipasswords_windows.py:248-250 | counts the interface blocks and returns that count |
| Windows.WifiPasswordsWindows.GetNumberProfiles | wifipasswords/wifipasswords_windows.py:253-256 | a non-zero count as it is; a zero count runs `get_passwords` first |
| Windows.WifiPasswordsWindows.GetCurrentlyConnectedSsids | wifipasswords/wifipasswords_windows.py:259-275 | the connected SSIDs, exactly those `Windows.ConnectedSsidsSpec` characterises |
| Windows.ConnectedSsidsSpec | wifipasswords/wifipasswords_windows.py:269-273 | it fails exactly when an ` SSID` row lacks `:`, and otherwise gives the stripped SSIDs in order |
| Macos.HexBlobRoundTrip | wifipasswords/wifipasswords_macos.py:69-73 | a `0x…` blob followed by the shown form decodes to the SSID it encodes |
| Macos.DecodeBlob | wifipasswords/wifipasswords_macos.py:69-75 | only a `0x` blob can fail: with `ValueError` for a bad hex digit and `UnicodeDecodeError` for bad UTF-8 |
| Macos.QuotedBlobRoundTrip | wifipasswords/wifipasswords_macos.py:74-76 | a quoted blob decodes to the text between the quotes |
| Macos.AcctStepSpec | wifipasswords/wifipasswords_macos.py:66-77 | a row fails exactly when its blob does not decode; an `acct` row adds its SSID, and other rows add nothing |
| Macos.ItemsFlatten | wifipasswords/wifipasswords_macos.py:65-77 | the loop over items and then rows is one loop over all rows of all items |
| Macos.KnownSsidsSpec | wifipasswords/wifipasswords_macos.py:61-77 | the SSIDs are those of the `acct` rows of the AirPort items, in order, and decoding fails exactly when some row's blob is bad |
| Macos.KeychainNetworks | wifipasswords/wifipasswords_macos.py:80-84 | the keys are the SSIDs without repeats, and each value is that SSID's keychain record |
| Macos.PasswordsMatchKnown | wifipasswords/wifipasswords_macos.py:55-84 | `get_passwords` succeeds if and only if `get_known_ssids` does; its keys are those SSIDs without repeats, each with its keychain record |
| Macos.SinglePasswordAgrees | wifipasswords/wifipasswords_macos.py:299-307 | `get_single_password` raises `ValueError` exactly when the keychain reports the item missing, and otherwise gives the key `get_passwords` stored |
| Macos.SinglePassword | wifipasswords/wifipasswords_macos.py:299-307 | `get_single_password` raises nothing but `ValueError`, and the key it returns has no whitespace at either end |
| Macos.ConnectedPairs | wifipasswords/wifipasswords_macos.py:270-273 | one pair per connected SSID, in order, each with its keychain key |
| Macos.ConnectedPasswordsAgree | wifipasswords/wifipasswords_macos.py:267-275 | each pair's SSID is the connected SSID at that position, and its key agrees with `get_single_password` and `get_passwords` |
| Macos.ScopedSections | wifipasswords/wifipasswords_macos.py:147-149 | a missing scoped-queries header raises `ValueError` only |
| Macos.ScopedSectionsSpec | wifipasswords/wifipasswords_macos.py:147-149 | it fails if and only if the header is absent; otherwise it gives the sections after its first occurrence |
| Macos.ColonFieldSpec | wifipasswords/wifipasswords_macos.py:163-170 | a field row without `:` fails; otherwise another row keeps the current value |
| Macos.ScopeStepSpec | wifipasswords/wifipasswords_macos.py:163-170 | a scope row updates exactly the search domain, interface or name server it names |
| Macos.ScopeOfErr | wifipasswords/wifipasswords_macos.py:158-170 | a section fails if and only if some row is bad |
| Macos.ScopeOfFields | wifipasswords/wifipasswords_macos.py:158-170 | interface, name server and suffix are the last values given in the section, else empty |
| Macos.ScopedFold | wifipasswords/wifipasswords_macos.py:158-172 | the section loop adds each section's entry in order; a failing section fails it |
| Macos.DnsConfigEntries | wifipasswords/wifipasswords_macos.py:140-172 | the dictionary is the interface defaults followed by the scoped entries |
| Macos.DnsConfigKeys | wifipasswords/wifipasswords_macos.py:151-172 | the keys are the `ifconfig` interfaces, then the scoped interfaces, without repeats; every type is `None` |
| Macos.ScopedStepErrors | wifipasswords/wifipasswords_macos.py:158-172 | a scoped section raises only `IndexError` (a field row without `:`) or `TypeError` (an `if_index` row without a parenthesised group) |
| Macos.DnsConfig | wifipasswords/wifipasswords_macos.py:140-172 | the DNS dictionary raises only `ValueError` (no scoped-queries header), `IndexError` or `TypeError`, and holds each interface once |
| Macos.DefaultsThenScoped | wifipasswords/wifipasswords_macos.py:155-172 | the same property for any names and entries |
| Macos.DnsUnscoped | wifipasswords/wifipasswords_macos.py:155-156 | an interface with no scoped section keeps the empty default |
| Macos.DefaultKept | wifipasswords/wifipasswords_macos.py:155-156 | a default not overwritten is kept |
| Macos.DnsScoped | wifipasswords/wifipasswords_macos.py:158-172 | the last scoped section of an interface decides its entry |
| Macos.ScopedLast | wifipasswords/wifipasswords_macos.py:158-172 | the same property for any names and sections |
| Macos.OtherInterfacesSpec | wifipasswords/wifipasswords_macos.py:177-188 | an interface is listed under "Other interfaces" if and only if its DNS is empty |
| Macos.UnlabelledStanzas | wifipasswords/wifipasswords_macos.py:211-229 | networks without an auth label get no WPA stanza and each gets one open stanza, in order |
| Macos.PasswordsStanzas | wifipasswords/wifipasswords_macos.py:211-229 | so the macOS networks are saved only as open stanzas |
| Macos.WifiPasswordsMacos.constructor | wifipasswords/wifipasswords_macos.py:30-37 | a new collector has no data and all counters zero |
| Macos.WifiPasswordsMacos.GetPasswords | wifipasswords/wifipasswords_macos.py:55-84 | the keychain networks: keys are the known SSIDs without repeats, each with its keychain key (`Macos.PasswordsMatchKnown`); no field changes |
| Macos.WifiPasswordsMacos.ReadPasswords | wifipasswords/wifipasswords_macos.py:80-82 | the loop over SSIDs stores each SSID's keychain record, the last one for a repeated SSID winning |
| Macos.WifiPasswordsMacos.ReadKeychain | wifipasswords/wifipasswords_macos.py:61-77 | the SSIDs of the keychain dump, as `Macos.KnownSsidsSpec` characterises |
| Macos.WifiPasswordsMacos.ReadItems | wifipasswords/wifipasswords_macos.py:65-77 | the item loop appends each AirPort item's SSIDs in order and stops at the first bad blob |
| Macos.WifiPasswordsMacos.ReadItem | wifipasswords/wifipasswords_macos.py:66-77 | one item appends the SSIDs of its `acct` rows |
| Macos.WifiPasswordsMacos.ReadAcctRows | wifipasswords/wifipasswords_macos.py:66-77 | the row loop appends each `acct` row's decoded SSID |
| Macos.WifiPasswordsMacos.ReadAcctRow | wifipasswords/wifipasswords_macos.py:67-77 | one row adds its SSID as `Macos.AcctStepSpec` states |
| Macos.WifiPasswordsMacos.GetPasswordsDummy | wifipasswords/wifipasswords_macos.py:87-105 | returns and stores the dummy networks and counts them |
| Macos.WifiPasswordsMacos.GetPasswordsData | wifipasswords/wifipasswords_macos.py:108-109 | returns the stored data |
| Macos.WifiPasswordsMacos.GetDnsConfig | wifipasswords/wifipasswords_macos.py:140-188 | no scoped header raises `ValueError` before the count changes; otherwise counts the interfaces and gives the dictionary or the text |
| Macos.WifiPasswordsMacos.ReadScopedHeader | wifipasswords/wifipasswords_macos.py:147-149 | the sections after the first scoped-queries header, or `ValueError` when absent (`Macos.ScopedSectionsSpec`) |
| Macos.WifiPasswordsMacos.ReadDefaults | wifipasswords/wifipasswords_macos.py:155-156 | one empty `None` entry per `ifconfig` interface, repeats collapsed |
| Macos.WifiPasswordsMacos.ReadScopedSections | wifipasswords/wifipasswords_macos.py:158-172 | the section loop adds each section's entry after the defaults, the last one for an interface winning (`Macos.DnsScoped`) |
| Macos.WifiPasswordsMacos.ReadScope | wifipasswords/wifipasswords_macos.py:159-170 | one section's interface, name server and suffix: the last values given (`Macos.ScopeOfFields`) |
| Macos.WifiPasswordsMacos.ReadScopeRows | wifipasswords/wifipasswords_macos.py:164-170 | the section's row loop keeps the last value of each field and stops at the first bad row |
| Macos.WifiPasswordsMacos.ReadScopeRow | wifipasswords/wifipasswords_macos.py:165-170 | one row updates the field it names, as `Macos.ScopeStepSpec` states |
| Macos.WifiPasswordsMacos.RenderDns | wifipasswords/wifipasswords_macos.py:177-188 | the text form: the interface count, the configured interfaces, then every interface with empty DNS under "Other interfaces" |
| Macos.WifiPasswordsMacos.RenderConfigured | wifipasswords/wifipasswords_macos.py:179-185 | the loop writes one paragraph per interface with DNS set and collects the others, in order (`Macos.OtherInterfacesSpec`) |
| Macos.WifiPasswordsMacos.RenderBullets | wifipasswords/wifipasswords_macos.py:186-187 | one ` name` line per other interface, in order |
| Macos.WifiPasswordsMacos.SaveWpaSupplicant | wifipasswords/wifipasswords_macos.py:191-229 | writes the given, or else the stored, data in the macOS layout |
| Macos.WifiPasswordsMacos.GetNumberInterfaces | wifipasswords/wifipasswords_macos.py:245-247 | runs the DNS query and returns the interface count or its error |
| Macos.WifiPasswordsMacos.GetNumberProfiles | wifipasswords/wifipasswords_macos.py:250-253 | a non-zero count as it is; a zero count stays 0 after `get_passwords`, or reports its error |
| Macos.WifiPasswordsMacos.GetCurrentlyConnectedSsids | wifipasswords/wifipasswords_macos.py:256-264 | the stripped values after `:` of the ` SSID` rows of `airport -I`, in order, or `IndexError` |
| Macos.WifiPasswordsMacos.GetCurrentlyConnectedPasswords | wifipasswords/wifipasswords_macos.py:267-275 | one pair per connected SSID, in order, each with the key `get_single_password` and `get_passwords` give (`Macos.ConnectedPasswordsAgree`) |
| Macos.WifiPasswordsMacos.ReadConnectedPairs | wifipasswords/wifipasswords_macos.py:270-273 | the pair loop gives one `(ssid, keychain key)` per SSID, in order (`Macos.ConnectedPairs`) |
| Macos.WifiPasswordsMacos.GetKnownSsids | wifipasswords/wifipasswords_macos.py:278-296 | the keychain SSIDs, the same names `get_passwords` uses as keys |
| Macos.WifiPasswordsMacos.GetSinglePassword | wifipasswords/wifipasswords_macos.py:299-307 | the stripped keychain key, or `ValueError` exactly when the keychain reports the item missing (`Macos.SinglePasswordAgrees`) |

## Left out

- Running commands: `subprocess`, `_command_runner` and the `sudo` prompt are not modelled. Their outputs are host fields, and the host cannot change between two calls.
- Decoding: the UTF-8 decoding of command output is not modelled separately. Outputs are already strings, except for the macOS hex blobs, which are modelled.
- Paths: `os.path.exists` (NetworkManager) and `os.path.isfile` (the wpa_supplicant file) are `bool` fields of the Linux host.
- Threads: the Linux thread pool is modelled as sequential (see above).
- Files and JSON: `save_json` and the write of the supplicant file itself are left out. `SaveWpaSupplicant` returns the file's lines instead of writing them.
- Header values: the date, `platform.uname()` and the library version in the supplicant header are fields of `Supplicant.Header`.
- Timing and randomness: the `delay` of `get_passwords_dummy` is left out. Its random choices come from `Dummy.Choices`.
- Dummy.DummyShape: the docstring of `get_passwords_dummy` promises `quantity` networks, half open and half WPA (ten for the default; `wifipasswords/__init__.py:102`), but the code gives `2 * (int(quantity / 2) - 1)`. The model follows the code, so the default gives eight.
- Dummy.TruncHalf: models `int(quantity / 2)` as exact integer truncation. Python divides in floating point, so the results differ once `abs(quantity)` exceeds 2^53 (for 2^54 + 2 Python gives 2^53, the model 2^53 + 1), and Python raises `OverflowError` for a quantity beyond the float range (about 1.8e308), which the model never does.
- Linux.WifiPasswordsLinux.GetDnsConfig: the Linux `get_dns_config` never sets `number_of_interfaces`, so `get_number_interfaces` returns the stored value. The model keeps this.
- Linux.WifiPasswordsLinux.GetDnsConfig: the text form of the Linux DNS report is not modelled, only the dictionary.
- Macos.WifiPasswordsMacos.GetPasswords: the macOS `get_passwords` sets neither `data` nor `number_of_profiles`, so `get_number_profiles` stays 0 there. The model keeps this.
- macOS visible networks: `get_visible_networks` and `get_number_visible_networks` are left out. They parse `airport -s` columns with lookbehind regular expressions, and the model has no regular-expression engine. The macOS `number_visible_networks` field therefore stays 0.
- Windows.WifiPasswordsWindows.GetVisibleNetworks: the dictionary form is `VisiblePerNetwork`, a placeholder. The per-SSID dictionary built from the split `netsh` output (lines 117-155) is not modelled, and neither are its errors: the source raises `IndexError` when a block's first line has no `:` (line 125), which the model never does. The count, the powered-down cases and the text form are modelled.
- Digits: `\d` in the Windows count pattern is read as the ASCII digits. Python also accepts other Unicode decimal digits.
- `__init__.py` and `__main__.py`: the facade class and the command-line front end are not modelled. The facade picks a collector by `platform.system()` and raises `NotImplementedError` on macOS, so the macOS collector is reachable only directly. The facade's `number_of_interfaces` property (`__init__.py:84`) returns the collector's `number_visible_networks`.
