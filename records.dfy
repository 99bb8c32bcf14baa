/** The network record every collector produces, keyed by network name. */
module Records {
  import opened Py
  import opened PyDict

  /** `{'auth': …, 'psk': …, 'metered': …, 'macrandom': …}`. */
  datatype NetRecord = NetRecord(auth: string, psk: string, metered: bool, macrandom: string)

  /** The collected mapping, in the order the collector inserted the names. */
  type Networks = Dict<NetRecord>

  /** `net_template`, the starting value of each Windows profile. */
  const Template := NetRecord("", "", false, "Disabled")

  /** `{'type': …, 'DNS': …, 'suffix': …}`, one interface's DNS settings on
      Windows and macOS. */
  datatype DnsSetting = DnsSetting(kind: string, dns: string, suffix: string)

  /** `row.split(sep)[1]` when it exists, else `d`. */
  function SecondOr(row: string, sep: string, d: string): string
    requires sep != []
  {
    match Item(row, sep, 1)
    case Ok(v) => v
    case Err(_) => d
  }

  /** `output.split('\n')`: the rows of a command's output. */
  function Lines(output: string): seq<string> {
    Split(output, "\n")
  }

  /** When the separator occurs, item 1 exists and is the value `SecondOr` reads. */
  lemma SecondOrOk(row: string, sep: string)
    requires sep != [] && Contains(row, sep)
    ensures Item(row, sep, 1) == Ok(SecondOr(row, sep, ""))
  {
    SecondItem(row, sep);
  }

  /** When it does not, looking up item 1 raises. */
  lemma SecondOrErr(row: string, sep: string)
    requires sep != [] && !Contains(row, sep)
    ensures Item(row, sep, 1).Err?
  {
    SecondItem(row, sep);
  }

  /** The last row that contains `needle`. */
  function LastMatch(rows: seq<string>, needle: string): (r: Option<nat>)
    ensures r.Some? ==> r.value < |rows| && Contains(rows[r.value], needle)
    ensures r.Some? ==> forall j :: r.value < j < |rows| ==> !Contains(rows[j], needle)
    ensures r.None? ==> forall j :: 0 <= j < |rows| ==> !Contains(rows[j], needle)
  {
    if rows == [] then None
    else if Contains(rows[|rows| - 1], needle) then Some(|rows| - 1)
    else LastMatch(rows[..|rows| - 1], needle)
  }

  /** The value field (after the first `:`) of the last row naming `field`, or `d`. */
  function LastValue(rows: seq<string>, field: string, d: string): string {
    match LastMatch(rows, field)
    case None => d
    case Some(i) => SecondOr(rows[i], ":", "")
  }

  lemma LastValueSnoc(rows: seq<string>, row: string, field: string, d: string)
    ensures LastValue(rows + [row], field, d) ==
      if Contains(row, field) then SecondOr(row, ":", "") else LastValue(rows, field, d)
  {
    assert (rows + [row])[..|rows|] == rows;
  }

  /** `d[k] = template` for each name in turn: a dictionary comprehension
      whose values are all the same. */
  function NamedTemplates(names: seq<string>, template: NetRecord): (r: Networks)
    ensures Keys(r) == Dedup(names) && WellFormed(r)
    ensures forall i :: 0 <= i < |r| ==> r[i].val == template
  {
    if names == [] then []
    else
      var front := NamedTemplates(names[..|names| - 1], template);
      var r := Put(front, names[|names| - 1], template);
      forall i | 0 <= i < |r| ensures r[i].val == template {
        LookupAt(r, i);
        if r[i].key != names[|names| - 1] {
          var j :| 0 <= j < |front| && front[j] == Entry(r[i].key, r[i].val);
        }
      }
      r
  }

  // ---------------------------------------------------------------------------
  // A loop over rows whose body may raise

  /** The state after `step` has run on each row in turn, or the first exception. */
  function FoldRows<S, X>(step: (S, X) -> Result<S>, init: S, xs: seq<X>): Result<S> {
    if xs == [] then Ok(init)
    else
      var s :- FoldRows(step, init, xs[..|xs| - 1]);
      step(s, xs[|xs| - 1])
  }

  /** One more row: the step runs on the state so far, unless an exception was raised. */
  lemma FoldRowsStep<S, X>(step: (S, X) -> Result<S>, init: S, xs: seq<X>, i: nat)
    requires i < |xs|
    ensures FoldRows(step, init, xs[..i + 1]) ==
      match FoldRows(step, init, xs[..i])
      case Err(e) => Err(e)
      case Ok(s) => step(s, xs[i])
  {
    assert xs[..i + 1][..i] == xs[..i];
  }

  /** A loop at row `i` without an exception so far: the next step decides. */
  lemma FoldRowsNext<S, X>(step: (S, X) -> Result<S>, init: S, xs: seq<X>, i: nat, s: S)
    requires i < |xs| && FoldRows(step, init, xs[..i]) == Ok(s)
    ensures FoldRows(step, init, xs[..i + 1]) == step(s, xs[i])
  {
    FoldRowsStep(step, init, xs, i);
  }

  /** A step that raises ends the whole loop with its exception. */
  lemma FoldRowsStop<S, X>(step: (S, X) -> Result<S>, init: S, xs: seq<X>, i: nat, s: S)
    requires i < |xs| && FoldRows(step, init, xs[..i]) == Ok(s) && step(s, xs[i]).Err?
    ensures FoldRows(step, init, xs) == step(s, xs[i])
  {
    FoldRowsStep(step, init, xs, i);
    FoldRowsErr(step, init, xs, i + 1);
  }

  /** A loop through all the rows without an exception. */
  lemma FoldRowsDone<S, X>(step: (S, X) -> Result<S>, init: S, xs: seq<X>, s: S)
    requires FoldRows(step, init, xs[..|xs|]) == Ok(s)
    ensures FoldRows(step, init, xs) == Ok(s)
  {
    assert xs[..|xs|] == xs;
  }

  /** An exception raised on the first `i` rows is the exception of the whole loop. */
  lemma {:induction false} FoldRowsErr<S, X>(step: (S, X) -> Result<S>, init: S, xs: seq<X>, i: nat)
    requires i <= |xs| && FoldRows(step, init, xs[..i]).Err?
    ensures FoldRows(step, init, xs) == FoldRows(step, init, xs[..i])
    decreases |xs| - i
  {
    if i < |xs| {
      FoldRowsStep(step, init, xs, i);
      FoldRowsErr(step, init, xs, i + 1);
    } else {
      assert xs[..i] == xs;
    }
  }

  /** A loop whose every step can raise only `e` raises only `e`. */
  lemma {:induction false} FoldRowsOnly<S, X>(step: (S, X) -> Result<S>, init: S, xs: seq<X>, e: PyError)
    requires forall s, x :: step(s, x).Err? ==> step(s, x).error == e
    ensures FoldRows(step, init, xs).Err? ==> FoldRows(step, init, xs).error == e
  {
    if xs != [] {
      FoldRowsOnly(step, init, xs[..|xs| - 1], e);
    }
  }

  /** A property every successful step keeps holds of the final state. */
  lemma {:induction false} FoldRowsKeeps<S, X>(step: (S, X) -> Result<S>, inv: S -> bool, init: S, xs: seq<X>)
    requires inv(init)
    requires forall s, x :: inv(s) && step(s, x).Ok? ==> inv(step(s, x).value)
    ensures FoldRows(step, init, xs).Ok? ==> inv(FoldRows(step, init, xs).value)
  {
    if xs != [] {
      FoldRowsKeeps(step, inv, init, xs[..|xs| - 1]);
    }
  }

  lemma FoldRowsAll<S, X>(step: (S, X) -> Result<S>, init: S, xs: seq<X>)
    ensures FoldRows(step, init, xs[..|xs|]) == FoldRows(step, init, xs)
  {
    assert xs[..|xs|] == xs;
  }

  /** A loop whose step raises exactly on the rows `bad` marks raises exactly
      when some row is marked. */
  lemma {:induction false} FoldRowsFails<S, X>(step: (S, X) -> Result<S>, bad: X -> bool, init: S, xs: seq<X>)
    requires forall s, x :: step(s, x).Err? <==> bad(x)
    ensures FoldRows(step, init, xs).Err? <==> exists i :: 0 <= i < |xs| && bad(xs[i])
  {
    if xs != [] {
      var front := xs[..|xs| - 1];
      FoldRowsFails(step, bad, init, front);
      assert forall i :: 0 <= i < |front| ==> front[i] == xs[i];
    }
  }

  /** A loop whose step raises only what `raised` allows for the row at hand
      raises, if at all, what one of its rows allows. */
  lemma {:induction false} FoldRowsRaised<S, X>(step: (S, X) -> Result<S>, raised: (X, PyError) -> bool, init: S, xs: seq<X>)
    requires forall s, x :: step(s, x).Err? ==> raised(x, step(s, x).error)
    ensures FoldRows(step, init, xs).Err? ==> exists i :: 0 <= i < |xs| && raised(xs[i], FoldRows(step, init, xs).error)
  {
    if xs != [] {
      var front := xs[..|xs| - 1];
      FoldRowsRaised(step, raised, init, front);
      var r := FoldRows(step, init, front);
      if r.Err? {
        var i :| 0 <= i < |front| && raised(front[i], r.error);
        assert xs[i] == front[i];
      } else if FoldRows(step, init, xs).Err? {
        assert raised(xs[|xs| - 1], FoldRows(step, init, xs).error);
      }
    }
  }

  /** A loop whose step sets a flag on the rows `mark` marks, and never clears
      it, ends with the flag set exactly when it started set or some row is marked. */
  lemma {:induction false} FoldRowsFlag<S, X>(step: (S, X) -> Result<S>, flag: S -> bool, mark: X -> bool, init: S, xs: seq<X>)
    requires forall s, x :: step(s, x).Ok? ==> (flag(step(s, x).value) <==> flag(s) || mark(x))
    requires FoldRows(step, init, xs).Ok?
    ensures flag(FoldRows(step, init, xs).value) <==> flag(init) || exists i :: 0 <= i < |xs| && mark(xs[i])
  {
    if xs != [] {
      var front := xs[..|xs| - 1];
      FoldRowsFlag(step, flag, mark, init, front);
      assert forall i :: 0 <= i < |front| ==> front[i] == xs[i];
    }
  }

  /** The last row `pick` finds a value in. */
  function LastFound<X>(pick: X -> Option<string>, xs: seq<X>): (r: Option<nat>)
    ensures r.Some? ==> r.value < |xs| && pick(xs[r.value]).Some?
    ensures r.Some? ==> forall j :: r.value < j < |xs| ==> pick(xs[j]).None?
    ensures r.None? ==> forall j :: 0 <= j < |xs| ==> pick(xs[j]).None?
  {
    if xs == [] then None
    else if pick(xs[|xs| - 1]).Some? then Some(|xs| - 1)
    else LastFound(pick, xs[..|xs| - 1])
  }

  /** A loop whose step takes the value `pick` finds in the row, and otherwise
      keeps the state, ends with the last row's value found, or `init`. */
  lemma {:induction false} LastFoundFold<X>(step: (string, X) -> Result<string>, pick: X -> Option<string>, init: string, xs: seq<X>)
    requires forall s, x :: step(s, x).Ok? ==> step(s, x).value == (match pick(x) case Some(v) => v case None => s)
    requires FoldRows(step, init, xs).Ok?
    ensures FoldRows(step, init, xs).value == match LastFound(pick, xs) case None => init case Some(i) => pick(xs[i]).value
  {
    if xs != [] {
      LastFoundFold(step, pick, init, xs[..|xs| - 1]);
    }
  }

  /** The same for one field of a larger state: a step that sets the field to
      the value `pick` finds, and otherwise keeps it, ends with the last value found. */
  lemma {:induction false} LastFoundField<S, X>(step: (S, X) -> Result<S>, field: S -> string, pick: X -> Option<string>, init: S, xs: seq<X>)
    requires forall s, x :: step(s, x).Ok? ==> field(step(s, x).value) == (match pick(x) case Some(v) => v case None => field(s))
    requires FoldRows(step, init, xs).Ok?
    ensures field(FoldRows(step, init, xs).value) == match LastFound(pick, xs) case None => field(init) case Some(i) => pick(xs[i]).value
  {
    if xs != [] {
      LastFoundField(step, field, pick, init, xs[..|xs| - 1]);
    }
  }

  /** A loop whose step appends the value `pick` finds in the row, if any,
      collects those values after what it started with. */
  lemma {:induction false} FoldRowsCollect<X>(step: (seq<string>, X) -> Result<seq<string>>, pick: X -> Option<string>, init: seq<string>, xs: seq<X>)
    requires forall s, x :: step(s, x).Ok? ==> step(s, x).value == s + (match pick(x) case None => [] case Some(v) => [v])
    requires FoldRows(step, init, xs).Ok?
    ensures FoldRows(step, init, xs).value == init + Collect(pick, xs)
  {
    if xs != [] {
      var front := xs[..|xs| - 1];
      FoldRowsCollect(step, pick, init, front);
      var tail := match pick(xs[|xs| - 1]) case None => [] case Some(v) => [v];
      assert init + Collect(pick, xs) == (init + Collect(pick, front)) + tail;
    }
  }

  /** A loop over `a + b` is the loop over `b` started from where the loop over `a` ended. */
  lemma {:induction false} FoldRowsAppend<S, X>(step: (S, X) -> Result<S>, init: S, a: seq<X>, b: seq<X>)
    ensures FoldRows(step, init, a + b) ==
      match FoldRows(step, init, a)
      case Err(e) => Err(e)
      case Ok(s) => FoldRows(step, s, b)
  {
    if b == [] {
      assert a + b == a;
    } else {
      assert (a + b)[..|a + b| - 1] == a + b[..|b| - 1];
      FoldRowsAppend(step, init, a, b[..|b| - 1]);
    }
  }

  /** `[f(x) for x in xs]` with an `f` that can raise: the results in order,
      or the first exception. */
  function MapRows<X, Y>(f: X -> Result<Y>, xs: seq<X>): Result<seq<Y>> {
    if xs == [] then Ok([])
    else
      var front :- MapRows(f, xs[..|xs| - 1]);
      var y :- f(xs[|xs| - 1]);
      Ok(front + [y])
  }

  /** The list raises exactly when some item does. */
  lemma {:induction false} MapRowsErr<X, Y>(f: X -> Result<Y>, xs: seq<X>)
    ensures MapRows(f, xs).Err? <==> exists j :: 0 <= j < |xs| && f(xs[j]).Err?
  {
    if xs != [] {
      var front := xs[..|xs| - 1];
      MapRowsErr(f, front);
      assert forall j :: 0 <= j < |front| ==> front[j] == xs[j];
    }
  }

  /** Otherwise it holds one result per item, in order. */
  lemma {:induction false} MapRowsOk<X, Y>(f: X -> Result<Y>, xs: seq<X>)
    requires MapRows(f, xs).Ok?
    ensures |MapRows(f, xs).value| == |xs|
    ensures forall j :: 0 <= j < |xs| ==> f(xs[j]) == Ok(MapRows(f, xs).value[j])
  {
    if xs != [] {
      var front := xs[..|xs| - 1];
      MapRowsOk(f, front);
      var ys := MapRows(f, front).value;
      var y := f(xs[|xs| - 1]).value;
      forall j | 0 <= j < |xs| ensures f(xs[j]) == Ok((ys + [y])[j]) {
        if j < |front| { assert front[j] == xs[j]; }
      }
    }
  }

  /** The rows `rows(x)` gives for each item, one item after the other. */
  function Flatten<X>(rows: X -> seq<string>, xs: seq<X>): seq<string> {
    if xs == [] then [] else Flatten(rows, xs[..|xs| - 1]) + rows(xs[|xs| - 1])
  }

  // ---------------------------------------------------------------------------
  // A loop that collects from the rows it can read

  /** The values `pick` finds in the rows, in row order; a row it finds
      nothing in is skipped. */
  function Collect<X>(pick: X -> Option<string>, xs: seq<X>): seq<string> {
    if xs == [] then []
    else Collect(pick, xs[..|xs| - 1]) + (match pick(xs[|xs| - 1]) case None => [] case Some(v) => [v])
  }

  lemma CollectStep<X>(pick: X -> Option<string>, xs: seq<X>, i: nat)
    requires i < |xs|
    ensures Collect(pick, xs[..i + 1]) ==
      Collect(pick, xs[..i]) + (match pick(xs[i]) case None => [] case Some(v) => [v])
  {
    assert xs[..i + 1][..i] == xs[..i];
  }

  lemma {:induction false} CollectMembers<X>(pick: X -> Option<string>, xs: seq<X>, v: string)
    ensures v in Collect(pick, xs) <==> exists i :: 0 <= i < |xs| && pick(xs[i]) == Some(v)
  {
    if xs != [] {
      var front := xs[..|xs| - 1];
      CollectMembers(pick, front, v);
      assert forall i :: 0 <= i < |front| ==> front[i] == xs[i];
    }
  }

  // ---------------------------------------------------------------------------
  // A loop that assigns one dictionary entry per row, or none

  /** The entries `read` finds in the rows, in row order; a row it reads as
      `None` assigns nothing, and the first exception ends the loop. */
  function EntriesOf<X, V>(read: X -> Result<Option<Entry<V>>>, xs: seq<X>): Result<seq<Entry<V>>> {
    if xs == [] then Ok([])
    else
      var front :- EntriesOf(read, xs[..|xs| - 1]);
      var e :- read(xs[|xs| - 1]);
      Ok(front + match e case None => [] case Some(en) => [en])
  }

  /** `d[k] = v` for the entry a row is read as, if it is read as one. */
  function PutRead<V>(d: Dict<V>, e: Result<Option<Entry<V>>>): Result<Dict<V>> {
    match e
    case Err(err) => Err(err)
    case Ok(None) => Ok(d)
    case Ok(Some(en)) => Ok(Put(d, en.key, en.val))
  }

  /** A row read as an entry for the key `k`. */
  predicate Assigns<V>(e: Result<Option<Entry<V>>>, k: string) {
    e.Ok? && e.value.Some? && e.value.value.key == k
  }

  /** A loop that assigns each row's entry builds the dictionary of the
      entries, in order, or raises the first exception. */
  lemma {:induction false} FoldPutEntries<X, V>(step: (Dict<V>, X) -> Result<Dict<V>>, read: X -> Result<Option<Entry<V>>>, xs: seq<X>)
    requires forall d, x :: step(d, x) == PutRead(d, read(x))
    ensures FoldRows(step, [], xs) ==
      match EntriesOf(read, xs)
      case Err(e) => Err(e)
      case Ok(es) => Ok(FromEntries(es))
  {
    if xs != [] {
      var front, x := xs[..|xs| - 1], xs[|xs| - 1];
      FoldPutEntries(step, read, front);
      var fe := EntriesOf(read, front);
      if fe.Ok? {
        assert FoldRows(step, [], xs) == step(FromEntries(fe.value), x);
        var e := read(x);
        if e.Ok? && e.value.Some? {
          FromEntriesSnoc(fe.value, e.value.value);
        } else if e.Ok? {
          assert fe.value + [] == fe.value;
        }
      }
    }
  }

  /** The entries raise exactly when some row does, with that row's exception. */
  lemma {:induction false} EntriesOfErr<X, V>(read: X -> Result<Option<Entry<V>>>, xs: seq<X>)
    ensures EntriesOf(read, xs).Err? <==> exists j :: 0 <= j < |xs| && read(xs[j]).Err?
    ensures EntriesOf(read, xs).Err? ==> exists j :: 0 <= j < |xs| && read(xs[j]) == Err(EntriesOf(read, xs).error)
  {
    if xs != [] {
      var front := xs[..|xs| - 1];
      EntriesOfErr(read, front);
      assert forall j :: 0 <= j < |front| ==> front[j] == xs[j];
    }
  }

  /** The keys of the entries are the keys the rows name, in row order. */
  lemma {:induction false} EntriesOfKeys<X, V>(read: X -> Result<Option<Entry<V>>>, pick: X -> Option<string>, xs: seq<X>)
    requires EntriesOf(read, xs).Ok?
    requires forall j :: 0 <= j < |xs| && read(xs[j]).Ok? ==>
      pick(xs[j]) == match read(xs[j]).value case None => None case Some(e) => Some(e.key)
    ensures Keys(EntriesOf(read, xs).value) == Collect(pick, xs)
  {
    if xs != [] {
      var front := xs[..|xs| - 1];
      assert forall j :: 0 <= j < |front| ==> front[j] == xs[j];
      EntriesOfKeys(read, pick, front);
      KeysAppend(EntriesOf(read, front).value,
        match read(xs[|xs| - 1]).value case None => [] case Some(en) => [en]);
    }
  }

  /** A key holds the value of the last row that assigns it. */
  lemma {:induction false} EntriesOfLast<X, V>(read: X -> Result<Option<Entry<V>>>, xs: seq<X>, i: nat, k: string, v: V)
    requires EntriesOf(read, xs).Ok?
    requires i < |xs| && read(xs[i]) == Ok(Some(Entry(k, v)))
    requires forall j :: i < j < |xs| ==> !Assigns(read(xs[j]), k)
    ensures Lookup(FromEntries(EntriesOf(read, xs).value), k) == Some(v)
  {
    var front, x := xs[..|xs| - 1], xs[|xs| - 1];
    var fe := EntriesOf(read, front).value;
    var e := read(x).value;
    if e.Some? {
      FromEntriesSnoc(fe, e.value);
    } else {
      assert fe + [] == fe;
    }
    if i < |xs| - 1 {
      assert front[i] == xs[i];
      assert forall j :: i < j < |front| ==> front[j] == xs[j];
      EntriesOfLast(read, front, i, k, v);
    }
  }

  // ---------------------------------------------------------------------------
  // A loop that appends `row.split(sep)[1]` for each row naming a field

  /** A row naming `needle` appends its item 1 under `sep`, stripped when
      `strip`; a row naming it without `sep` raises `IndexError`. */
  function FieldStep(needle: string, sep: string, strip: bool): (seq<string>, string) -> Result<seq<string>>
    requires sep != []
  {
    (acc: seq<string>, row: string) =>
      if Contains(row, needle) then
        match Item(row, sep, 1)
        case Err(e) => Err(e)
        case Ok(v) => Ok(acc + [if strip then Strip(v) else v])
      else Ok(acc)
  }

  /** The value a readable row naming `needle` contributes. */
  function FieldPick(needle: string, sep: string, strip: bool): string -> Option<string>
    requires sep != []
  {
    (row: string) =>
      if Contains(row, needle) && Contains(row, sep) then
        Some(if strip then Strip(SecondOr(row, sep, "")) else SecondOr(row, sep, ""))
      else None
  }

  /** A row naming `needle` but without `sep`. */
  predicate Unreadable(needle: string, sep: string, row: string) {
    Contains(row, needle) && !Contains(row, sep)
  }

  /** One row: `IndexError` when it is unreadable, else the picked value appended. */
  lemma FieldStepSpec(needle: string, sep: string, strip: bool, acc: seq<string>, row: string)
    requires sep != []
    ensures FieldStep(needle, sep, strip)(acc, row) ==
      if Unreadable(needle, sep, row) then Err(IndexError)
      else Ok(acc + match FieldPick(needle, sep, strip)(row) case None => [] case Some(v) => [v])
  {
    if !Contains(row, needle) {
      assert acc + [] == acc;
    } else if Contains(row, sep) {
      SecondOrOk(row, sep);
      var v := SecondOr(row, sep, "");
      assert FieldPick(needle, sep, strip)(row) == Some(if strip then Strip(v) else v);
    } else {
      SecondItem(row, sep);
    }
  }

  /** The loop raises `IndexError` exactly when some row is unreadable. */
  lemma {:induction false} FieldsFoldErr(needle: string, sep: string, strip: bool, rows: seq<string>)
    requires sep != []
    ensures FoldRows(FieldStep(needle, sep, strip), [], rows).Err? <==>
      exists i :: 0 <= i < |rows| && Unreadable(needle, sep, rows[i])
    ensures FoldRows(FieldStep(needle, sep, strip), [], rows).Err? ==>
      FoldRows(FieldStep(needle, sep, strip), [], rows).error == IndexError
  {
    if rows != [] {
      var front, row := rows[..|rows| - 1], rows[|rows| - 1];
      FieldsFoldErr(needle, sep, strip, front);
      assert forall i :: 0 <= i < |front| ==> front[i] == rows[i];
      var s := FoldRows(FieldStep(needle, sep, strip), [], front);
      if s.Ok? { FieldStepSpec(needle, sep, strip, s.value, row); }
    }
  }

  /** Otherwise it collects the value of every row naming `needle`, in row order. */
  lemma {:induction false} FieldsFold(needle: string, sep: string, strip: bool, rows: seq<string>)
    requires sep != []
    requires FoldRows(FieldStep(needle, sep, strip), [], rows).Ok?
    ensures FoldRows(FieldStep(needle, sep, strip), [], rows).value == Collect(FieldPick(needle, sep, strip), rows)
  {
    if rows != [] {
      var front, row := rows[..|rows| - 1], rows[|rows| - 1];
      FieldsFold(needle, sep, strip, front);
      FieldStepSpec(needle, sep, strip, FoldRows(FieldStep(needle, sep, strip), [], front).value, row);
    }
  }

  /** The loop itself, as every collector that reads such a list writes it. */
  method ScanFields(needle: string, sep: string, strip: bool, rows: seq<string>) returns (r: Result<seq<string>>)
    requires sep != []
    ensures r == FoldRows(FieldStep(needle, sep, strip), [], rows)
  {
    var acc := [];
    var i := 0;
    while i < |rows|
      invariant 0 <= i <= |rows|
      invariant FoldRows(FieldStep(needle, sep, strip), [], rows[..i]) == Ok(acc)
    {
      FoldRowsStep(FieldStep(needle, sep, strip), [], rows, i);
      var next := ReadField(needle, sep, strip, acc, rows[i]);
      if next.Err? { FoldRowsErr(FieldStep(needle, sep, strip), [], rows, i + 1); return Err(next.error); }
      acc := next.value;
      i := i + 1;
    }
    FoldRowsAll(FieldStep(needle, sep, strip), [], rows);
    r := Ok(acc);
  }

  method ReadField(needle: string, sep: string, strip: bool, acc: seq<string>, row: string) returns (r: Result<seq<string>>)
    requires sep != []
    ensures r == FieldStep(needle, sep, strip)(acc, row)
  {
    r := Ok(acc);
    if Contains(row, needle) {
      var v := Item(row, sep, 1);
      if v.Err? { return Err(v.error); }
      r := Ok(acc + [if strip then Strip(v.value) else v.value]);
    }
  }
}
