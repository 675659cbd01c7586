/** The temp tables a shadow transaction creates on demand and closes when it ends (bdb/bdb_osqlcur.c). */
module ShadowTables {
  import opened Lsns

  datatype Kind = Data | Index | Skip | Blob

  /** Handle of a temp table; a new one is given out by each successful creation. */
  type Temp = nat

  /** One shadow file: its array of temp tables, one per stripe, allocated on first use. */
  type File = Option<seq<Option<Temp>>>

  /** The shadow files of one kind, allocated on first use. */
  type Files = Option<seq<File>>

  const KINDS := 4

  /** The shadow arrays of one table, in the order in which they are freed: index, data, skip, blob. */
  datatype TableShadows = TableShadows(files: seq<Files>) {
    function Of(kind: Kind): Files { if Rank(kind) < |files| then files[Rank(kind)] else None }

    function With(kind: Kind, f: Files): (r: TableShadows)
      requires |files| == KINDS
      ensures r.Of(kind) == f && forall other :: other != kind ==> r.Of(other) == Of(other)
    {
      TableShadows(files[Rank(kind) := f])
    }
  }

  function Rank(kind: Kind): nat {
    match kind
    case Index => 0
    case Data => 1
    case Skip => 2
    case Blob => 3
  }

  const BLOB_FILES := 16

  /** What the schema fixes: stripes of a data file, and the indexes of each table. */
  datatype Dims = Dims(dtastripe: nat, numix: seq<nat>) {
    function MaxFile(dbnum: nat, kind: Kind): nat
      requires dbnum < |numix|
    {
      match kind
      case Index => numix[dbnum]
      case Blob => BLOB_FILES
      case _ => 1
    }

    function MaxStripe(kind: Kind): nat { if kind == Data then dtastripe else 1 }
  }

  /** Which file, and which stripe of it, a request means. */
  datatype Place = Place(dbnum: nat, kind: Kind, idx: nat) {
    function File(): nat { if kind.Index? || kind.Blob? then idx else 0 }

    function Stripe(): nat { if kind.Data? then idx else 0 }

    predicate In(dims: Dims) {
      dbnum < |dims.numix| && File() < dims.MaxFile(dbnum, kind) && Stripe() < dims.MaxStripe(kind)
    }
  }

  /** Two requests for the same slot. */
  predicate Same(p: Place, q: Place) {
    p.dbnum == q.dbnum && p.kind == q.kind && p.File() == q.File() && p.Stripe() == q.Stripe()
  }

  /** `tables` is allocated as a whole by the first creation. */
  datatype Shadows = Shadows(tables: Option<seq<TableShadows>>, next: nat, closed: seq<Temp>)

  // ----- Shapes and slots -----

  predicate FileShaped(file: File, maxstripe: nat) { file.Some? ==> |file.value| == maxstripe }

  predicate Shaped(files: Files, maxfile: nat, maxstripe: nat) {
    files.Some? ==> |files.value| == maxfile && forall i :: 0 <= i < maxfile ==> FileShaped(files.value[i], maxstripe)
  }

  predicate TableShaped(dims: Dims, dbnum: nat, t: TableShadows)
    requires dbnum < |dims.numix|
  {
    |t.files| == KINDS && forall kind :: Shaped(t.Of(kind), dims.MaxFile(dbnum, kind), dims.MaxStripe(kind))
  }

  predicate AllShaped(dims: Dims, tables: Option<seq<TableShadows>>) {
    tables.Some? ==>
      |tables.value| == |dims.numix| && forall d :: 0 <= d < |tables.value| ==> TableShaped(dims, d, tables.value[d])
  }

  function Slot(files: Files, file: nat, stripe: nat): Option<Temp> {
    if files.None? || file >= |files.value| || files.value[file].None? || stripe >= |files.value[file].value| then None
    else files.value[file].value[stripe]
  }

  function At(tables: Option<seq<TableShadows>>, p: Place): Option<Temp> {
    if tables.None? || p.dbnum >= |tables.value| then None
    else Slot(tables.value[p.dbnum].Of(p.kind), p.File(), p.Stripe())
  }

  // ----- Opening -----

  /** Where creation stops early, what it has allocated so far stays. */
  function OpenFile(files: Files, file: nat, maxfile: nat, stripe: nat, maxstripe: nat, created: Option<Temp>): Files
    requires file < maxfile && stripe < maxstripe && Shaped(files, maxfile, maxstripe)
  {
    var fs := if files.None? then seq(maxfile, _ => None) else files.value;
    var tbls := if fs[file].None? then seq(maxstripe, _ => None) else fs[file].value;
    Some(fs[file := Some(if tbls[stripe].None? then tbls[stripe := created] else tbls)])
  }

  function EmptyTables(n: nat): seq<TableShadows> { seq(n, _ => TableShadows(seq(KINDS, _ => None))) }

  function OpenTables(dims: Dims, tables: Option<seq<TableShadows>>, p: Place, created: Option<Temp>): seq<TableShadows>
    requires p.In(dims) && AllShaped(dims, tables)
  {
    var ts := if tables.None? then EmptyTables(|dims.numix|) else tables.value;
    var files := OpenFile(ts[p.dbnum].Of(p.kind), p.File(), dims.MaxFile(p.dbnum, p.kind),
                          p.Stripe(), dims.MaxStripe(p.kind), created);
    ts[p.dbnum := ts[p.dbnum].With(p.kind, files)]
  }

  /** What creation puts in an empty slot: `makes` says whether the temp table engine can make a table. */
  function Offer(next: nat, makes: bool): Option<Temp> { if makes then Some(next) else None }

  function Open(dims: Dims, sh: Shadows, p: Place, create: bool, makes: bool): Shadows
    requires p.In(dims) && AllShaped(dims, sh.tables)
  {
    if !create then sh
    else
      sh.(tables := Some(OpenTables(dims, sh.tables, p, Offer(sh.next, makes))),
          next := sh.next + if makes && At(sh.tables, p).None? then 1 else 0)
  }

  lemma OpenFileSlots(files: Files, file: nat, maxfile: nat, stripe: nat, maxstripe: nat, created: Option<Temp>)
    requires file < maxfile && stripe < maxstripe && Shaped(files, maxfile, maxstripe)
    ensures var r := OpenFile(files, file, maxfile, stripe, maxstripe, created);
            && Shaped(r, maxfile, maxstripe)
            && Slot(r, file, stripe) == (if Slot(files, file, stripe).Some? then Slot(files, file, stripe) else created)
            && forall f: nat, s: nat :: f != file || s != stripe ==> Slot(r, f, s) == Slot(files, f, s)
  {
  }

  lemma OpenTablesSlots(dims: Dims, tables: Option<seq<TableShadows>>, p: Place, created: Option<Temp>)
    requires p.In(dims) && AllShaped(dims, tables)
    ensures var r := Some(OpenTables(dims, tables, p, created));
            && AllShaped(dims, r)
            && At(r, p) == (if At(tables, p).Some? then At(tables, p) else created)
            && forall q :: !Same(p, q) ==> At(r, q) == At(tables, q)
  {
    var ts := if tables.None? then EmptyTables(|dims.numix|) else tables.value;
    OpenFileSlots(ts[p.dbnum].Of(p.kind), p.File(), dims.MaxFile(p.dbnum, p.kind),
                  p.Stripe(), dims.MaxStripe(p.kind), created);
    assert TableShaped(dims, p.dbnum, ts[p.dbnum]);
  }

  /**
   Looking without creating changes nothing. Creating fills the one slot asked for, if it was empty and the
   engine could make a table, and touches no other slot.
   */
  lemma OpenSlots(dims: Dims, sh: Shadows, p: Place, create: bool, makes: bool)
    requires p.In(dims) && AllShaped(dims, sh.tables)
    ensures var r := Open(dims, sh, p, create, makes);
            && AllShaped(dims, r.tables)
            && (!create ==> r == sh)
            && At(r.tables, p) ==
               (if At(sh.tables, p).None? && create && makes then Some(sh.next) else At(sh.tables, p))
            && forall q :: !Same(p, q) ==> At(r.tables, q) == At(sh.tables, q)
  {
    if create {
      OpenTablesSlots(dims, sh.tables, p, Offer(sh.next, makes));
    }
  }

  // ----- What a transaction holds -----

  function Flat<T>(f: T -> seq<Temp>, s: seq<T>): seq<Temp> {
    if s == [] then [] else Flat(f, s[..|s| - 1]) + f(s[|s| - 1])
  }

  function OfSlot(slot: Option<Temp>): seq<Temp> { if slot.Some? then [slot.value] else [] }

  function OfFile(file: File): seq<Temp> { if file.Some? then Flat(OfSlot, file.value) else [] }

  function OfFiles(files: Files): seq<Temp> { if files.Some? then Flat(OfFile, files.value) else [] }

  /** In the order in which they are closed. */
  function OfTable(t: TableShadows): seq<Temp> { Flat(OfFiles, t.files) }

  function Held(tables: Option<seq<TableShadows>>): seq<Temp> {
    if tables.Some? then Flat(OfTable, tables.value) else []
  }

  lemma {:induction false} FlatUpdate<T>(f: T -> seq<Temp>, s: seq<T>, i: nat, x: T, more: multiset<Temp>)
    requires i < |s| && multiset(f(x)) == multiset(f(s[i])) + more
    ensures multiset(Flat(f, s[i := x])) == multiset(Flat(f, s)) + more
    decreases |s|
  {
    var n := |s| - 1;
    if i == n {
      assert s[i := x][..n] == s[..n];
    } else {
      assert s[i := x][..n] == s[..n][i := x];
      FlatUpdate(f, s[..n], i, x, more);
    }
  }

  lemma FlatOneMore<T>(f: T -> seq<Temp>, s: seq<T>, k: nat)
    requires k < |s|
    ensures Flat(f, s[..k + 1]) == Flat(f, s[..k]) + f(s[k])
  {
    assert s[..k + 1][..k] == s[..k];
  }

  lemma {:induction false} FlatEmpty<T>(f: T -> seq<Temp>, s: seq<T>)
    requires forall i :: 0 <= i < |s| ==> f(s[i]) == []
    ensures Flat(f, s) == []
    decreases |s|
  {
    if s != [] {
      FlatEmpty(f, s[..|s| - 1]);
    }
  }

  lemma OpenFileHolds(files: Files, file: nat, maxfile: nat, stripe: nat, maxstripe: nat, created: Option<Temp>)
    requires file < maxfile && stripe < maxstripe && Shaped(files, maxfile, maxstripe)
    requires Slot(files, file, stripe).None?
    ensures var r := OpenFile(files, file, maxfile, stripe, maxstripe, created);
            multiset(OfFiles(r)) == multiset(OfFiles(files)) + multiset(OfSlot(created))
  {
    var fs: seq<File> := if files.None? then seq(maxfile, _ => None) else files.value;
    var tbls: seq<Option<Temp>> := if fs[file].None? then seq(maxstripe, _ => None) else fs[file].value;
    if files.None? {
      FlatEmpty(OfFile, fs);
    }
    if fs[file].None? {
      FlatEmpty(OfSlot, tbls);
    }
    FlatUpdate(OfSlot, tbls, stripe, created, multiset(OfSlot(created)));
    FlatUpdate(OfFile, fs, file, Some(tbls[stripe := created]), multiset(OfSlot(created)));
  }

  lemma OpenTableHolds(dims: Dims, t: TableShadows, p: Place, created: Option<Temp>)
    requires |t.files| == KINDS && p.In(dims)
    requires Shaped(t.Of(p.kind), dims.MaxFile(p.dbnum, p.kind), dims.MaxStripe(p.kind))
    requires Slot(t.Of(p.kind), p.File(), p.Stripe()).None?
    ensures var files := OpenFile(t.Of(p.kind), p.File(), dims.MaxFile(p.dbnum, p.kind),
                                  p.Stripe(), dims.MaxStripe(p.kind), created);
            multiset(OfTable(t.With(p.kind, files))) == multiset(OfTable(t)) + multiset(OfSlot(created))
  {
    var files := OpenFile(t.Of(p.kind), p.File(), dims.MaxFile(p.dbnum, p.kind),
                          p.Stripe(), dims.MaxStripe(p.kind), created);
    OpenFileHolds(t.Of(p.kind), p.File(), dims.MaxFile(p.dbnum, p.kind), p.Stripe(), dims.MaxStripe(p.kind), created);
    FlatUpdate(OfFiles, t.files, Rank(p.kind), files, multiset(OfSlot(created)));
  }

  lemma OpenTablesHolds(dims: Dims, tables: Option<seq<TableShadows>>, p: Place, created: Option<Temp>)
    requires p.In(dims) && AllShaped(dims, tables) && At(tables, p).None?
    ensures multiset(Held(Some(OpenTables(dims, tables, p, created)))) ==
            multiset(Held(tables)) + multiset(OfSlot(created))
  {
    var ts := if tables.None? then EmptyTables(|dims.numix|) else tables.value;
    assert Held(tables) == Flat(OfTable, ts) by {
      if tables.None? {
        FlatEmpty(OfFiles, seq(KINDS, _ => None));
        FlatEmpty(OfTable, ts);
      }
    }
    assert TableShaped(dims, p.dbnum, ts[p.dbnum]);
    OpenTableHolds(dims, ts[p.dbnum], p, created);
    FlatUpdate(OfTable, ts, p.dbnum, OpenTables(dims, tables, p, created)[p.dbnum], multiset(OfSlot(created)));
  }

  // ----- Whole runs -----

  function Made(n: nat): seq<Temp> { seq(n, i => i) }

  /** Every table ever made is in exactly one slot or was closed exactly once. */
  predicate Accounted(dims: Dims, sh: Shadows) {
    AllShaped(dims, sh.tables) && multiset(sh.closed) + multiset(Held(sh.tables)) == multiset(Made(sh.next))
  }

  function Free(sh: Shadows): Shadows { sh.(tables := None, closed := sh.closed + Held(sh.tables)) }

  datatype Step = OpenStep(p: Place, create: bool, makes: bool) | FreeStep

  function RunShadows(dims: Dims, sh: Shadows, steps: seq<Step>): (r: Shadows)
    requires AllShaped(dims, sh.tables)
    requires forall i :: 0 <= i < |steps| && steps[i].OpenStep? ==> steps[i].p.In(dims)
    ensures AllShaped(dims, r.tables)
    decreases |steps|
  {
    if steps == [] then sh
    else
      assert steps[0].OpenStep? ==> steps[0].p.In(dims);
      var next := if steps[0].OpenStep? then
                    OpenSlots(dims, sh, steps[0].p, steps[0].create, steps[0].makes);
                    Open(dims, sh, steps[0].p, steps[0].create, steps[0].makes)
                  else Free(sh);
      RunShadows(dims, next, steps[1..])
  }

  lemma FullSlotKept(dims: Dims, tables: Option<seq<TableShadows>>, p: Place, created: Option<Temp>)
    requires p.In(dims) && AllShaped(dims, tables) && At(tables, p).Some?
    ensures OpenTables(dims, tables, p, created) == tables.value
  {
    var ts := tables.value;
    assert TableShaped(dims, p.dbnum, ts[p.dbnum]);
    var files := ts[p.dbnum].Of(p.kind);
    assert files.value[p.File() := files.value[p.File()]] == files.value;
    assert ts[p.dbnum].files[Rank(p.kind) := files] == ts[p.dbnum].files;
    assert ts[p.dbnum := ts[p.dbnum]] == ts;
  }

  lemma MadeOneMore(n: nat)
    ensures multiset(Made(n + 1)) == multiset(Made(n)) + multiset{n}
  {
    assert Made(n + 1) == Made(n) + [n];
  }

  /** An open adds to the held tables what it made. */
  lemma OpenHolds(dims: Dims, sh: Shadows, p: Place, create: bool, makes: bool)
    requires p.In(dims) && AllShaped(dims, sh.tables)
    ensures var r := Open(dims, sh, p, create, makes);
            multiset(Held(r.tables)) ==
            multiset(Held(sh.tables)) + if r.next > sh.next then multiset{sh.next} else multiset{}
  {
    if create {
      if At(sh.tables, p).Some? {
        FullSlotKept(dims, sh.tables, p, Offer(sh.next, makes));
      } else {
        OpenTablesHolds(dims, sh.tables, p, Offer(sh.next, makes));
      }
    }
  }

  lemma OpenShaped(dims: Dims, sh: Shadows, p: Place, create: bool, makes: bool)
    requires p.In(dims) && AllShaped(dims, sh.tables)
    ensures AllShaped(dims, Open(dims, sh, p, create, makes).tables)
  {
    OpenSlots(dims, sh, p, create, makes);
  }

  lemma OpenAccounted(dims: Dims, sh: Shadows, p: Place, create: bool, makes: bool)
    requires Accounted(dims, sh) && p.In(dims)
    ensures Accounted(dims, Open(dims, sh, p, create, makes))
  {
    OpenShaped(dims, sh, p, create, makes);
    OpenHolds(dims, sh, p, create, makes);
    MadeOneMore(sh.next);
    var r := Open(dims, sh, p, create, makes);
    Balance(multiset(sh.closed), multiset(Held(sh.tables)), multiset(Held(r.tables)),
            multiset(Made(sh.next)), if r.next > sh.next then multiset{sh.next} else multiset{});
  }

  lemma Balance(closed: multiset<Temp>, held: multiset<Temp>, after: multiset<Temp>, made: multiset<Temp>,
                more: multiset<Temp>)
    requires closed + held == made && after == held + more
    ensures closed + after == made + more
  {
    assert closed + (held + more) == (closed + held) + more;
  }

  /**
   Over every run of opens, failed creations and frees: no table is lost, none is in two slots, and none is
   closed twice. Right after a free everything made so far has been closed once and the next free closes
   nothing.
   */
  lemma {:induction false} NothingLeaks(dims: Dims, sh: Shadows, steps: seq<Step>)
    requires Accounted(dims, sh)
    requires forall i :: 0 <= i < |steps| && steps[i].OpenStep? ==> steps[i].p.In(dims)
    ensures var end := RunShadows(dims, sh, steps);
            && Accounted(dims, end)
            && multiset(Free(end).closed) == multiset(Made(end.next))
            && Free(Free(end)) == Free(end)
    decreases |steps|
  {
    if steps == [] {
      assert sh.closed + [] == sh.closed;
      assert Free(sh).closed + [] == Free(sh).closed;
    } else if steps[0].FreeStep? {
      NothingLeaks(dims, Free(sh), steps[1..]);
    } else {
      var s := steps[0];
      OpenShaped(dims, sh, s.p, s.create, s.makes);
      OpenAccounted(dims, sh, s.p, s.create, s.makes);
      NothingLeaks(dims, Open(dims, sh, s.p, s.create, s.makes), steps[1..]);
    }
  }

  // ----- The transaction's own fields -----

  function Failures(temps: seq<Temp>, stuck: set<Temp>): nat {
    if temps == [] then 0
    else Failures(temps[..|temps| - 1], stuck) + if temps[|temps| - 1] in stuck then 1 else 0
  }

  lemma {:induction false} FailuresConcat(a: seq<Temp>, b: seq<Temp>, stuck: set<Temp>)
    ensures Failures(a + b, stuck) == Failures(a, stuck) + Failures(b, stuck)
    decreases |b|
  {
    if b == [] {
      assert a + b == a;
    } else {
      assert (a + b)[..|a + b| - 1] == a + b[..|b| - 1];
      FailuresConcat(a, b[..|b| - 1], stuck);
    }
  }

  class TranShadows {
    var tables: Option<seq<TableShadows>>
    var next: nat
    var closed: seq<Temp>
    const dims: Dims

    constructor (dims: Dims)
      ensures this.dims == dims && State() == Shadows(None, 0, [])
    {
      this.dims := dims;
      tables, next, closed := None, 0, [];
    }

    function State(): Shadows
      reads this
    {
      Shadows(tables, next, closed)
    }

    predicate Valid()
      reads this
    {
      AllShaped(dims, tables)
    }

    /** Descend to the slot, allocating what is missing on the way if `create`. */
    method OpenFiles(files: Files, file: nat, maxfile: nat, stripe: nat, maxstripe: nat, create: bool, makes: bool)
      returns (r: Files, temp: Option<Temp>)
      requires file < maxfile && stripe < maxstripe && Shaped(files, maxfile, maxstripe)
      modifies this`next
      ensures r == if create then OpenFile(files, file, maxfile, stripe, maxstripe, Offer(old(next), makes)) else files
      ensures temp == Slot(r, file, stripe)
      ensures next == old(next) + if create && makes && Slot(files, file, stripe).None? then 1 else 0
    {
      if files.None? && !create {
        return files, None;
      }
      var shadows: seq<File> := if files.None? then seq(maxfile, _ => None) else files.value;
      if shadows[file].None? && !create {
        return files, None;
      }
      var tbls: seq<Option<Temp>> := if shadows[file].None? then seq(maxstripe, _ => None) else shadows[file].value;
      if tbls[stripe].None? {
        if !create {
          return files, None;
        }
        tbls := tbls[stripe := Offer(next, makes)];
        next := next + if makes then 1 else 0;
      }
      r := Some(shadows[file := Some(tbls)]);
      temp := tbls[stripe];
      assert !create ==> shadows[file := Some(tbls)] == shadows;
    }

    /** The table of the slot, or `None` if there is none and none was made. */
    method OpenShadow(p: Place, create: bool, makes: bool) returns (temp: Option<Temp>)
      requires Valid() && p.In(dims)
      modifies this
      ensures Valid() && State() == Open(dims, old(State()), p, create, makes)
      ensures temp == At(tables, p)
    {
      OpenSlots(dims, State(), p, create, makes);
      if tables.None? && !create {
        return None;
      }
      var all := if tables.None? then EmptyTables(|dims.numix|) else tables.value;
      assert TableShaped(dims, p.dbnum, all[p.dbnum]);
      var files;
      files, temp := OpenFiles(all[p.dbnum].Of(p.kind), p.File(), dims.MaxFile(p.dbnum, p.kind),
                               p.Stripe(), dims.MaxStripe(p.kind), create, makes);
      if create {
        tables := Some(all[p.dbnum := all[p.dbnum].With(p.kind, files)]);
      }
    }

    /** Close the tables of one array of files; `stuck` are those whose close reports an error. */
    method FreeFiles(files: Files, stuck: set<Temp>) returns (errors: nat)
      modifies this`closed
      ensures closed == old(closed) + OfFiles(files)
      ensures errors == Failures(OfFiles(files), stuck)
    {
      errors := 0;
      if files.None? {
        return;
      }
      var shadows := files.value;
      ghost var done: seq<Temp> := [];
      for num := 0 to |shadows|
        invariant done == Flat(OfFile, shadows[..num])
        invariant closed == old(closed) + done && errors == Failures(done, stuck)
      {
        var more := FreeFile(shadows[num], stuck);
        FailuresConcat(done, OfFile(shadows[num]), stuck);
        FlatOneMore(OfFile, shadows, num);
        done := done + OfFile(shadows[num]);
        errors := errors + more;
      }
      assert shadows[..|shadows|] == shadows;
    }

    method FreeFile(file: File, stuck: set<Temp>) returns (errors: nat)
      modifies this`closed
      ensures closed == old(closed) + OfFile(file)
      ensures errors == Failures(OfFile(file), stuck)
    {
      errors := 0;
      if file.None? {
        return;
      }
      var tbls := file.value;
      ghost var done: seq<Temp> := [];
      for tbl := 0 to |tbls|
        invariant done == Flat(OfSlot, tbls[..tbl])
        invariant closed == old(closed) + done && errors == Failures(done, stuck)
      {
        FailuresConcat(done, OfSlot(tbls[tbl]), stuck);
        FlatOneMore(OfSlot, tbls, tbl);
        done := done + OfSlot(tbls[tbl]);
        if tbls[tbl].Some? {
          closed := closed + [tbls[tbl].value];
          if tbls[tbl].value in stuck {
            errors := errors + 1;
          }
        }
      }
      assert tbls[..|tbls|] == tbls;
    }

    method FreeKind(t: TableShadows, k: nat, stuck: set<Temp>, before: nat, ghost was: seq<Temp>) returns (errors: nat)
      requires k < |t.files| && closed == was + Flat(OfFiles, t.files[..k])
      requires before == Failures(Flat(OfFiles, t.files[..k]), stuck)
      modifies this`closed
      ensures closed == was + Flat(OfFiles, t.files[..k + 1])
      ensures errors == Failures(Flat(OfFiles, t.files[..k + 1]), stuck)
    {
      var more := FreeFiles(t.files[k], stuck);
      FlatOneMore(OfFiles, t.files, k);
      FailuresConcat(Flat(OfFiles, t.files[..k]), OfFiles(t.files[k]), stuck);
      errors := before + more;
    }

    method FreeTable(t: TableShadows, stuck: set<Temp>) returns (errors: nat)
      requires |t.files| == KINDS
      modifies this`closed
      ensures closed == old(closed) + OfTable(t)
      ensures errors == Failures(OfTable(t), stuck)
    {
      errors := FreeKind(t, Rank(Index), stuck, 0, closed);
      errors := FreeKind(t, Rank(Data), stuck, errors, old(closed));
      errors := FreeKind(t, Rank(Skip), stuck, errors, old(closed));
      errors := FreeKind(t, Rank(Blob), stuck, errors, old(closed));
      assert t.files[..KINDS] == t.files;
    }

    method FreeTables(all: seq<TableShadows>, stuck: set<Temp>) returns (errors: nat)
      requires forall d :: 0 <= d < |all| ==> |all[d].files| == KINDS
      modifies this`closed
      ensures closed == old(closed) + Flat(OfTable, all)
      ensures errors == Failures(Flat(OfTable, all), stuck)
    {
      errors := 0;
      ghost var done: seq<Temp> := [];
      for dbnum := 0 to |all|
        invariant done == Flat(OfTable, all[..dbnum])
        invariant closed == old(closed) + done && errors == Failures(done, stuck)
      {
        var more := FreeTable(all[dbnum], stuck);
        FailuresConcat(done, OfTable(all[dbnum]), stuck);
        FlatOneMore(OfTable, all, dbnum);
        done := done + OfTable(all[dbnum]);
        errors := errors + more;
      }
      assert all[..|all|] == all;
    }

    /** Close everything held, once each; an error does not stop the rest. */
    method FreeShadows(stuck: set<Temp>) returns (errors: nat)
      requires Valid()
      modifies this
      ensures Valid() && State() == Free(old(State()))
      ensures errors == Failures(Held(old(tables)), stuck)
    {
      errors := 0;
      if tables.None? {
        assert closed + [] == closed;
        return;
      }
      forall d | 0 <= d < |tables.value| ensures |tables.value[d].files| == KINDS {
        assert TableShaped(dims, d, tables.value[d]);
      }
      errors := FreeTables(tables.value, stuck);
      tables := None;
    }
  }
}
