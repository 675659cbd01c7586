/**
 Rows a shadow transaction must not see: those it deleted (bdb/bdb_osqlcur.c), and those that committed undo
 logs put in their place, which it skips while applying the logs (bdb/bdb_osqllog.c).
 */
module SkipTable {
  import opened Lsns
  import opened ShadowTables

  /** A row id in host order: an epoch whose top bit marks ids made up by the transaction, and a right hand
      side whose low four bits are the stripe. */
  datatype Genid = Genid(epoch: nat, rhs: nat) {
    predicate Synthetic() { epoch / 0x8000_0000 % 2 == 1 }

    predicate Zero() { epoch == 0 && rhs == 0 }

    /** Order of creation; the stripe does not matter. */
    predicate OlderThan(g: Genid) { epoch < g.epoch || (epoch == g.epoch && rhs / 16 < g.rhs / 16) }
  }

  datatype TranClass = ReadCommitted | Snapisol | Serializable | Sosql

  /** `rows` holds the genids in each skip table; `check` is the flag that lets lookups skip the search. */
  datatype Tran = Tran(cls: TranClass, start: Genid, check: bool, shadows: Shadows, rows: map<Temp, set<Genid>>)

  /** `skip` is the skip table once the cursor has opened it. */
  datatype Cursor = Cursor(dbnum: nat, skip: Option<Temp>)

  function SkipPlace(dbnum: nat): Place { Place(dbnum, Skip, 0) }

  function SkipOf(tran: Tran, dbnum: nat): Option<Temp> { At(tran.shadows.tables, SkipPlace(dbnum)) }

  // ----- What the transaction promises -----

  predicate BeyondLimit(cls: TranClass, start: Genid, g: Genid) {
    cls == Serializable && !start.Zero() && start.OlderThan(g)
  }

  /** A real row is hidden if it is newer than a serializable transaction, deleted by the transaction or skipped
      by an applied undo log. Socket transactions search only to detect a second delete (`dedup`). */
  predicate Hidden(cls: TranClass, start: Genid, deleted: set<Genid>, undone: set<Genid>, g: Genid, dedup: bool) {
    !g.Synthetic() && (BeyondLimit(cls, start, g) || ((cls != Sosql || dedup) && (g in deleted || g in undone)))
  }

  /** Undo logs concern the transaction's past only. */
  predicate BeforeStart(start: Genid, g: Genid) { start.Zero() || g.OlderThan(start) }

  // ----- Steps -----

  function OpenTran(dims: Dims, tran: Tran, p: Place, create: bool, makes: bool): Tran
    requires p.In(dims) && AllShaped(dims, tran.shadows.tables)
  {
    var shadows := Open(dims, tran.shadows, p, create, makes);
    tran.(shadows := shadows,
          rows := if shadows.next > tran.shadows.next then tran.rows[tran.shadows.next := {}] else tran.rows)
  }

  /** Does a lookup get as far as the skip table? */
  predicate Searches(tran: Tran, g: Genid, dedup: bool) {
    && !g.Synthetic() && !BeyondLimit(tran.cls, tran.start, g)
    && if tran.cls == Sosql then dedup else tran.check
  }

  function Looked(tran: Tran, cur: Cursor, g: Genid, dedup: bool): Cursor {
    if Searches(tran, g, dedup) && cur.skip.None? then cur.(skip := SkipOf(tran, cur.dbnum)) else cur
  }

  predicate Answer(tran: Tran, cur: Cursor, g: Genid, dedup: bool) {
    !g.Synthetic() &&
    (BeyondLimit(tran.cls, tran.start, g) ||
     (Searches(tran, g, dedup) &&
      var skip := Looked(tran, cur, g, dedup).skip;
      skip.Some? && skip.value in tran.rows && g in tran.rows[skip.value]))
  }

  datatype Marking = Marking(tran: Tran, cur: Cursor, ok: bool)

  function Mark(dims: Dims, tran: Tran, cur: Cursor, g: Genid, makes: bool): Marking
    requires cur.dbnum < |dims.numix| && AllShaped(dims, tran.shadows.tables)
  {
    var open := if cur.skip.Some? then tran else OpenTran(dims, tran, SkipPlace(cur.dbnum), true, makes);
    var skip := if cur.skip.Some? then cur.skip else SkipOf(open, cur.dbnum);
    if skip.None? || skip.value !in open.rows then Marking(open.(check := true), cur, false)
    else Marking(open.(check := true, rows := open.rows[skip.value := open.rows[skip.value] + {g}]),
                 cur.(skip := skip), true)
  }

  /** Applying an undo log that skips row `g`: the flag is set only once the row is in the table. */
  function LogSkip(dims: Dims, tran: Tran, dbnum: nat, g: Genid, makes: bool): Tran
    requires dbnum < |dims.numix| && AllShaped(dims, tran.shadows.tables)
  {
    if !BeforeStart(tran.start, g) then tran
    else
      var open := OpenTran(dims, tran, SkipPlace(dbnum), true, makes);
      var skip := SkipOf(open, dbnum);
      if skip.None? || skip.value !in open.rows then open
      else open.(check := true, rows := open.rows[skip.value := open.rows[skip.value] + {g}])
  }

  /** Whether the row got there. */
  predicate LogSkips(tran: Tran, dbnum: nat, g: Genid, makes: bool) {
    BeforeStart(tran.start, g) && (makes || SkipOf(tran, dbnum).Some?)
  }

  datatype World = World(tran: Tran, cursors: seq<Cursor>)

  datatype Step =
    | NewCursor(dbnum: nat)
    | MarkDeleted(c: nat, g: Genid, makes: bool)
    | Look(c: nat, g: Genid, dedup: bool)
    | ResetCursor(c: nat)
    | OpenShadow(p: Place, create: bool, makes: bool)
    | UndoSkip(dbnum: nat, g: Genid, makes: bool)
    | SetCheck

  predicate CanStep(dims: Dims, w: World, s: Step) {
    AllShaped(dims, w.tran.shadows.tables) &&
    match s
    case NewCursor(d) => d < |dims.numix|
    case MarkDeleted(c, _, _) => c < |w.cursors| && w.cursors[c].dbnum < |dims.numix|
    case Look(c, _, _) => c < |w.cursors|
    case ResetCursor(c) => c < |w.cursors|
    case OpenShadow(p, _, _) => p.In(dims)
    case UndoSkip(d, _, _) => d < |dims.numix|
    case SetCheck => true
  }

  function Next(dims: Dims, w: World, s: Step): World
    requires CanStep(dims, w, s)
  {
    match s
    case NewCursor(d) => w.(cursors := w.cursors + [Cursor(d, None)])
    case MarkDeleted(c, g, makes) =>
      var m := Mark(dims, w.tran, w.cursors[c], g, makes);
      World(m.tran, w.cursors[c := m.cur])
    case Look(c, g, dedup) => w.(cursors := w.cursors[c := Looked(w.tran, w.cursors[c], g, dedup)])
    case ResetCursor(c) => w.(cursors := w.cursors[c := w.cursors[c].(skip := None)])
    case OpenShadow(p, create, makes) => w.(tran := OpenTran(dims, w.tran, p, create, makes))
    case UndoSkip(d, g, makes) => w.(tran := LogSkip(dims, w.tran, d, g, makes))
    case SetCheck => w.(tran := w.tran.(check := true))
  }

  // ----- What was hidden, from the calls alone -----

  /** By table number, the genids reported deleted so far and those that undo logs skipped. */
  datatype History = History(marked: map<nat, set<Genid>>, skipped: map<nat, set<Genid>>) {
    function Deleted(dbnum: nat): set<Genid> { if dbnum in marked then marked[dbnum] else {} }

    function Undone(dbnum: nat): set<Genid> { if dbnum in skipped then skipped[dbnum] else {} }

    function All(dbnum: nat): set<Genid> { Deleted(dbnum) + Undone(dbnum) }

    function Mark(dbnum: nat, g: Genid): History { this.(marked := marked[dbnum := Deleted(dbnum) + {g}]) }

    function Skip(dbnum: nat, g: Genid): History { this.(skipped := skipped[dbnum := Undone(dbnum) + {g}]) }
  }

  const NO_HISTORY := History(map[], map[])

  function Remember(dims: Dims, w: World, s: Step, h: History): History
    requires CanStep(dims, w, s)
  {
    if s.MarkDeleted? && Mark(dims, w.tran, w.cursors[s.c], s.g, s.makes).ok then h.Mark(w.cursors[s.c].dbnum, s.g)
    else if s.UndoSkip? && LogSkips(w.tran, s.dbnum, s.g, s.makes) then h.Skip(s.dbnum, s.g)
    else h
  }

  // ----- The invariant -----

  predicate SlotOk(tran: Tran, h: History, dbnum: nat) {
    match SkipOf(tran, dbnum)
    case Some(t) => t < tran.shadows.next && t in tran.rows && tran.rows[t] == h.All(dbnum)
    case None => h.All(dbnum) == {}
  }

  predicate Apart(tran: Tran, d: nat, e: nat) { SkipOf(tran, d).Some? && d != e ==> SkipOf(tran, d) != SkipOf(tran, e) }

  ghost predicate TranOk(dims: Dims, tran: Tran, h: History) {
    && AllShaped(dims, tran.shadows.tables)
    && (forall d: nat :: SlotOk(tran, h, d))
    && (forall d: nat, e: nat :: Apart(tran, d, e))
    && (!tran.check ==> forall d: nat :: h.All(d) == {})
    && UndoneOk(h, tran.start)
  }

  ghost predicate UndoneOk(h: History, start: Genid) {
    forall d: nat, g :: g in h.Undone(d) ==> BeforeStart(start, g)
  }

  lemma HistoryGrows(h: History, d: nat, g: Genid, start: Genid)
    requires UndoneOk(h, start)
    ensures UndoneOk(h.Mark(d, g), start) && Adds(h, h.Mark(d, g), d, g)
    ensures BeforeStart(start, g) ==> UndoneOk(h.Skip(d, g), start)
    ensures Adds(h, h.Skip(d, g), d, g)
  {
    forall e: nat, x | x in h.Mark(d, g).Undone(e) ensures BeforeStart(start, x) {
      assert x in h.Undone(e);
    }
    if BeforeStart(start, g) {
      forall e: nat, x | x in h.Skip(d, g).Undone(e) ensures BeforeStart(start, x) {
        assert x in h.Undone(e) || x == g;
      }
    }
  }

  predicate CursorOk(dims: Dims, tran: Tran, cur: Cursor) {
    cur.dbnum < |dims.numix| && (cur.skip.Some? ==> cur.skip == SkipOf(tran, cur.dbnum))
  }

  ghost predicate WorldOk(dims: Dims, w: World, h: History) {
    TranOk(dims, w.tran, h) && forall c :: 0 <= c < |w.cursors| ==> CursorOk(dims, w.tran, w.cursors[c])
  }

  /** Slots that are filled stay as they are. */
  ghost predicate SlotsKept(tran: Tran, after: Tran) {
    forall d: nat :: SkipOf(tran, d).Some? ==> SkipOf(after, d) == SkipOf(tran, d)
  }

  lemma OpenKeepsOk(dims: Dims, tran: Tran, p: Place, create: bool, makes: bool, h: History)
    requires TranOk(dims, tran, h) && p.In(dims)
    ensures var after := OpenTran(dims, tran, p, create, makes);
            TranOk(dims, after, h) && SlotsKept(tran, after)
  {
    var after := OpenTran(dims, tran, p, create, makes);
    OpenSlots(dims, tran.shadows, p, create, makes);
    forall d: nat ensures SlotOk(after, h, d) && (SkipOf(tran, d).Some? ==> SkipOf(after, d) == SkipOf(tran, d)) {
      assert SlotOk(tran, h, d);
      assert Same(p, SkipPlace(d)) ==> SkipPlace(d) == p || p.kind == Skip;
    }
    forall d: nat, e: nat ensures Apart(after, d, e) {
      assert Apart(tran, d, e) && SlotOk(tran, h, d) && SlotOk(tran, h, e);
    }
  }

  /** `more` is `h` with `g` added for table `d`. */
  ghost predicate Adds(h: History, more: History, d: nat, g: Genid) {
    more.All(d) == h.All(d) + {g} && forall e: nat :: e != d ==> more.All(e) == h.All(e)
  }

  lemma InsertKeepsOk(dims: Dims, tran: Tran, h: History, more: History, d: nat, g: Genid)
    requires TranOk(dims, tran, h) && SkipOf(tran, d).Some? && Adds(h, more, d, g)
    requires UndoneOk(more, tran.start)
    ensures var t := SkipOf(tran, d).value;
            t in tran.rows && TranOk(dims, tran.(check := true, rows := tran.rows[t := tran.rows[t] + {g}]), more)
  {
    assert SlotOk(tran, h, d);
    var t := SkipOf(tran, d).value;
    var after := tran.(check := true, rows := tran.rows[t := tran.rows[t] + {g}]);
    forall e: nat ensures SlotOk(after, more, e) {
      assert SlotOk(tran, h, e) && Apart(tran, d, e);
    }
    forall e: nat, f: nat ensures Apart(after, e, f) {
      assert Apart(tran, e, f);
    }
  }

  lemma MarkKeepsOk(dims: Dims, tran: Tran, cur: Cursor, g: Genid, makes: bool, h: History)
    requires TranOk(dims, tran, h) && CursorOk(dims, tran, cur)
    ensures var m := Mark(dims, tran, cur, g, makes);
            && TranOk(dims, m.tran, if m.ok then h.Mark(cur.dbnum, g) else h)
            && CursorOk(dims, m.tran, m.cur) && SlotsKept(tran, m.tran)
            && (m.ok <==> makes || SkipOf(tran, cur.dbnum).Some?)
  {
    var open := if cur.skip.Some? then tran else OpenTran(dims, tran, SkipPlace(cur.dbnum), true, makes);
    if cur.skip.None? {
      OpenKeepsOk(dims, tran, SkipPlace(cur.dbnum), true, makes, h);
      OpenSlots(dims, tran.shadows, SkipPlace(cur.dbnum), true, makes);
    }
    if SkipOf(open, cur.dbnum).Some? {
      HistoryGrows(h, cur.dbnum, g, tran.start);
      InsertKeepsOk(dims, open, h, h.Mark(cur.dbnum, g), cur.dbnum, g);
    } else {
      CheckKeepsOk(dims, open, h);
    }
  }

  lemma LogSkipKeepsOk(dims: Dims, tran: Tran, dbnum: nat, g: Genid, makes: bool, h: History)
    requires TranOk(dims, tran, h) && dbnum < |dims.numix|
    ensures var after := LogSkip(dims, tran, dbnum, g, makes);
            && TranOk(dims, after, if LogSkips(tran, dbnum, g, makes) then h.Skip(dbnum, g) else h)
            && SlotsKept(tran, after)
  {
    if BeforeStart(tran.start, g) {
      var open := OpenTran(dims, tran, SkipPlace(dbnum), true, makes);
      OpenKeepsOk(dims, tran, SkipPlace(dbnum), true, makes, h);
      OpenSlots(dims, tran.shadows, SkipPlace(dbnum), true, makes);
      if SkipOf(open, dbnum).Some? {
        HistoryGrows(h, dbnum, g, tran.start);
        InsertKeepsOk(dims, open, h, h.Skip(dbnum, g), dbnum, g);
      }
    }
  }

  lemma CheckKeepsOk(dims: Dims, tran: Tran, h: History)
    requires TranOk(dims, tran, h)
    ensures TranOk(dims, tran.(check := true), h)
  {
    var after := tran.(check := true);
    forall d: nat ensures SlotOk(after, h, d) {
      assert SlotOk(tran, h, d);
    }
    forall d: nat, e: nat ensures Apart(after, d, e) {
      assert Apart(tran, d, e);
    }
  }

  lemma StepKeepsOk(dims: Dims, w: World, s: Step, h: History)
    requires WorldOk(dims, w, h) && CanStep(dims, w, s)
    ensures WorldOk(dims, Next(dims, w, s), Remember(dims, w, s, h))
  {
    match s
    case MarkDeleted(c, g, makes) => MarkKeepsOk(dims, w.tran, w.cursors[c], g, makes, h);
    case OpenShadow(p, create, makes) => OpenKeepsOk(dims, w.tran, p, create, makes, h);
    case UndoSkip(d, g, makes) => LogSkipKeepsOk(dims, w.tran, d, g, makes, h);
    case SetCheck => CheckKeepsOk(dims, w.tran, h);
    case _ =>
  }

  // ----- Whole runs -----

  datatype Outcome = Outcome(w: World, h: History)

  /** The world and the history after `steps`, or `None` if one of them cannot be taken. */
  function Run(dims: Dims, w: World, h: History, steps: seq<Step>): Option<Outcome>
    decreases |steps|
  {
    if steps == [] then Some(Outcome(w, h))
    else if !CanStep(dims, w, steps[0]) then None
    else Run(dims, Next(dims, w, steps[0]), Remember(dims, w, steps[0], h), steps[1..])
  }

  lemma {:induction false} RunKeepsOk(dims: Dims, w: World, h: History, steps: seq<Step>)
    requires WorldOk(dims, w, h) && Run(dims, w, h, steps).Some?
    ensures var end := Run(dims, w, h, steps).value; WorldOk(dims, end.w, end.h)
    ensures var end := Run(dims, w, h, steps).value.w.tran; end.cls == w.tran.cls && end.start == w.tran.start
    decreases |steps|
  {
    if steps != [] {
      StepKeepsOk(dims, w, steps[0], h);
      RunKeepsOk(dims, Next(dims, w, steps[0]), Remember(dims, w, steps[0], h), steps[1..]);
    }
  }

  function FreshWorld(cls: TranClass, start: Genid): World {
    World(Tran(cls, start, false, Shadows(None, 0, []), map[]), [])
  }

  lemma FreshOk(dims: Dims, cls: TranClass, start: Genid)
    ensures WorldOk(dims, FreshWorld(cls, start), NO_HISTORY)
  {
    var tran := FreshWorld(cls, start).tran;
    forall d: nat, e: nat ensures SlotOk(tran, NO_HISTORY, d) && Apart(tran, d, e) {
      assert SkipOf(tran, d) == None;
    }
  }

  /** A lookup answers as if the set of deleted rows were always searched. */
  lemma AnswerIsHidden(dims: Dims, w: World, h: History, c: nat, g: Genid, dedup: bool)
    requires WorldOk(dims, w, h) && c < |w.cursors|
    ensures Answer(w.tran, w.cursors[c], g, dedup) ==
            var d := w.cursors[c].dbnum;
            Hidden(w.tran.cls, w.tran.start, h.Deleted(d), h.Undone(d), g, dedup)
  {
    var cur := w.cursors[c];
    assert CursorOk(dims, w.tran, cur) && SlotOk(w.tran, h, cur.dbnum);
  }

  /**
   Over every run of a transaction, for every cursor whenever it was opened or last reset: a row is hidden
   exactly when it is beyond the start limit, some cursor of the transaction on the same table was told it is
   deleted, or an undo log applied to that table skipped it. Nothing on other tables hides it, and undo logs
   hide only rows from before the start.
   */
  lemma DeletedRowsAreHidden(
    dims: Dims, cls: TranClass, start: Genid, steps: seq<Step>, end: Outcome, c: nat, g: Genid, dedup: bool)
    requires Run(dims, FreshWorld(cls, start), NO_HISTORY, steps) == Some(end) && c < |end.w.cursors|
    ensures var d := end.w.cursors[c].dbnum;
            && Answer(end.w.tran, end.w.cursors[c], g, dedup) ==
               Hidden(cls, start, end.h.Deleted(d), end.h.Undone(d), g, dedup)
            && (g in end.h.Undone(d) ==> BeforeStart(start, g))
  {
    FreshOk(dims, cls, start);
    RunKeepsOk(dims, FreshWorld(cls, start), NO_HISTORY, steps);
    AnswerIsHidden(dims, end.w, end.h, c, g, dedup);
  }

  /** What was reported deleted or skipped is never forgotten in the rest of the run. */
  lemma {:induction false} DeletionStays(dims: Dims, w: World, h: History, steps: seq<Step>, dbnum: nat)
    requires Run(dims, w, h, steps).Some?
    ensures var end := Run(dims, w, h, steps).value.h;
            h.Deleted(dbnum) <= end.Deleted(dbnum) && h.Undone(dbnum) <= end.Undone(dbnum)
    decreases |steps|
  {
    if steps != [] {
      DeletionStays(dims, Next(dims, w, steps[0]), Remember(dims, w, steps[0], h), steps[1..], dbnum);
    }
  }

  // ----- The objects -----

  class ShadowTran {
    const cls: TranClass
    const start: Genid
    const shadows: TranShadows
    var check: bool
    var rows: map<Temp, set<Genid>>
    ghost var history: History

    constructor (dims: Dims, cls: TranClass, start: Genid)
      ensures Valid() && fresh(shadows) && shadows.dims == dims
      ensures State() == FreshWorld(cls, start).tran && history == NO_HISTORY
    {
      this.cls, this.start := cls, start;
      check, rows, history := false, map[], NO_HISTORY;
      shadows := new TranShadows(dims);
      new;
      FreshOk(dims, cls, start);
    }

    function State(): Tran
      reads this, shadows
    {
      Tran(cls, start, check, shadows.State(), rows)
    }

    ghost predicate Valid()
      reads this, shadows
    {
      TranOk(shadows.dims, State(), history)
    }

    method OpenShadow(p: Place, create: bool, makes: bool) returns (temp: Option<Temp>)
      requires shadows.Valid() && p.In(shadows.dims)
      modifies this`rows, shadows
      ensures shadows.Valid() && State() == OpenTran(shadows.dims, old(State()), p, create, makes)
      ensures temp == At(shadows.tables, p)
    {
      var next := shadows.next;
      temp := shadows.OpenShadow(p, create, makes);
      if shadows.next > next {
        rows := rows[next := {}];
      }
    }

    /** Apply an undo log record that hides row `g`. The cursor it opens is its own and closed at once. */
    method ApplyUndo(dbnum: nat, g: Genid, makes: bool) returns (ok: bool)
      requires Valid() && dbnum < |shadows.dims.numix|
      modifies this, shadows
      ensures Valid() && State() == LogSkip(shadows.dims, old(State()), dbnum, g, makes)
      ensures ok <==> !BeforeStart(start, g) || makes || SkipOf(old(State()), dbnum).Some?
      ensures history == if LogSkips(old(State()), dbnum, g, makes) then old(history).Skip(dbnum, g) else old(history)
    {
      LogSkipKeepsOk(shadows.dims, State(), dbnum, g, makes, history);
      assert SlotOk(State(), history, dbnum);
      if !start.Zero() && !g.OlderThan(start) {
        return true;
      }
      OpenSlots(shadows.dims, shadows.State(), SkipPlace(dbnum), true, makes);
      var skip := OpenShadow(SkipPlace(dbnum), true, makes);
      if skip.None? {
        return false;
      }
      rows := rows[skip.value := rows[skip.value] + {g}];
      check := true;
      history := history.Skip(dbnum, g);
      ok := true;
    }
  }

  class SkipCursor {
    const tran: ShadowTran
    const dbnum: nat
    var skip: Option<Temp>

    constructor (tran: ShadowTran, dbnum: nat)
      requires tran.Valid() && dbnum < |tran.shadows.dims.numix|
      ensures Valid() && this.tran == tran && State() == Cursor(dbnum, None)
    {
      this.tran, this.dbnum, skip := tran, dbnum, None;
    }

    function State(): Cursor
      reads this
    {
      Cursor(dbnum, skip)
    }

    ghost predicate Valid()
      reads this, tran, tran.shadows
    {
      tran.Valid() && CursorOk(tran.shadows.dims, tran.State(), State())
    }

    /** Is the row deleted for this transaction? The skip cursor is opened the first time it is needed. */
    method IsDeleted(g: Genid, dedup: bool) returns (yes: bool)
      requires Valid()
      modifies this`skip
      ensures Valid() && State() == Looked(tran.State(), old(State()), g, dedup)
      ensures yes == Hidden(tran.cls, tran.start, tran.history.Deleted(dbnum), tran.history.Undone(dbnum), g, dedup)
    {
      assert SlotOk(tran.State(), tran.history, dbnum);
      if g.Synthetic() {
        return false;
      }
      if tran.cls != Sosql {
        if tran.cls == Serializable && !tran.start.Zero() && tran.start.OlderThan(g) {
          return true;
        }
        if !tran.check {
          return false;
        }
      }
      if dedup || tran.cls != Sosql {
        if skip.None? {
          skip := At(tran.shadows.tables, SkipPlace(dbnum));
        }
        if skip.Some? {
          return g in tran.rows[skip.value];
        }
      }
      return false;
    }

    /** Mark the row deleted, creating the skip table the first time. */
    method SetDeleted(g: Genid, makes: bool) returns (ok: bool)
      requires Valid()
      modifies this`skip, tran, tran.shadows
      ensures Valid()
      ensures var m := Mark(tran.shadows.dims, old(tran.State()), old(State()), g, makes);
              tran.State() == m.tran && State() == m.cur && ok == m.ok
      ensures tran.history == if ok then old(tran.history).Mark(dbnum, g) else old(tran.history)
    {
      MarkKeepsOk(tran.shadows.dims, tran.State(), State(), g, makes, tran.history);
      assert SlotOk(tran.State(), tran.history, dbnum);
      OpenSlots(tran.shadows.dims, tran.shadows.State(), SkipPlace(dbnum), true, makes);
      tran.check := true;
      var found := skip;
      if found.None? {
        found := tran.OpenShadow(SkipPlace(dbnum), true, makes);
        if found.None? {
          return false;
        }
      }
      skip := found;
      tran.rows := tran.rows[found.value := tran.rows[found.value] + {g}];
      tran.history := tran.history.Mark(dbnum, g);
      ok := true;
    }
  }
}
