/**
 Bringing a cursor's shadow up to date: the committed logs from the transaction's first one to the
 current tail are applied once each, in order, resuming where the last update stopped.
 */
module ShadowUpdate {
  import opened Lsns
  import opened OsqlRepository
  import opened OsqlInvariant
  import opened OsqlRuns
  import opened OsqlObjects

  datatype CursorKind = Data | Index | Blob | Skip

  /** `lastlog` is the resume point kept with the shadow, `applied` every log applied so far.
      `running` is an update in progress: the next log to apply and the tail captured at its start. */
  datatype Shadow = Shadow(lastlog: Option<LogId>, applied: seq<LogId>, running: Option<(LogId, LogId)>)

  const FRESH_SHADOW := Shadow(None, [], None)

  /** The log after `id` in the list. */
  function Successor(logs: seq<Log>, id: LogId): (r: Option<LogId>)
  {
    if |logs| < 2 then None
    else if logs[0].id == id then Some(logs[1].id)
    else Successor(logs[1..], id)
  }

  function Tail(logs: seq<Log>): Option<LogId> {
    if logs == [] then None else Some(logs[|logs| - 1].id)
  }

  /** Start of an update. `None` stands for the aborts on an empty list or a missing next log. */
  function Begin(logs: seq<Log>, t: Trn, sh: Shadow): Option<Shadow>
    requires sh.running.None?
  {
    if sh.lastlog.None? && t.first.None? then Some(sh)
    else match Tail(logs)
      case None => None
      case Some(last) =>
        if sh.lastlog.None? then Some(sh.(running := Some((t.first.value, last))))
        else if sh.lastlog == Some(last) then Some(sh)
        else match Successor(logs, sh.lastlog.value)
          case None => None
          case Some(log) => Some(sh.(running := Some((log, last))))
  }

  /** Whether the resume point has a place to be kept: the code has one for data and index shadows, once the
      transaction's shadow tables exist. */
  predicate Records(kind: CursorKind, tables: bool) { tables && (kind == Data || kind == Index) }

  /** One turn of the loop; `records` says whether there is a place to keep the resume point. Running off the
      list before the captured tail is `None`. */
  function ApplyOne(logs: seq<Log>, sh: Shadow, records: bool): Option<Shadow>
    requires sh.running.Some?
  {
    var (log, last) := sh.running.value;
    var done := Shadow(if records then Some(log) else sh.lastlog, sh.applied + [log], None);
    if log == last then Some(done)
    else match Successor(logs, log)
      case None => None
      case Some(next) => Some(done.(running := Some((next, last))))
  }

  /** The shadow has applied `kept[a..c]`, which starts at the transaction's first log, since it last went back
      to that log. What it had applied before is `past`. */
  predicate Progress(kept: seq<LogId>, first: Option<LogId>, sh: Shadow, past: seq<LogId>, a: nat, c: nat) {
    && a < |kept| && a <= c <= |kept|
    && first == Some(kept[a])
    && sh.applied == past + kept[a..c] && (past != [] ==> past[0] == kept[a])
    && (sh.lastlog.Some? ==> a < c && sh.lastlog.value == kept[c - 1])
    && (sh.running.Some? ==> RunsAt(kept, sh.running.value, c))
  }

  /** An update comes to `kept[c]` next and ends at or after it. */
  predicate RunsAt(kept: seq<LogId>, running: (LogId, LogId), c: nat) {
    c < |kept| && running.0 == kept[c] && exists d :: c <= d < |kept| && running.1 == kept[d]
  }

  ghost predicate ShadowOk(kept: seq<LogId>, first: Option<LogId>, sh: Shadow) {
    sh == FRESH_SHADOW || exists past, a: nat, c: nat :: Progress(kept, first, sh, past, a, c)
  }

  // ----- Where logs are -----

  lemma {:induction false} SuccessorAt(logs: seq<Log>, j: nat)
    requires j + 1 < |logs| && forall x, y :: 0 <= x < y < |logs| ==> logs[x].id < logs[y].id
    ensures Successor(logs, logs[j].id) == Some(logs[j + 1].id)
  {
    if j > 0 {
      SuccessorAt(logs[1..], j - 1);
    }
  }

  /** A kept log at or after the first log of a registered transaction has its successor in the list. */
  lemma NextIsThere(r: Repo, i: nat, m: nat)
    requires RepoOk(r) && i < |r.trns| && r.trns[i].first.Some?
    requires m < |r.kept| && r.kept[m] >= r.trns[i].first.value
    ensures r.logs != [] && Tail(r.logs) == Some(r.kept[|r.kept| - 1])
    ensures m + 1 < |r.kept| ==> Successor(r.logs, r.kept[m]) == Some(r.kept[m + 1])
  {
    var n := |r.kept| - |r.logs|;
    NothingFreedAfterFirst(r, r.trns, i, m);
    LogsAscend(r);
    assert r.kept[n..][|r.logs| - 1] == Ids(r.logs)[|r.logs| - 1];
    if m + 1 < |r.kept| {
      assert r.kept[n..][m + 1 - n] == Ids(r.logs)[m + 1 - n];
      SuccessorAt(r.logs, m - n);
    }
  }

  lemma FirstIsKept(r: Repo, i: nat) returns (a: nat)
    requires RepoOk(r) && i < |r.trns| && r.trns[i].first.Some?
    ensures a < |r.kept| && r.kept[a] == r.trns[i].first.value
  {
    assert HolderOk(r.trns, i, r.logs, r.seen);
    var j := PositionOf(r.logs, r.trns[i].first.value);
    var n := |r.kept| - |r.logs|;
    assert r.kept[n..][j] == Ids(r.logs)[j];
    a := n + j;
  }

  // ----- Updates never go wrong -----

  /** Everything applied so far began with the transaction's first log. */
  lemma BeganAtFirst(kept: seq<LogId>, first: Option<LogId>, sh: Shadow, past: seq<LogId>, a: nat, c: nat)
    requires Progress(kept, first, sh, past, a, c) && sh.applied != []
    ensures sh.applied[0] == kept[a]
  {
    assert past == [] ==> sh.applied[0] == kept[a..c][0];
  }

  /** Without a resume point an update goes back to the first log. */
  lemma BeginFirst(kept: seq<LogId>, logs: seq<Log>, t: Trn, sh: Shadow, a: nat)
    requires a < |kept| && t.first == Some(kept[a]) && Tail(logs) == Some(kept[|kept| - 1])
    requires sh.running.None? && sh.lastlog.None? && (sh.applied != [] ==> sh.applied[0] == kept[a])
    ensures var b := Begin(logs, t, sh); b.Some? && Progress(kept, t.first, b.value, sh.applied, a, a)
  {
    assert sh.applied + kept[a..a] == sh.applied;
  }

  lemma BeginNext(kept: seq<LogId>, logs: seq<Log>, t: Trn, sh: Shadow, past: seq<LogId>, a: nat, c: nat)
    requires Ascending(kept) && Progress(kept, t.first, sh, past, a, c) && sh.running.None? && sh.lastlog.Some?
    requires Tail(logs) == Some(kept[|kept| - 1])
    requires c < |kept| ==> Successor(logs, kept[c - 1]) == Some(kept[c])
    ensures var b := Begin(logs, t, sh); b.Some? && Progress(kept, t.first, b.value, past, a, c)
  {
    assert c < |kept| ==> kept[c - 1] < kept[|kept| - 1];
  }

  /** An update starts from the resume point if there is one, and from the first log otherwise. */
  lemma BeginProgress(r: Repo, i: nat, sh: Shadow, past: seq<LogId>, a: nat, c: nat)
    requires RepoOk(r) && i < |r.trns| && Progress(r.kept, r.trns[i].first, sh, past, a, c) && sh.running.None?
    ensures var b := Begin(r.logs, r.trns[i], sh);
            && b.Some?
            && if sh.lastlog.Some? then Progress(r.kept, r.trns[i].first, b.value, past, a, c)
               else Progress(r.kept, r.trns[i].first, b.value, sh.applied, a, a)
  {
    if sh.lastlog.Some? {
      KeptFrom(r.kept, a, c);
      NextIsThere(r, i, c - 1);
      BeginNext(r.kept, r.logs, r.trns[i], sh, past, a, c);
    } else {
      NextIsThere(r, i, a);
      if sh.applied != [] {
        BeganAtFirst(r.kept, r.trns[i].first, sh, past, a, c);
      }
      BeginFirst(r.kept, r.logs, r.trns[i], sh, a);
    }
  }

  lemma BeginFresh(r: Repo, i: nat) returns (a: nat)
    requires RepoOk(r) && i < |r.trns| && r.trns[i].first.Some?
    ensures var b := Begin(r.logs, r.trns[i], FRESH_SHADOW);
            b.Some? && Progress(r.kept, r.trns[i].first, b.value, [], a, a)
  {
    a := FirstIsKept(r, i);
    NextIsThere(r, i, a);
    BeginFirst(r.kept, r.logs, r.trns[i], FRESH_SHADOW, a);
  }

  lemma BeginKeepsOk(r: Repo, i: nat, sh: Shadow)
    requires RepoOk(r) && i < |r.trns| && ShadowOk(r.kept, r.trns[i].first, sh) && sh.running.None?
    ensures var b := Begin(r.logs, r.trns[i], sh);
            b.Some? && ShadowOk(r.kept, r.trns[i].first, b.value)
  {
    if sh == FRESH_SHADOW {
      if r.trns[i].first.Some? {
        var a := BeginFresh(r, i);
      }
    } else {
      var past, a: nat, c: nat :| Progress(r.kept, r.trns[i].first, sh, past, a, c);
      BeginProgress(r, i, sh, past, a, c);
    }
  }

  lemma KeptFrom(kept: seq<LogId>, a: nat, c: nat)
    requires Ascending(kept) && a < c <= |kept|
    ensures kept[a] <= kept[c - 1]
  {
    assert a < c - 1 ==> kept[a] < kept[c - 1];
  }

  /** One more log, when the list still links each kept log to the next. A resume point, once kept, is kept
      again. */
  lemma ApplyProgress(
    kept: seq<LogId>, logs: seq<Log>, t: Trn, sh: Shadow, past: seq<LogId>, a: nat, c: nat, records: bool)
    requires Ascending(kept) && Progress(kept, t.first, sh, past, a, c) && sh.running.Some?
    requires c + 1 < |kept| ==> Successor(logs, kept[c]) == Some(kept[c + 1])
    requires sh.lastlog.Some? ==> records
    ensures var b := ApplyOne(logs, sh, records); b.Some? && Progress(kept, t.first, b.value, past, a, c + 1)
  {
    var d :| c <= d < |kept| && sh.running.value.1 == kept[d];
    assert c < d ==> kept[c] < kept[d];
    assert past + kept[a..c + 1] == past + kept[a..c] + [kept[c]];
  }

  lemma TurnProgress(r: Repo, i: nat, sh: Shadow, past: seq<LogId>, a: nat, c: nat, records: bool)
    requires RepoOk(r) && i < |r.trns| && Progress(r.kept, r.trns[i].first, sh, past, a, c) && sh.running.Some?
    requires sh.lastlog.Some? ==> records
    ensures var b := ApplyOne(r.logs, sh, records);
            b.Some? && Progress(r.kept, r.trns[i].first, b.value, past, a, c + 1)
  {
    assert a < c ==> r.kept[a] < r.kept[c];
    NextIsThere(r, i, c);
    ApplyProgress(r.kept, r.logs, r.trns[i], sh, past, a, c, records);
  }

  lemma ApplyKeepsOk(r: Repo, i: nat, sh: Shadow, records: bool)
    requires RepoOk(r) && i < |r.trns| && ShadowOk(r.kept, r.trns[i].first, sh) && sh.running.Some?
    requires sh.lastlog.Some? ==> records
    ensures var b := ApplyOne(r.logs, sh, records);
            b.Some? && ShadowOk(r.kept, r.trns[i].first, b.value)
  {
    var past, a: nat, c: nat :| Progress(r.kept, r.trns[i].first, sh, past, a, c);
    TurnProgress(r, i, sh, past, a, c, records);
  }

  // ----- Interleaving with the repositories -----

  /** `u` is what became of a transaction of `ts`: a first log, once set, is still the same. */
  predicate FollowsOne(ts: seq<Trn>, u: Trn) {
    exists i :: 0 <= i < |ts| && ts[i].id == u.id && (ts[i].first.Some? ==> u.first == ts[i].first)
  }

  predicate Follows(ts: seq<Trn>, nextTrn: nat, us: seq<Trn>) {
    forall j :: 0 <= j < |us| ==> us[j].id >= nextTrn || FollowsOne(ts, us[j])
  }

  lemma FollowsInPlace(ts: seq<Trn>, nextTrn: nat, us: seq<Trn>)
    requires |us| == |ts|
    requires forall i :: 0 <= i < |ts| ==> ts[i].id == us[i].id && (ts[i].first.Some? ==> us[i].first == ts[i].first)
    ensures Follows(ts, nextTrn, us)
  {
    forall j | 0 <= j < |us| ensures FollowsOne(ts, us[j]) {
      assert ts[j].id == us[j].id;
    }
  }

  lemma FollowsRemoval(ts: seq<Trn>, nextTrn: nat, x: nat)
    requires x < |ts|
    ensures Follows(ts, nextTrn, ts[..x] + ts[x + 1..])
  {
    var us := ts[..x] + ts[x + 1..];
    forall j | 0 <= j < |us| ensures FollowsOne(ts, us[j]) {
      assert us[j] == ts[if j < x then j else j + 1];
    }
  }

  lemma FollowsRegister(r: Repo, startGenid: nat, birth: Lsn, asof: Lsn)
    ensures Follows(r.trns, r.nextTrn, r.Register(startGenid, birth, asof).trns)
  {
    var us := r.Register(startGenid, birth, asof).trns;
    forall j | 0 <= j < |us| ensures us[j].id >= r.nextTrn || FollowsOne(r.trns, us[j]) {
      assert j < |r.trns| ==> us[j] == r.trns[j];
    }
  }

  lemma FollowsCancel(r: Repo, maxLsns: nat)
    requires LogsSeen(r.logs, r.seen)
    ensures Follows(r.trns, r.nextTrn, r.Collect().Cancel(maxLsns).trns)
  {
    FollowsInPlace(r.trns, r.nextTrn, r.Collect().Cancel(maxLsns).trns);
  }

  lemma StepFollows(r: Repo, step: RepoStep)
    requires RepoOk(r) && CanStep(r, step)
    ensures Follows(r.trns, r.nextTrn, RepoNext(r, step).trns)
  {
    match step
    case Register(startGenid, birth, asof) => FollowsRegister(r, startGenid, birth, asof);
    case Insert(log) => FollowsInPlace(r.trns, r.nextTrn, MarkAll(r.trns, |r.seen|, log));
    case CleanUp(maxLsns) => FollowsCancel(r, maxLsns);
    case Unlink(x) => FollowsRemoval(r.trns, r.nextTrn, x);
    case Abandon(x) => FollowsRemoval(r.trns, r.nextTrn, x);
    case Release(_) => FollowsInPlace(r.trns, r.nextTrn, r.trns);
  }

  lemma KeptGrows(r: Repo, step: RepoStep)
    requires RepoOk(r) && CanStep(r, step)
    ensures r.kept <= RepoNext(r, step).kept
  {
  }

  lemma FirstStays(ts: seq<Trn>, nextTrn: nat, us: seq<Trn>, i: nat, j: nat)
    requires TrnsOk(ts, nextTrn) && Follows(ts, nextTrn, us) && i < |ts| && j < |us| && us[j].id == ts[i].id
    ensures ts[i].first.Some? ==> us[j].first == ts[i].first
  {
  }

  lemma ProgressGrows(
    kept: seq<LogId>, more: seq<LogId>, t: Trn, u: Trn, sh: Shadow, past: seq<LogId>, a: nat, c: nat)
    requires Progress(kept, t.first, sh, past, a, c) && kept <= more && u.first == t.first
    ensures Progress(more, u.first, sh, past, a, c)
  {
    assert more[a..c] == kept[a..c];
    if sh.running.Some? {
      var d :| c <= d < |kept| && sh.running.value.1 == kept[d];
      assert more[d] == kept[d];
    }
  }

  lemma RepoStepProgress(r: Repo, step: RepoStep, i: nat, j: nat, sh: Shadow, past: seq<LogId>, a: nat, c: nat)
    requires RepoOk(r) && CanStep(r, step) && i < |r.trns| && j < |RepoNext(r, step).trns|
    requires RepoNext(r, step).trns[j].id == r.trns[i].id && Progress(r.kept, r.trns[i].first, sh, past, a, c)
    ensures Progress(RepoNext(r, step).kept, RepoNext(r, step).trns[j].first, sh, past, a, c)
  {
    var next := RepoNext(r, step);
    StepFollows(r, step);
    KeptGrows(r, step);
    FirstStays(r.trns, r.nextTrn, next.trns, i, j);
    ProgressGrows(r.kept, next.kept, r.trns[i], next.trns[j], sh, past, a, c);
  }

  /**
   The system one transaction's shadow lives in. Applying a log may create the transaction's shadow tables, and so
   may anything else the transaction does (`OpenTables`); they stay until it ends. `Stop` is an update that gives
   up between two logs because the transaction was cancelled or something failed.
   */
  datatype SysStep = Other(step: RepoStep) | OpenTables | Start | Apply(creates: bool) | Stop
  datatype Sys = Sys(repo: Repo, sh: Shadow, tables: bool)

  /** The transaction with this id is registered, at position `i`. */
  predicate At(r: Repo, id: nat, i: nat) { i < |r.trns| && r.trns[i].id == id }

  ghost predicate SysOk(s: Sys, id: nat, kind: CursorKind) {
    && RepoOk(s.repo) && (s.sh.lastlog.Some? ==> Records(kind, s.tables))
    && exists i: nat :: At(s.repo, id, i) && ShadowOk(s.repo.kept, s.repo.trns[i].first, s.sh)
  }

  /** Steps during the transaction's life, with updates split so that anything may run between two logs. */
  ghost predicate SysNext(s: Sys, step: SysStep, s': Sys, id: nat, kind: CursorKind)
    requires RepoOk(s.repo)
  {
    match step
    case Other(step) =>
      CanStep(s.repo, step) && s' == s.(repo := RepoNext(s.repo, step)) && exists j: nat :: At(s'.repo, id, j)
    case OpenTables =>
      s' == s.(tables := true)
    case Start =>
      s' == s.(sh := s'.sh) && s.sh.running.None?
      && forall i: nat :: At(s.repo, id, i) ==> Begin(s.repo.logs, s.repo.trns[i], s.sh) == Some(s'.sh)
    case Apply(creates) =>
      && s' == Sys(s.repo, s'.sh, s.tables || creates) && s.sh.running.Some?
      && ApplyOne(s.repo.logs, s.sh, Records(kind, s'.tables)) == Some(s'.sh)
    case Stop =>
      s' == s.(sh := s.sh.(running := None)) && s.sh.running.Some?
  }

  lemma StepShadowOk(s: Sys, step: SysStep, s': Sys, id: nat, kind: CursorKind, i: nat, j: nat)
    requires SysOk(s, id, kind) && SysNext(s, step, s', id, kind) && At(s.repo, id, i) && At(s'.repo, id, j)
    requires ShadowOk(s.repo.kept, s.repo.trns[i].first, s.sh) && (step.Other? || i == j)
    ensures ShadowOk(s'.repo.kept, s'.repo.trns[j].first, s'.sh)
  {
    match step
    case Other(step) =>
      if s.sh != FRESH_SHADOW {
        var past, a: nat, c: nat :| Progress(s.repo.kept, s.repo.trns[i].first, s.sh, past, a, c);
        RepoStepProgress(s.repo, step, i, j, s.sh, past, a, c);
      }
    case OpenTables =>
    case Start =>
      BeginKeepsOk(s.repo, i, s.sh);
    case Apply(_) =>
      ApplyKeepsOk(s.repo, i, s.sh, Records(kind, s'.tables));
    case Stop =>
      var past, a: nat, c: nat :| Progress(s.repo.kept, s.repo.trns[i].first, s.sh, past, a, c);
      assert Progress(s.repo.kept, s.repo.trns[i].first, s'.sh, past, a, c);
  }

  lemma StepKeepsLastlog(s: Sys, step: SysStep, s': Sys, id: nat, kind: CursorKind, i: nat)
    requires RepoOk(s.repo) && SysNext(s, step, s', id, kind) && At(s.repo, id, i)
    requires s.sh.lastlog.Some? ==> Records(kind, s.tables)
    ensures s'.sh.lastlog.Some? ==> Records(kind, s'.tables)
  {
  }

  lemma SysStepKeepsOk(s: Sys, step: SysStep, s': Sys, id: nat, kind: CursorKind)
    requires SysOk(s, id, kind) && SysNext(s, step, s', id, kind)
    ensures SysOk(s', id, kind)
  {
    var i: nat :| At(s.repo, id, i) && ShadowOk(s.repo.kept, s.repo.trns[i].first, s.sh);
    var j: nat :| At(s'.repo, id, j) && (step.Other? || j == i);
    StepShadowOk(s, step, s', id, kind, i, j);
    StepKeepsLastlog(s, step, s', id, kind, i);
  }

  /** Updates can always go on: a start or a turn never aborts or runs off the list. */
  lemma UpdatesNeverStuck(s: Sys, id: nat, kind: CursorKind, creates: bool)
    requires SysOk(s, id, kind)
    ensures s.sh.running.Some? ==> ApplyOne(s.repo.logs, s.sh, Records(kind, s.tables || creates)).Some?
    ensures s.sh.running.None? ==> exists i: nat :: At(s.repo, id, i) && Begin(s.repo.logs, s.repo.trns[i], s.sh).Some?
  {
    var i: nat :| At(s.repo, id, i) && ShadowOk(s.repo.kept, s.repo.trns[i].first, s.sh);
    if s.sh.running.Some? {
      ApplyKeepsOk(s.repo, i, s.sh, Records(kind, s.tables || creates));
    } else {
      BeginKeepsOk(s.repo, i, s.sh);
    }
  }

  ghost predicate SysRun(states: seq<Sys>, steps: seq<SysStep>, id: nat, kind: CursorKind) {
    |states| == |steps| + 1 && forall n: nat :: n < |steps| ==> StepAt(states, steps, id, kind, n)
  }

  ghost predicate StepAt(states: seq<Sys>, steps: seq<SysStep>, id: nat, kind: CursorKind, n: nat)
    requires |states| == |steps| + 1 && n < |steps|
  {
    RepoOk(states[n].repo) && SysNext(states[n], steps[n], states[n + 1], id, kind)
  }

  lemma {:induction false} SysRunKeepsOk(states: seq<Sys>, steps: seq<SysStep>, id: nat, kind: CursorKind, n: nat)
    requires SysRun(states, steps, id, kind) && SysOk(states[0], id, kind) && n < |states|
    ensures SysOk(states[n], id, kind)
  {
    if n > 0 {
      SysRunKeepsOk(states, steps, id, kind, n - 1);
      assert StepAt(states, steps, id, kind, n - 1);
      SysStepKeepsOk(states[n - 1], steps[n - 1], states[n], id, kind);
    }
  }

  /** The last turn of an update leaves the shadow at the tail captured by its start. */
  lemma UpdateEndsAtTail(
    sh: Shadow, logs: seq<Log>, kept: seq<LogId>, t: Trn, past: seq<LogId>, a: nat, c: nat, records: bool)
    requires Progress(kept, t.first, sh, past, a, c) && sh.running.Some? && Ascending(kept)
    requires ApplyOne(logs, sh, records).Some? && ApplyOne(logs, sh, records).value.running.None?
    ensures exists d :: a <= d < |kept| && kept[d] == sh.running.value.1
              && ApplyOne(logs, sh, records).value.applied == past + kept[a..d + 1]
  {
    assert past + kept[a..c + 1] == past + kept[a..c] + [kept[c]];
  }

  lemma TablesNext(states: seq<Sys>, steps: seq<SysStep>, id: nat, kind: CursorKind, n: nat)
    requires SysRun(states, steps, id, kind) && n < |steps| && states[n].tables
    ensures states[n + 1].tables
  {
    assert StepAt(states, steps, id, kind, n);
  }

  lemma {:induction false} TablesLater(states: seq<Sys>, steps: seq<SysStep>, id: nat, kind: CursorKind, i: nat, j: nat)
    requires SysRun(states, steps, id, kind) && i <= j < |states| && states[i].tables
    ensures states[j].tables
    decreases j
  {
    if i < j {
      TablesLater(states, steps, id, kind, i, j - 1);
      TablesNext(states, steps, id, kind, j - 1);
    }
  }

  // ----- Which turns keep the resume point -----

  /** The last turn before step `m`. */
  function LastTurn(steps: seq<SysStep>, m: nat): (r: Option<nat>)
    requires m <= |steps|
    ensures r.Some? ==> r.value < m && steps[r.value].Apply? && forall k :: r.value < k < m ==> !steps[k].Apply?
    ensures r.None? ==> forall k :: 0 <= k < m ==> !steps[k].Apply?
  {
    if m == 0 then None else if steps[m - 1].Apply? then Some(m - 1) else LastTurn(steps, m - 1)
  }

  /** The last turn before step `m`, if any, found a place for its resume point. `tables` says in which states the
      transaction's shadow tables exist. */
  predicate Kept(tables: seq<bool>, steps: seq<SysStep>, kind: CursorKind, m: nat)
    requires |tables| == |steps| + 1 && m <= |steps|
  {
    LastTurn(steps, m).Some? && Records(kind, tables[LastTurn(steps, m).value + 1])
  }

  predicate TablesStay(tables: seq<bool>) { forall i, j :: 0 <= i <= j < |tables| && tables[i] ==> tables[j] }

  /** A turn after one that kept its resume point keeps it too. */
  lemma KeptStays(tables: seq<bool>, steps: seq<SysStep>, kind: CursorKind, m: nat)
    requires |tables| == |steps| + 1 && TablesStay(tables) && m < |steps| && Kept(tables, steps, kind, m)
    ensures Kept(tables, steps, kind, m + 1)
  {
    assert tables[LastTurn(steps, m).value + 1] ==> tables[m + 1];
  }

  lemma KeptNext(tables: seq<bool>, steps: seq<SysStep>, kind: CursorKind, m: nat)
    requires |tables| == |steps| + 1 && m < |steps|
    ensures Kept(tables, steps, kind, m + 1) ==
            if steps[m].Apply? then Records(kind, tables[m + 1]) else Kept(tables, steps, kind, m)
  {
  }

  function Tables(states: seq<Sys>): (r: seq<bool>)
    ensures |r| == |states| && forall n :: 0 <= n < |states| ==> r[n] == states[n].tables
  {
    seq(|states|, n requires 0 <= n < |states| => states[n].tables)
  }

  lemma RunTables(states: seq<Sys>, steps: seq<SysStep>, id: nat, kind: CursorKind)
    requires SysRun(states, steps, id, kind)
    ensures TablesStay(Tables(states))
  {
    var tables := Tables(states);
    forall i, j | 0 <= i <= j < |tables| && tables[i] ensures tables[j] {
      TablesLater(states, steps, id, kind, i, j);
    }
  }

  // ----- No log twice -----

  predicate Distinct(ids: seq<LogId>) { forall i, j :: 0 <= i < j < |ids| ==> ids[i] != ids[j] }

  /** Step `m` starts an update, and the last turn before it had no place for its resume point. */
  predicate StartsOver(tables: seq<bool>, steps: seq<SysStep>, kind: CursorKind, m: nat)
    requires |tables| == |steps| + 1 && m < |steps|
  {
    steps[m].Start? && LastTurn(steps, m).Some? && !Kept(tables, steps, kind, m)
  }

  /** No update before step `n` starts over and gets to a turn. */
  predicate NoneStartsOver(tables: seq<bool>, steps: seq<SysStep>, kind: CursorKind, n: nat)
    requires |tables| == |steps| + 1 && n <= |steps|
  {
    forall m, k :: 0 <= m < k < n && steps[k].Apply? ==> !StartsOver(tables, steps, kind, m)
  }

  /** What a step does to the resume point and whether anything was applied. */
  predicate Marks(sh: Shadow, step: SysStep, sh': Shadow, records: bool) {
    if step.Apply? then sh'.applied != [] && (if records then sh'.lastlog.Some? else sh'.lastlog == sh.lastlog)
    else sh'.applied == sh.applied && sh'.lastlog == sh.lastlog
  }

  predicate MarkRun(shs: seq<Shadow>, tables: seq<bool>, steps: seq<SysStep>, kind: CursorKind) {
    && |shs| == |tables| == |steps| + 1 && TablesStay(tables) && shs[0] == FRESH_SHADOW
    && forall n :: 0 <= n < |steps| ==> Marks(shs[n], steps[n], shs[n + 1], Records(kind, tables[n + 1]))
  }

  /** The resume point is there exactly if the last turn kept it. */
  lemma {:induction false} LastlogIsKept(
    shs: seq<Shadow>, tables: seq<bool>, steps: seq<SysStep>, kind: CursorKind, n: nat)
    requires MarkRun(shs, tables, steps, kind) && n < |shs|
    ensures shs[n].lastlog.Some? <==> Kept(tables, steps, kind, n)
    ensures shs[n].applied != [] <==> LastTurn(steps, n).Some?
  {
    if n > 0 {
      LastlogIsKept(shs, tables, steps, kind, n - 1);
      assert Marks(shs[n - 1], steps[n - 1], shs[n], Records(kind, tables[n]));
      if Kept(tables, steps, kind, n - 1) {
        KeptStays(tables, steps, kind, n - 1);
      }
    }
  }

  /** What matters of the system for the shadow: the logs ever kept and the transaction's first log. */
  datatype View = View(kept: seq<LogId>, first: Option<LogId>, sh: Shadow)

  predicate InRound(v: View, past: seq<LogId>, a: nat, c: nat) { Progress(v.kept, v.first, v.sh, past, a, c) }

  /** An update that starts here goes back to the first log. */
  predicate GoesBack(v: View, step: SysStep) { step.Start? && v.sh.lastlog.None? && v.sh.applied != [] }

  /** A start without a resume point leaves everything behind, a turn adds a log, and nothing else matters. */
  predicate RoundAfter(v: View, step: SysStep, v': View, past: seq<LogId>, a: nat, c: nat) {
    if step.Start? && v.sh.lastlog.None? then InRound(v', v.sh.applied, a, a)
    else InRound(v', past, a, if step.Apply? then c + 1 else c)
  }

  ghost predicate ViewOk(v: View) { Ascending(v.kept) && ShadowOk(v.kept, v.first, v.sh) }

  function NextUp(sh: Shadow): LogId { if sh.running.Some? then sh.running.value.0 else 0 }

  predicate ViewEffect(v: View, step: SysStep, v': View) {
    && v.kept <= v'.kept
    && v'.sh.applied == (if step.Apply? then v.sh.applied + [NextUp(v.sh)] else v.sh.applied)
    && (step.Apply? ==> v.sh.running.Some?)
    && (!step.Apply? ==> v'.sh.lastlog == v.sh.lastlog)
    && (!step.Apply? && !step.Start? && v'.sh.running.Some? ==> v'.sh.running == v.sh.running)
  }

  ghost predicate ViewRounds(v: View, step: SysStep, v': View) {
    && (v.sh == FRESH_SHADOW ==> v'.sh == FRESH_SHADOW || exists a: nat :: InRound(v', [], a, a))
    && forall past, a: nat, c: nat :: InRound(v, past, a, c) ==> RoundAfter(v, step, v', past, a, c)
  }

  ghost predicate ViewNext(v: View, step: SysStep, v': View) {
    ViewOk(v) && ViewOk(v') && ViewEffect(v, step, v') && ViewRounds(v, step, v')
  }

  ghost predicate ViewStep(views: seq<View>, steps: seq<SysStep>, n: nat)
    requires |views| == |steps| + 1 && n < |steps|
  {
    ViewNext(views[n], steps[n], views[n + 1])
  }

  ghost predicate ViewRun(views: seq<View>, steps: seq<SysStep>) {
    && |views| == |steps| + 1 && views[0].sh == FRESH_SHADOW && ViewOk(views[0])
    && forall n: nat :: n < |steps| ==> ViewStep(views, steps, n)
  }

  lemma ViewsOk(views: seq<View>, steps: seq<SysStep>, n: nat)
    requires ViewRun(views, steps) && n < |views|
    ensures ViewOk(views[n])
  {
    assert n > 0 ==> ViewStep(views, steps, n - 1);
  }

  /** No update before step `n` goes back to the first log and gets to a turn. */
  predicate NoneGoesBack(views: seq<View>, steps: seq<SysStep>, n: nat)
    requires |views| == |steps| + 1 && n <= |steps|
  {
    forall m, k :: 0 <= m < k < n && steps[k].Apply? ==> !GoesBack(views[m], steps[m])
  }

  predicate WentBack(views: seq<View>, steps: seq<SysStep>, n: nat)
    requires |views| == |steps| + 1 && n <= |steps|
  {
    exists m :: 0 <= m < n && GoesBack(views[m], steps[m])
  }

  /** Only going back leaves something applied behind. */
  ghost predicate Tracked(v: View, back: bool) {
    v.sh == FRESH_SHADOW || exists past, a: nat, c: nat :: InRound(v, past, a, c) && (past == [] || back)
  }

  lemma StepTracked(v: View, step: SysStep, v': View, back: bool)
    requires ViewRounds(v, step, v') && Tracked(v, back)
    ensures Tracked(v', back || GoesBack(v, step))
  {
    if v.sh != FRESH_SHADOW {
      var past, a: nat, c: nat :| InRound(v, past, a, c) && (past == [] || back);
      assert RoundAfter(v, step, v', past, a, c);
    }
  }

  lemma TrackedAt(views: seq<View>, steps: seq<SysStep>, n: nat, back: bool)
    requires ViewRun(views, steps) && n < |steps| && Tracked(views[n], back)
    ensures Tracked(views[n + 1], back || GoesBack(views[n], steps[n]))
  {
    assert ViewStep(views, steps, n);
    StepTracked(views[n], steps[n], views[n + 1], back);
  }

  lemma WentBackNext(views: seq<View>, steps: seq<SysStep>, n: nat)
    requires |views| == |steps| + 1 && n < |steps|
    ensures WentBack(views, steps, n + 1) == (WentBack(views, steps, n) || GoesBack(views[n], steps[n]))
  {
  }

  lemma {:induction false} RunTracked(views: seq<View>, steps: seq<SysStep>, n: nat)
    requires ViewRun(views, steps) && n < |views|
    ensures Tracked(views[n], WentBack(views, steps, n))
  {
    if n > 0 {
      RunTracked(views, steps, n - 1);
      TrackedAt(views, steps, n - 1, WentBack(views, steps, n - 1));
      WentBackNext(views, steps, n - 1);
    }
  }

  predicate IsSegment(applied: seq<LogId>, kept: seq<LogId>, a: nat, c: nat) {
    a <= c <= |kept| && applied == kept[a..c]
  }

  lemma SegmentGrows(v: View, step: SysStep, v': View, a: nat, c: nat)
    requires ViewEffect(v, step, v') && !step.Apply? && IsSegment(v.sh.applied, v.kept, a, c)
    ensures IsSegment(v'.sh.applied, v'.kept, a, c)
  {
    assert v'.kept[a..c] == v.kept[a..c];
  }

  /** A turn when nothing was left behind. */
  lemma TurnSegment(v: View, step: SysStep, v': View) returns (a: nat, c: nat)
    requires ViewRounds(v, step, v') && step.Apply? && v.sh.running.Some? && Tracked(v, false)
    ensures IsSegment(v'.sh.applied, v'.kept, a, c)
  {
    var past, b: nat, d: nat :| InRound(v, past, b, d) && past == [];
    assert RoundAfter(v, step, v', past, b, d);
    RoundIsSegment(v', past, b, d + 1);
    a, c := b, d + 1;
  }

  lemma RoundIsSegment(v: View, past: seq<LogId>, a: nat, c: nat)
    requires InRound(v, past, a, c) && past == []
    ensures IsSegment(v.sh.applied, v.kept, a, c)
  {
    assert past + v.kept[a..c] == v.kept[a..c];
  }

  lemma {:induction false} OneSegment(views: seq<View>, steps: seq<SysStep>, n: nat) returns (a: nat, c: nat)
    requires ViewRun(views, steps) && n < |views| && NoneGoesBack(views, steps, n)
    ensures IsSegment(views[n].sh.applied, views[n].kept, a, c)
  {
    if n == 0 {
      a, c := 0, 0;
    } else if steps[n - 1].Apply? {
      a, c := TurnAfterNone(views, steps, n - 1);
    } else {
      a, c := OneSegment(views, steps, n - 1);
      SegmentStays(views, steps, n - 1, a, c);
    }
  }

  lemma SegmentStays(views: seq<View>, steps: seq<SysStep>, n: nat, a: nat, c: nat)
    requires ViewRun(views, steps) && n < |steps| && !steps[n].Apply?
    requires IsSegment(views[n].sh.applied, views[n].kept, a, c)
    ensures IsSegment(views[n + 1].sh.applied, views[n + 1].kept, a, c)
  {
    assert ViewStep(views, steps, n);
    SegmentGrows(views[n], steps[n], views[n + 1], a, c);
  }

  lemma TurnAfterNone(views: seq<View>, steps: seq<SysStep>, n: nat) returns (a: nat, c: nat)
    requires ViewRun(views, steps) && n < |steps| && steps[n].Apply? && NoneGoesBack(views, steps, n + 1)
    ensures IsSegment(views[n + 1].sh.applied, views[n + 1].kept, a, c)
  {
    RunTracked(views, steps, n);
    assert !WentBack(views, steps, n);
    assert ViewStep(views, steps, n);
    a, c := TurnSegment(views[n], steps[n], views[n + 1]);
  }

  lemma SegmentAt(applied: seq<LogId>, kept: seq<LogId>, a: nat, c: nat)
    requires IsSegment(applied, kept, a, c) && applied != []
    ensures a < c && applied[0] == kept[a] && applied[|applied| - 1] == kept[c - 1]
  {
  }

  lemma RoundEnds(applied: seq<LogId>, past: seq<LogId>, kept: seq<LogId>, a: nat, c: nat)
    requires a < c <= |kept| && applied == past + kept[a..c]
    ensures applied[|applied| - 1] == kept[c - 1]
  {
  }

  lemma SegmentEnds(v: View, a: nat, c: nat)
    requires ViewOk(v) && IsSegment(v.sh.applied, v.kept, a, c) && v.sh.applied != []
    ensures a < c && v.first == Some(v.kept[a]) && (v.sh.lastlog.Some? ==> v.sh.lastlog.value == v.kept[c - 1])
  {
    SegmentAt(v.sh.applied, v.kept, a, c);
    var past, b: nat, d: nat :| Progress(v.kept, v.first, v.sh, past, b, d);
    BeganAtFirst(v.kept, v.first, v.sh, past, b, d);
    if v.sh.lastlog.Some? {
      RoundEnds(v.sh.applied, past, v.kept, b, d);
    }
  }

  /** The next turn, if any, is at the log applied first. */
  predicate Poised(sh: Shadow) {
    sh.lastlog.None? && sh.applied != [] && (sh.running.Some? ==> sh.running.value.0 == sh.applied[0])
  }

  lemma StartPoised(v: View, step: SysStep, v': View)
    requires ViewNext(v, step, v') && GoesBack(v, step)
    ensures Poised(v'.sh)
  {
    var past, a: nat, c: nat :| Progress(v.kept, v.first, v.sh, past, a, c);
    assert InRound(v, past, a, c) && RoundAfter(v, step, v', past, a, c);
    BeganAtFirst(v'.kept, v'.first, v'.sh, v.sh.applied, a, a);
  }

  /** From there on the next turn repeats a log, and a repetition stays. */
  lemma StepPoised(v: View, step: SysStep, v': View, turned: bool)
    requires ViewNext(v, step, v') && if turned then !Distinct(v.sh.applied) else Poised(v.sh)
    ensures if turned || step.Apply? then !Distinct(v'.sh.applied) else Poised(v'.sh)
  {
    if turned {
      MoreNotDistinct(v.sh.applied, v'.sh.applied);
    } else if step.Apply? {
      FirstAgain(v.sh.applied, v'.sh.applied);
    } else if step.Start? {
      StartPoised(v, step, v');
    }
  }

  lemma FirstAgain(ids: seq<LogId>, more: seq<LogId>)
    requires ids != [] && more == ids + [ids[0]]
    ensures !Distinct(more)
  {
    assert more[0] == more[|ids|];
  }

  lemma MoreNotDistinct(ids: seq<LogId>, more: seq<LogId>)
    requires ids <= more && !Distinct(ids)
    ensures !Distinct(more)
  {
    var i, j :| 0 <= i < j < |ids| && ids[i] == ids[j];
    assert more[i] == more[j];
  }

  predicate TurnBetween(steps: seq<SysStep>, m: nat, n: nat)
    requires n <= |steps|
  {
    exists k :: m < k < n && steps[k].Apply?
  }

  lemma TurnNext(steps: seq<SysStep>, m: nat, n: nat)
    requires m < n < |steps|
    ensures TurnBetween(steps, m, n + 1) == (TurnBetween(steps, m, n) || steps[n].Apply?)
  {
  }

  lemma PoisedAt(views: seq<View>, steps: seq<SysStep>, n: nat, turned: bool)
    requires ViewRun(views, steps) && n < |steps|
    requires if turned then !Distinct(views[n].sh.applied) else Poised(views[n].sh) || GoesBack(views[n], steps[n])
    ensures if turned || steps[n].Apply? then !Distinct(views[n + 1].sh.applied) else Poised(views[n + 1].sh)
  {
    assert ViewStep(views, steps, n);
    if !turned && GoesBack(views[n], steps[n]) {
      StartPoised(views[n], steps[n], views[n + 1]);
    } else {
      StepPoised(views[n], steps[n], views[n + 1], turned);
    }
  }

  lemma {:induction false} GoingBackRepeats(views: seq<View>, steps: seq<SysStep>, m: nat, n: nat)
    requires ViewRun(views, steps) && m < n < |views| && GoesBack(views[m], steps[m])
    ensures if TurnBetween(steps, m, n) then !Distinct(views[n].sh.applied) else Poised(views[n].sh)
    decreases n
  {
    if n == m + 1 {
      PoisedAt(views, steps, m, false);
    } else {
      GoingBackRepeats(views, steps, m, n - 1);
      PoisedAt(views, steps, n - 1, TurnBetween(steps, m, n - 1));
      TurnNext(steps, m, n - 1);
    }
  }

  lemma SegmentDistinct(kept: seq<LogId>, a: nat, c: nat)
    requires Ascending(kept) && a <= c <= |kept|
    ensures Distinct(kept[a..c])
  {
  }

  lemma DistinctCondition(views: seq<View>, steps: seq<SysStep>, n: nat)
    requires ViewRun(views, steps) && n < |views|
    ensures Distinct(views[n].sh.applied) <==> NoneGoesBack(views, steps, n)
  {
    if NoneGoesBack(views, steps, n) {
      ViewsOk(views, steps, n);
      var a, c := OneSegment(views, steps, n);
      SegmentDistinct(views[n].kept, a, c);
    } else {
      var m, k :| 0 <= m < k < n && steps[k].Apply? && GoesBack(views[m], steps[m]);
      GoingBackRepeats(views, steps, m, n);
      assert TurnBetween(steps, m, n);
    }
  }

  // ----- Every run of the system is such a run -----

  function ViewOf(s: Sys, id: nat): View { View(s.repo.kept, FirstOf(s.repo.trns, id), s.sh) }

  function FirstOf(ts: seq<Trn>, id: nat): Option<LogId> {
    if ts == [] then None else if ts[0].id == id then ts[0].first else FirstOf(ts[1..], id)
  }

  lemma {:induction false} FirstOfAt(ts: seq<Trn>, id: nat, i: nat)
    requires i < |ts| && ts[i].id == id && forall x, y :: 0 <= x < y < |ts| ==> ts[x].id != ts[y].id
    ensures FirstOf(ts, id) == ts[i].first
  {
    if i > 0 {
      FirstOfAt(ts[1..], id, i - 1);
    }
  }

  lemma ViewAt(s: Sys, id: nat, i: nat)
    requires RepoOk(s.repo) && At(s.repo, id, i)
    ensures ViewOf(s, id) == View(s.repo.kept, s.repo.trns[i].first, s.sh)
  {
    FirstOfAt(s.repo.trns, id, i);
  }

  lemma StepEffect(s: Sys, step: SysStep, s': Sys, id: nat, kind: CursorKind)
    requires SysOk(s, id, kind) && SysNext(s, step, s', id, kind)
    ensures ViewEffect(ViewOf(s, id), step, ViewOf(s', id))
    ensures Marks(s.sh, step, s'.sh, Records(kind, s'.tables))
  {
    if step.Other? {
      KeptGrows(s.repo, step.step);
    }
  }

  lemma StepRound(
    s: Sys, step: SysStep, s': Sys, id: nat, kind: CursorKind, i: nat, j: nat, past: seq<LogId>, a: nat, c: nat)
    requires SysOk(s, id, kind) && SysNext(s, step, s', id, kind) && At(s.repo, id, i) && At(s'.repo, id, j)
    requires (step.Other? || i == j) && Progress(s.repo.kept, s.repo.trns[i].first, s.sh, past, a, c)
    ensures RoundAfter(View(s.repo.kept, s.repo.trns[i].first, s.sh), step,
                       View(s'.repo.kept, s'.repo.trns[j].first, s'.sh), past, a, c)
  {
    match step
    case Other(step) => RepoStepProgress(s.repo, step, i, j, s.sh, past, a, c);
    case OpenTables =>
    case Start => BeginProgress(s.repo, i, s.sh, past, a, c);
    case Apply(_) => TurnProgress(s.repo, i, s.sh, past, a, c, Records(kind, s'.tables));
    case Stop => assert Progress(s.repo.kept, s.repo.trns[i].first, s'.sh, past, a, c);
  }

  lemma StepFresh(s: Sys, step: SysStep, s': Sys, id: nat, kind: CursorKind, i: nat)
    requires SysOk(s, id, kind) && SysNext(s, step, s', id, kind) && s.sh == FRESH_SHADOW && At(s.repo, id, i)
    ensures s'.sh == FRESH_SHADOW ||
            (step.Start? && exists a: nat :: Progress(s'.repo.kept, s.repo.trns[i].first, s'.sh, [], a, a))
  {
    if step.Start? && s.repo.trns[i].first.Some? {
      var a := BeginFresh(s.repo, i);
    }
  }

  lemma StepView(s: Sys, step: SysStep, s': Sys, id: nat, kind: CursorKind)
    requires SysOk(s, id, kind) && SysNext(s, step, s', id, kind) && SysOk(s', id, kind)
    ensures ViewNext(ViewOf(s, id), step, ViewOf(s', id))
  {
    var i: nat :| At(s.repo, id, i) && ShadowOk(s.repo.kept, s.repo.trns[i].first, s.sh);
    var j: nat :| At(s'.repo, id, j) && ShadowOk(s'.repo.kept, s'.repo.trns[j].first, s'.sh);
    SameIndex(s, step, s', id, kind, i, j);
    ViewAt(s, id, i);
    ViewAt(s', id, j);
    StepEffect(s, step, s', id, kind);
    var v, v' := ViewOf(s, id), ViewOf(s', id);
    forall past, a: nat, c: nat | InRound(v, past, a, c) ensures RoundAfter(v, step, v', past, a, c) {
      StepRound(s, step, s', id, kind, i, j, past, a, c);
    }
    if v.sh == FRESH_SHADOW {
      StepFresh(s, step, s', id, kind, i);
      if v'.sh != FRESH_SHADOW {
        var a: nat :| Progress(s'.repo.kept, s.repo.trns[i].first, s'.sh, [], a, a);
        assert InRound(v', [], a, a);
      }
    }
  }

  lemma SameIndex(s: Sys, step: SysStep, s': Sys, id: nat, kind: CursorKind, i: nat, j: nat)
    requires SysOk(s, id, kind) && SysNext(s, step, s', id, kind) && At(s.repo, id, i) && At(s'.repo, id, j)
    ensures step.Other? || i == j
  {
  }

  function Views(states: seq<Sys>, id: nat): (r: seq<View>)
    ensures |r| == |states| && forall n :: 0 <= n < |states| ==> r[n] == ViewOf(states[n], id)
  {
    seq(|states|, n requires 0 <= n < |states| => ViewOf(states[n], id))
  }

  function Shadows(states: seq<Sys>): (r: seq<Shadow>)
    ensures |r| == |states| && forall n :: 0 <= n < |states| ==> r[n] == states[n].sh
  {
    seq(|states|, n requires 0 <= n < |states| => states[n].sh)
  }

  lemma RunView(states: seq<Sys>, steps: seq<SysStep>, id: nat, kind: CursorKind, n: nat)
    requires SysRun(states, steps, id, kind) && SysOk(states[0], id, kind) && n < |steps|
    ensures ViewNext(ViewOf(states[n], id), steps[n], ViewOf(states[n + 1], id))
    ensures Marks(states[n].sh, steps[n], states[n + 1].sh, Records(kind, states[n + 1].tables))
  {
    SysRunKeepsOk(states, steps, id, kind, n);
    SysRunKeepsOk(states, steps, id, kind, n + 1);
    assert StepAt(states, steps, id, kind, n);
    StepView(states[n], steps[n], states[n + 1], id, kind);
    StepEffect(states[n], steps[n], states[n + 1], id, kind);
  }

  lemma FirstView(s: Sys, id: nat, kind: CursorKind)
    requires SysOk(s, id, kind)
    ensures ViewOk(ViewOf(s, id))
  {
    var i: nat :| At(s.repo, id, i) && ShadowOk(s.repo.kept, s.repo.trns[i].first, s.sh);
    ViewAt(s, id, i);
  }

  lemma RunViews(states: seq<Sys>, steps: seq<SysStep>, id: nat, kind: CursorKind)
    requires SysRun(states, steps, id, kind) && SysOk(states[0], id, kind) && states[0].sh == FRESH_SHADOW
    ensures ViewRun(Views(states, id), steps) && MarkRun(Shadows(states), Tables(states), steps, kind)
  {
    RunTables(states, steps, id, kind);
    FirstView(states[0], id, kind);
    forall n: nat | n < |steps|
      ensures ViewStep(Views(states, id), steps, n)
      ensures Marks(states[n].sh, steps[n], states[n + 1].sh, Records(kind, states[n + 1].tables))
    {
      RunView(states, steps, id, kind, n);
    }
  }

  /** An update goes back exactly if no resume point was kept at the last turn. */
  lemma GoesBackCondition(
    views: seq<View>, shs: seq<Shadow>, tables: seq<bool>, steps: seq<SysStep>, kind: CursorKind, n: nat)
    requires MarkRun(shs, tables, steps, kind) && |views| == |shs| && n <= |steps|
    requires forall m :: 0 <= m < |shs| ==> views[m].sh == shs[m]
    ensures NoneGoesBack(views, steps, n) <==> NoneStartsOver(tables, steps, kind, n)
  {
    forall m: nat | m < n ensures GoesBack(views[m], steps[m]) <==> StartsOver(tables, steps, kind, m) {
      LastlogIsKept(shs, tables, steps, kind, m);
    }
  }

  /**
   Over any interleaving of inserts, garbage collection, other transactions and this one's updates, finished or
   given up, and with its tables made at any time: as long as no update starts over, the logs applied to the
   shadow are one contiguous segment of the logs ever kept, from the transaction's first log on, each once and in
   order. The resume point is the end of that segment if the last turn kept it.
   */
  lemma AppliedIsOneSegment(states: seq<Sys>, steps: seq<SysStep>, id: nat, kind: CursorKind, n: nat)
    requires SysRun(states, steps, id, kind) && SysOk(states[0], id, kind) && states[0].sh == FRESH_SHADOW
    requires n < |states| && NoneStartsOver(Tables(states), steps, kind, n)
    ensures var kept, sh := states[n].repo.kept, states[n].sh;
            && Ascending(kept)
            && (sh.applied == [] ||
                exists a: nat, c: nat ::
                  && a < c && IsSegment(sh.applied, kept, a, c) && FirstOf(states[n].repo.trns, id) == Some(kept[a])
                  && sh.lastlog == if Kept(Tables(states), steps, kind, n) then Some(kept[c - 1]) else None)
  {
    var views, shs, tables := Views(states, id), Shadows(states), Tables(states);
    RunViews(states, steps, id, kind);
    ViewsOk(views, steps, n);
    LastlogIsKept(shs, tables, steps, kind, n);
    GoesBackCondition(views, shs, tables, steps, kind, n);
    var a, c := OneSegment(views, steps, n);
    if views[n].sh.applied != [] {
      SegmentEnds(views[n], a, c);
    }
  }

  /**
   No log is applied to a shadow twice if and only if no update that gets to a turn starts over: whenever one
   starts after an earlier turn, the last turn before it had a place for the resume point, that is, it was of a
   data or index cursor and the transaction's shadow tables existed by then. For every run from a fresh shadow,
   with any steps of the repositories, any number of updates, finished or given up, and tables made at any time.
   */
  lemma AppliedOnceCondition(states: seq<Sys>, steps: seq<SysStep>, id: nat, kind: CursorKind, n: nat)
    requires SysRun(states, steps, id, kind) && SysOk(states[0], id, kind) && states[0].sh == FRESH_SHADOW
    requires n < |states|
    ensures Distinct(states[n].sh.applied) <==> NoneStartsOver(Tables(states), steps, kind, n)
  {
    var views, shs := Views(states, id), Shadows(states);
    RunViews(states, steps, id, kind);
    GoesBackCondition(views, shs, Tables(states), steps, kind, n);
    DistinctCondition(views, steps, n);
  }

  /** A data or index cursor of a transaction whose shadow tables exist from the start never starts over: every log is
      applied once, and what was applied is one segment that ends at the resume point. */
  lemma AppliedOnceWithTables(states: seq<Sys>, steps: seq<SysStep>, id: nat, kind: CursorKind, n: nat)
    requires SysRun(states, steps, id, kind) && SysOk(states[0], id, kind) && states[0].sh == FRESH_SHADOW
    requires n < |states| && Records(kind, states[0].tables)
    ensures NoneStartsOver(Tables(states), steps, kind, n) && Distinct(states[n].sh.applied)
    ensures var kept, sh := states[n].repo.kept, states[n].sh;
            sh.applied == [] || exists a: nat, c: nat ::
                                  a < c && IsSegment(sh.applied, kept, a, c) && sh.lastlog == Some(kept[c - 1])
  {
    RunTables(states, steps, id, kind);
    AlwaysKept(Tables(states), steps, kind, n);
    AppliedOnceCondition(states, steps, id, kind, n);
    AppliedIsOneSegment(states, steps, id, kind, n);
    RunViews(states, steps, id, kind);
    LastlogIsKept(Shadows(states), Tables(states), steps, kind, n);
  }

  lemma AlwaysKept(tables: seq<bool>, steps: seq<SysStep>, kind: CursorKind, n: nat)
    requires |tables| == |steps| + 1 && TablesStay(tables) && Records(kind, tables[0]) && n <= |steps|
    ensures NoneStartsOver(tables, steps, kind, n) && (LastTurn(steps, n).Some? ==> Kept(tables, steps, kind, n))
  {
    assert forall m :: 0 <= m < |tables| ==> tables[m];
  }

  // ----- A whole update -----

  /** The next update starts at `kept[s]`, or has nothing to do if that is past the end. */
  predicate Resumes(kept: seq<LogId>, t: Trn, sh: Shadow, s: nat) {
    && s <= |kept| && t.first.Some?
    && match sh.lastlog
       case None => s < |kept| && t.first == Some(kept[s])
       case Some(last) => s > 0 && last == kept[s - 1] && t.first.value <= last
  }

  /** An update that started at `kept[s]` with the shadow `sh0` and captured the tail `kept[n - 1]` has
      come to `kept[c]`; `marked` says whether its last turn kept the resume point. */
  predicate Walking(kept: seq<LogId>, sh0: Shadow, sh: Shadow, s: nat, c: nat, n: nat, marked: bool) {
    && s <= c <= n <= |kept| && (marked ==> s < c)
    && sh.applied == sh0.applied + kept[s..c]
    && sh.lastlog == (if marked then Some(kept[c - 1]) else sh0.lastlog)
    && sh.running == (if c == n then None else Some((kept[c], kept[n - 1])))
  }

  lemma BeginWalks(r: Repo, i: nat, sh: Shadow, s: nat)
    requires RepoOk(r) && i < |r.trns| && sh.running.None? && Resumes(r.kept, r.trns[i], sh, s)
    ensures var b := Begin(r.logs, r.trns[i], sh);
            b.Some? && Walking(r.kept, sh, b.value, s, s, |r.kept|, false)
    ensures s < |r.kept| ==> r.kept[s] >= r.trns[i].first.value
  {
    var m := if sh.lastlog.None? then s else s - 1;
    NextIsThere(r, i, m);
    assert sh.applied + r.kept[s..s] == sh.applied;
    assert s < |r.kept| && m < s ==> r.kept[m] < r.kept[s];
    assert m < |r.kept| - 1 ==> r.kept[m] < r.kept[|r.kept| - 1];
  }

  lemma ApplyWalks(
    r: Repo, i: nat, sh0: Shadow, sh: Shadow, s: nat, c: nat, n: nat, marked: bool, records: bool)
    requires RepoOk(r) && i < |r.trns| && r.trns[i].first.Some? && Walking(r.kept, sh0, sh, s, c, n, marked) && c < n
    requires r.kept[s] >= r.trns[i].first.value && (marked ==> records)
    ensures var b := ApplyOne(r.logs, sh, records); b.Some? && Walking(r.kept, sh0, b.value, s, c + 1, n, records)
  {
    assert s < c ==> r.kept[s] < r.kept[c];
    NextIsThere(r, i, c);
    assert c < n - 1 ==> r.kept[c] < r.kept[n - 1];
    assert sh0.applied + r.kept[s..c + 1] == sh0.applied + r.kept[s..c] + [r.kept[c]];
  }

  lemma WalkingGrows(
    kept: seq<LogId>, more: seq<LogId>, sh0: Shadow, sh: Shadow, s: nat, c: nat, n: nat, marked: bool)
    requires Walking(kept, sh0, sh, s, c, n, marked) && kept <= more
    ensures Walking(more, sh0, sh, s, c, n, marked)
  {
    assert more[s..c] == kept[s..c];
  }

  /** A start, then turns of the loop, with any other steps between and after them, until the update is done. */
  ghost predicate UpdateRun(states: seq<Sys>, steps: seq<SysStep>, id: nat, kind: CursorKind) {
    && SysRun(states, steps, id, kind) && |steps| > 0 && steps[0] == Start
    && (forall m :: 0 < m < |steps| ==> steps[m].Other? || steps[m].OpenTables? || steps[m].Apply?)
    && states[|steps|].sh.running.None?
  }

  /** The transaction is registered in `r` with `first` as its first log. */
  ghost predicate HasFirst(r: Repo, id: nat, first: LogId) {
    RepoOk(r) && exists i: nat :: At(r, id, i) && r.trns[i].first == Some(first)
  }

  ghost predicate Underway(s: Sys, sh0: Shadow, id: nat, first: LogId, from: nat, n: nat, marked: bool) {
    && HasFirst(s.repo, id, first)
    && (from < n <= |s.repo.kept| ==> s.repo.kept[from] >= first)
    && exists c: nat :: Walking(s.repo.kept, sh0, s.sh, from, c, n, marked)
  }

  lemma OtherKeepsUnderway(
    s: Sys, step: RepoStep, s': Sys, sh0: Shadow, id: nat, kind: CursorKind, first: LogId, from: nat, n: nat,
    marked: bool)
    requires Underway(s, sh0, id, first, from, n, marked) && SysNext(s, Other(step), s', id, kind)
    ensures Underway(s', sh0, id, first, from, n, marked)
  {
    var r := s.repo;
    var i: nat :| At(r, id, i) && r.trns[i].first == Some(first);
    var j: nat :| At(s'.repo, id, j);
    StepFollows(r, step);
    KeptGrows(r, step);
    FirstStays(r.trns, r.nextTrn, s'.repo.trns, i, j);
    var c: nat :| Walking(r.kept, sh0, s.sh, from, c, n, marked);
    WalkingGrows(r.kept, s'.repo.kept, sh0, s.sh, from, c, n, marked);
  }

  lemma ApplyKeepsUnderway(
    s: Sys, creates: bool, s': Sys, sh0: Shadow, id: nat, kind: CursorKind, first: LogId, from: nat, n: nat,
    marked: bool)
    requires Underway(s, sh0, id, first, from, n, marked) && SysNext(s, Apply(creates), s', id, kind)
    requires marked ==> Records(kind, s'.tables)
    ensures Underway(s', sh0, id, first, from, n, Records(kind, s'.tables))
  {
    var i: nat :| At(s.repo, id, i) && s.repo.trns[i].first == Some(first);
    var c: nat :| Walking(s.repo.kept, sh0, s.sh, from, c, n, marked);
    ApplyWalks(s.repo, i, sh0, s.sh, from, c, n, marked, Records(kind, s'.tables));
  }

  /** The next update of the transaction starts at `kept[from]`. */
  ghost predicate ResumesAt(s: Sys, id: nat, from: nat) {
    forall i: nat :: At(s.repo, id, i) ==> Resumes(s.repo.kept, s.repo.trns[i], s.sh, from)
  }

  lemma StartsUnderway(s: Sys, s': Sys, id: nat, kind: CursorKind, first: LogId, from: nat)
    requires HasFirst(s.repo, id, first) && SysNext(s, Start, s', id, kind)
    requires ResumesAt(s, id, from)
    ensures Underway(s', s.sh, id, first, from, |s.repo.kept|, false)
  {
    var i: nat :| At(s.repo, id, i) && s.repo.trns[i].first == Some(first);
    BeginWalks(s.repo, i, s.sh, from);
  }

  lemma StepUnderway(
    s: Sys, step: SysStep, s': Sys, sh0: Shadow, id: nat, kind: CursorKind, first: LogId, from: nat, n: nat,
    marked: bool)
    requires Underway(s, sh0, id, first, from, n, marked) && SysNext(s, step, s', id, kind)
    requires (step.Other? || step.OpenTables? || step.Apply?) && (step.Apply? && marked ==> Records(kind, s'.tables))
    ensures Underway(s', sh0, id, first, from, n, if step.Apply? then Records(kind, s'.tables) else marked)
    ensures s.repo.kept <= s'.repo.kept
  {
    match step
    case Other(step) =>
      KeptGrows(s.repo, step);
      OtherKeepsUnderway(s, step, s', sh0, id, kind, first, from, n, marked);
    case Apply(creates) =>
      ApplyKeepsUnderway(s, creates, s', sh0, id, kind, first, from, n, marked);
    case _ =>
  }

  lemma UnderwayAt(
    states: seq<Sys>, steps: seq<SysStep>, id: nat, kind: CursorKind, sh0: Shadow, first: LogId, from: nat, n: nat,
    m: nat, marked: bool)
    requires UpdateRun(states, steps, id, kind) && 0 < m < |steps|
    requires Underway(states[m], sh0, id, first, from, n, marked)
    requires marked && steps[m].Apply? ==> Records(kind, states[m + 1].tables)
    ensures Underway(states[m + 1], sh0, id, first, from, n,
                     if steps[m].Apply? then Records(kind, states[m + 1].tables) else marked)
    ensures states[m].repo.kept <= states[m + 1].repo.kept
  {
    assert StepAt(states, steps, id, kind, m);
    StepUnderway(states[m], steps[m], states[m + 1], sh0, id, kind, first, from, n, marked);
  }

  lemma FirstUnderway(states: seq<Sys>, steps: seq<SysStep>, id: nat, kind: CursorKind, first: LogId, from: nat)
    requires UpdateRun(states, steps, id, kind) && HasFirst(states[0].repo, id, first) && ResumesAt(states[0], id, from)
    ensures Underway(states[1], states[0].sh, id, first, from, |states[0].repo.kept|, false)
    ensures states[0].repo.kept == states[1].repo.kept
  {
    assert StepAt(states, steps, id, kind, 0);
    StartsUnderway(states[0], states[1], id, kind, first, from);
  }

  /** Whether the last turn kept its resume point, one step later. */
  lemma KeptAfter(states: seq<Sys>, steps: seq<SysStep>, id: nat, kind: CursorKind, m: nat)
    requires SysRun(states, steps, id, kind) && m < |steps|
    ensures Kept(Tables(states), steps, kind, m + 1) ==
            if steps[m].Apply? then Records(kind, states[m + 1].tables) else Kept(Tables(states), steps, kind, m)
    ensures Kept(Tables(states), steps, kind, m) ==> Kept(Tables(states), steps, kind, m + 1)
  {
    KeptNext(Tables(states), steps, kind, m);
    if Kept(Tables(states), steps, kind, m) {
      RunTables(states, steps, id, kind);
      KeptStays(Tables(states), steps, kind, m);
    }
  }

  lemma {:induction false} StaysUnderway(
    states: seq<Sys>, steps: seq<SysStep>, id: nat, kind: CursorKind, first: LogId, from: nat, m: nat)
    requires UpdateRun(states, steps, id, kind) && 0 < m < |states|
    requires HasFirst(states[0].repo, id, first) && ResumesAt(states[0], id, from)
    ensures Underway(states[m], states[0].sh, id, first, from, |states[0].repo.kept|,
                     Kept(Tables(states), steps, kind, m))
    ensures states[0].repo.kept <= states[m].repo.kept
  {
    KeptAfter(states, steps, id, kind, m - 1);
    if m == 1 {
      FirstUnderway(states, steps, id, kind, first, from);
    } else {
      StaysUnderway(states, steps, id, kind, first, from, m - 1);
      UnderwayAt(states, steps, id, kind, states[0].sh, first, from, |states[0].repo.kept|, m - 1,
                 Kept(Tables(states), steps, kind, m - 1));
    }
  }

  /**
   A whole update, whatever runs between its turns, applies the logs from the resume point to the tail at its
   start, and no more. The resume point moves there if its last turn had a place for it, even if earlier turns had
   none, and does not move otherwise.
   */
  lemma UpdateEffect(states: seq<Sys>, steps: seq<SysStep>, id: nat, kind: CursorKind, first: LogId, from: nat)
    requires UpdateRun(states, steps, id, kind) && HasFirst(states[0].repo, id, first)
    requires from <= |states[0].repo.kept| && ResumesAt(states[0], id, from)
    ensures var kept, sh0, end, marked := states[0].repo.kept, states[0].sh, states[|steps|],
                                          Kept(Tables(states), steps, kind, |steps|);
            && (marked ==> kept != [])
            && end.sh == Shadow(if marked then Some(kept[|kept| - 1]) else sh0.lastlog,
                                sh0.applied + kept[from..], None)
            && HasFirst(end.repo, id, first) && kept <= end.repo.kept
  {
    var kept, end, marked := states[0].repo.kept, states[|steps|], Kept(Tables(states), steps, kind, |steps|);
    StaysUnderway(states, steps, id, kind, first, from, |steps|);
    var c: nat :| Walking(end.repo.kept, states[0].sh, end.sh, from, c, |kept|, marked);
    assert c == |kept|;
    assert end.repo.kept[from..c] == kept[from..];
  }

  // ----- The loop, in place -----

  /** An update against a list that does not change meanwhile, from position `from` up to `to`. */
  function Updated(logs: seq<Log>, sh: Shadow, from: nat, to: nat, records: bool): Shadow
    requires from <= to <= |logs|
  {
    Shadow(if records && from < to then Some(logs[to - 1].id) else sh.lastlog, sh.applied + Ids(logs)[from..to], None)
  }

  /** Applying the log at `j` would notice that the transaction was cancelled: the log has records. */
  predicate Notices(logs: seq<Log>, seen: seq<LogInfo>, j: nat)
    requires LogsSeen(logs, seen) && j < |logs|
  {
    seen[logs[j].id].nrecs > 0
  }

  /** Where an update ends: at the tail, or before the first log that shows a cancelled transaction. */
  predicate EndsAt(logs: seq<Log>, seen: seq<LogInfo>, cancelled: bool, from: nat, to: nat)
    requires LogsSeen(logs, seen)
  {
    && from <= to <= |logs|
    && (cancelled ==> forall k :: from <= k < to ==> !Notices(logs, seen, k))
    && (to < |logs| ==> cancelled && Notices(logs, seen, to))
  }

  lemma UpdatedMore(
    logs: seq<Log>, sh0: Shadow, sh: Shadow, sh': Shadow, from: nat, to: nat, recorded: bool, records: bool)
    requires from <= to < |logs| && sh == Updated(logs, sh0, from, to, recorded) && (recorded ==> records)
    requires sh' == Shadow(if records then Some(logs[to].id) else sh.lastlog, sh.applied + [logs[to].id], None)
    ensures sh' == Updated(logs, sh0, from, to + 1, records)
  {
    assert Ids(logs)[from..to + 1] == Ids(logs)[from..to] + [logs[to].id];
  }

  /** Applying these logs makes the transaction's shadow tables. */
  predicate Creates(ids: seq<LogId>, creates: LogId -> bool) { exists i :: 0 <= i < |ids| && creates(ids[i]) }

  lemma CreatesMore(ids: seq<LogId>, creates: LogId -> bool, id: LogId)
    ensures Creates(ids + [id], creates) == (Creates(ids, creates) || creates(id))
  {
    var more := ids + [id];
    assert more[|ids|] == id;
    assert forall i :: 0 <= i < |ids| ==> more[i] == ids[i];
  }

  class CursorShadow {
    const kind: CursorKind
    var tables: bool
    var lastlog: Option<LogId>
    ghost var applied: seq<LogId>

    ghost function State(): Shadow
      reads this
    {
      Shadow(lastlog, applied, None)
    }

    constructor (kind: CursorKind, tables: bool)
      ensures this.kind == kind && this.tables == tables && State() == FRESH_SHADOW
    {
      this.kind, this.tables := kind, tables;
      lastlog, applied := None, [];
    }

    method SetLastlog(log: LogId)
      modifies this`lastlog
      ensures lastlog == if Records(kind, tables) then Some(log) else old(lastlog)
    {
      if !tables {
        return;
      }
      match kind
      case Data => lastlog := Some(log);
      case Index => lastlog := Some(log);
      case Blob =>
      case Skip =>
    }

    /** Apply the logs from position `from` of the list to its tail, or up to the first one with records if the
        transaction was cancelled. `creates` says which logs make the transaction's shadow tables. */
    method ApplyFrom(logs: seq<Log>, seen: seq<LogInfo>, cancelled: bool, creates: LogId -> bool, from: nat)
      returns (ok: bool, ghost to: nat)
      requires from < |logs| && Ascending(Ids(logs)) && LogsSeen(logs, seen)
      modifies this
      ensures EndsAt(logs, seen, cancelled, from, to) && ok == (to == |logs|)
      ensures tables == (old(tables) || Creates(Ids(logs)[from..to], creates))
      ensures State() == Updated(logs, old(State()), from, to, Records(kind, tables))
    {
      ghost var ids := Ids(logs);
      to := from;
      var last := logs[|logs| - 1].id;
      var log := logs[from].id;
      while true
        invariant from <= to < |ids| && log == ids[to]
        invariant cancelled ==> forall k :: from <= k < to ==> !Notices(logs, seen, k)
        invariant tables == (old(tables) || Creates(ids[from..to], creates))
        invariant State() == Updated(logs, old(State()), from, to, Records(kind, tables))
        decreases |ids| - to
      {
        if cancelled && seen[log].nrecs > 0 {
          return false, to;
        }
        TurnAt(log, creates, logs, old(State()), old(tables), from, to);
        to := to + 1;
        if log == last {
          break;
        }
        log := NextOf(logs, log, to - 1);
      }
      ok := true;
    }

    /** Apply one log, which may make the tables, and then note it as the last one. */
    method Turn(log: LogId, makes: bool)
      modifies this
      ensures tables == (old(tables) || makes) && applied == old(applied) + [log]
      ensures lastlog == if Records(kind, tables) then Some(log) else old(lastlog)
    {
      tables := tables || makes;
      applied := applied + [log];
      SetLastlog(log);
    }

    /** One turn of the loop, at position `to` of the list. */
    method TurnAt(log: LogId, creates: LogId -> bool, ghost logs: seq<Log>, ghost sh0: Shadow, ghost tables0: bool,
                  ghost from: nat, ghost to: nat)
      requires from <= to < |logs| && log == logs[to].id
      requires tables == (tables0 || Creates(Ids(logs)[from..to], creates))
      requires State() == Updated(logs, sh0, from, to, Records(kind, tables))
      modifies this
      ensures tables == (tables0 || Creates(Ids(logs)[from..to + 1], creates))
      ensures State() == Updated(logs, sh0, from, to + 1, Records(kind, tables))
    {
      ghost var before, recorded, ids := State(), Records(kind, tables), Ids(logs);
      Turn(log, creates(log));
      UpdatedMore(logs, sh0, before, State(), from, to, recorded, Records(kind, tables));
      CreatesMore(ids[from..to], creates, log);
      assert ids[from..to + 1] == ids[from..to] + [log];
    }

    method NextOf(logs: seq<Log>, log: LogId, ghost j: nat) returns (next: LogId)
      requires Ascending(Ids(logs)) && j + 1 < |logs| && logs[j].id == log
      ensures next == logs[j + 1].id
    {
      var found := NextLog(logs, log, j);
      next := found.value;
    }

    /** `bdb_osql_update_shadows` for transaction `i` of the repository, starting at position `from` of the
        list if there is anything to do. It fails only for a cancelled transaction. */
    method UpdateShadows(repo: Repository, i: nat, creates: LogId -> bool)
      returns (ok: bool, ghost from: nat, ghost to: nat)
      requires repo.Valid() && i < |repo.trns|
      requires lastlog.Some? ==> ShadowOk(repo.kept, repo.trns[i].first, State())
      modifies this
      ensures (old(lastlog).None? && repo.trns[i].first.None?) || (repo.logs != [] && old(lastlog) == Tail(repo.logs))
              ==> ok && State() == old(State()) && tables == old(tables)
      ensures repo.trns[i].first.Some? && old(lastlog) != Tail(repo.logs) ==>
                && from < |repo.logs| && EndsAt(repo.logs, repo.seen, repo.trns[i].cancelled, from, to)
                && ok == (to == |repo.logs|)
                && (old(lastlog).None? ==> repo.logs[from].id == repo.trns[i].first.value)
                && (old(lastlog).Some? ==> from > 0 && Some(repo.logs[from - 1].id) == old(lastlog))
                && tables == (old(tables) || Creates(Ids(repo.logs)[from..to], creates))
                && State() == Updated(repo.logs, old(State()), from, to, Records(kind, tables))
    {
      UpdateStarts(repo.State(), i, State());
      ok, from, to := UpdateTrn(repo, repo.trns[i], creates);
    }

    method UpdateTrn(repo: Repository, t: Trn, creates: LogId -> bool)
      returns (ok: bool, ghost from: nat, ghost to: nat)
      requires Ascending(Ids(repo.logs)) && LogsSeen(repo.logs, repo.seen) && CanStart(repo.logs, t, lastlog)
      modifies this
      ensures (old(lastlog).None? && t.first.None?) || (repo.logs != [] && old(lastlog) == Tail(repo.logs))
              ==> ok && State() == old(State()) && tables == old(tables)
      ensures t.first.Some? && old(lastlog) != Tail(repo.logs) ==>
                && from < |repo.logs| && EndsAt(repo.logs, repo.seen, t.cancelled, from, to)
                && ok == (to == |repo.logs|)
                && (old(lastlog).None? ==> repo.logs[from].id == t.first.value)
                && (old(lastlog).Some? ==> from > 0 && Some(repo.logs[from - 1].id) == old(lastlog))
                && tables == (old(tables) || Creates(Ids(repo.logs)[from..to], creates))
                && State() == Updated(repo.logs, old(State()), from, to, Records(kind, tables))
    {
      from, to, ok := 0, 0, true;
      if lastlog.None? {
        if t.first.Some? {
          ok, from, to := UpdateAt(repo, t.first.value, 0, t.cancelled, creates);
        }
      } else {
        if lastlog.value != repo.logs[|repo.logs| - 1].id {
          ok, from, to := UpdateAt(repo, lastlog.value, 1, t.cancelled, creates);
        }
      }
    }

    /** Update from the log `id`, or from the one after it if `skip` is one. */
    method UpdateAt(repo: Repository, id: LogId, skip: nat, cancelled: bool, creates: LogId -> bool)
      returns (ok: bool, ghost from: nat, ghost to: nat)
      requires Ascending(Ids(repo.logs)) && LogsSeen(repo.logs, repo.seen) && HasLog(repo.logs, id)
      requires skip == 0 || (skip == 1 && repo.logs[|repo.logs| - 1].id != id)
      modifies this
      ensures from < |repo.logs| && EndsAt(repo.logs, repo.seen, cancelled, from, to) && ok == (to == |repo.logs|)
      ensures from >= skip && repo.logs[from - skip].id == id
      ensures tables == (old(tables) || Creates(Ids(repo.logs)[from..to], creates))
      ensures State() == Updated(repo.logs, old(State()), from, to, Records(kind, tables))
    {
      var at := repo.FindLog(id);
      from := at + skip;
      ok, to := ApplyFrom(repo.logs, repo.seen, cancelled, creates, at + skip);
    }
  }

  /** The link from one log to the next, if there is one; `j` is where the log is. */
  method NextLog(logs: seq<Log>, log: LogId, ghost j: nat) returns (next: Option<LogId>)
    requires Ascending(Ids(logs)) && j < |logs| && logs[j].id == log
    ensures next == if j + 1 < |logs| then Some(logs[j + 1].id) else None
  {
    assert forall x, y :: 0 <= x < y < |logs| ==> Ids(logs)[x] < Ids(logs)[y];
    if j + 1 < |logs| {
      SuccessorAt(logs, j);
    } else {
      NoSuccessor(logs, log);
    }
    next := Successor(logs, log);
  }

  lemma {:induction false} NoSuccessor(logs: seq<Log>, log: LogId)
    requires logs != [] && logs[|logs| - 1].id == log && forall x :: 0 <= x < |logs| - 1 ==> logs[x].id < log
    ensures Successor(logs, log).None?
    decreases |logs|
  {
    if |logs| > 1 {
      NoSuccessor(logs[1..], log);
    }
  }

  lemma FirstInList(r: Repo, i: nat)
    requires RepoOk(r) && i < |r.trns| && r.trns[i].first.Some?
    ensures HasLog(r.logs, r.trns[i].first.value)
  {
    assert HolderOk(r.trns, i, r.logs, r.seen);
  }

  /** The resume point is still in the list. */
  lemma LastlogInList(r: Repo, i: nat, sh: Shadow)
    requires RepoOk(r) && i < |r.trns| && ShadowOk(r.kept, r.trns[i].first, sh) && sh.running.None? && sh.lastlog.Some?
    ensures r.trns[i].first.Some? && HasLog(r.logs, sh.lastlog.value) && r.logs != []
  {
    var past, a: nat, c: nat :| Progress(r.kept, r.trns[i].first, sh, past, a, c);
    assert a < c - 1 ==> r.kept[a] < r.kept[c - 1];
    NothingFreedAfterFirst(r, r.trns, i, c - 1);
  }

  /** The logs an update may start from are in the list. */
  predicate CanStart(logs: seq<Log>, t: Trn, lastlog: Option<LogId>) {
    && (t.first.Some? ==> HasLog(logs, t.first.value))
    && (lastlog.Some? ==> t.first.Some? && HasLog(logs, lastlog.value) && logs != [])
  }

  lemma UpdateStarts(r: Repo, i: nat, sh: Shadow)
    requires RepoOk(r) && i < |r.trns| && sh.running.None?
    requires sh.lastlog.Some? ==> ShadowOk(r.kept, r.trns[i].first, sh)
    ensures Ascending(Ids(r.logs)) && LogsSeen(r.logs, r.seen) && CanStart(r.logs, r.trns[i], sh.lastlog)
  {
    LogsAscend(r);
    if r.trns[i].first.Some? {
      FirstInList(r, i);
    }
    if sh.lastlog.Some? {
      LastlogInList(r, i, sh);
    }
  }
}
