/** Whole runs of the repositories, and the low-water marks that decide which log files may go. */
module OsqlRuns {
  import opened Lsns
  import opened OsqlRepository
  import opened OsqlInvariant

  datatype RepoStep =
    | Register(startGenid: nat, birth: Lsn, asof: Lsn)
    | Insert(log: LogInfo)
    | CleanUp(maxLsns: nat)
    | Unlink(i: nat)
    | Release(i: nat)
    | Abandon(i: nat)

  predicate CanStep(r: Repo, step: RepoStep) {
    match step
    case Unlink(i) => i < |r.trns|
    case Release(i) => i < |r.leaving|
    case Abandon(i) => i < |r.trns|
    case _ => true
  }

  /** Every step is possible in a sound repository and leaves it sound. */
  function RepoNext(r: Repo, step: RepoStep): (next: Repo)
    requires RepoOk(r) && CanStep(r, step)
    ensures RepoOk(next)
  {
    match step
    case Register(startGenid, birth, asof) =>
      RegisterKeepsOk(r, startGenid, birth, asof); r.Register(startGenid, birth, asof)
    case Insert(log) => InsertKeepsOk(r, log); r.Insert(log)
    case CleanUp(maxLsns) => CollectKeepsOk(r); CancelKeepsOk(r.Collect(), maxLsns); r.Collect().Cancel(maxLsns)
    case Unlink(i) => UnlinkKeepsOk(r, i); r.Unlink(i)
    case Release(i) => ReleaseKeepsOk(r, i); r.Release(i)
    case Abandon(i) => AbandonKeepsOk(r, i); r.Abandon(i)
  }

  /** The repository after `steps`, or `None` if one of them cannot be taken. */
  function RunRepo(r: Repo, steps: seq<RepoStep>): (o: Option<Repo>)
    requires RepoOk(r)
    ensures o.Some? ==> RepoOk(o.value)
    decreases |steps|
  {
    if steps == [] then Some(r)
    else if CanStep(r, steps[0]) then RunRepo(RepoNext(r, steps[0]), steps[1..])
    else None
  }

  lemma EmptyRepoOk(r: Repo)
    requires r.seen == [] && r.kept == [] && r.logs == [] && r.lsns == 0
    requires r.trns == [] && r.leaving == [] && r.abandoned == []
    ensures RepoOk(r)
  {
  }

  // ----- First and last log of a transaction -----

  lemma SpanMeaning(t: Trn, logs: seq<Log>, seen: seq<LogInfo>)
    requires SpanOk(t, seen) && NeedsPresent(t, logs, seen) && t.until.None?
    ensures t.first.None? <==> forall id :: t.since <= id < |seen| ==> !UndoRequired(t, seen[id])
    ensures t.first.None? <==> t.lastReg.None?
    ensures t.first.Some? ==>
              && t.since <= t.first.value <= t.lastReg.value < |seen|
              && UndoRequired(t, seen[t.first.value]) && UndoRequired(t, seen[t.lastReg.value])
    ensures forall id :: t.since <= id < |seen| && UndoRequired(t, seen[id]) ==>
              t.first.Some? && t.first.value <= id <= t.lastReg.value && HasLog(logs, id)
  {
    assert forall id :: 0 <= id < |seen| ==> (Needs(t, id, seen) <==> t.since <= id && UndoRequired(t, seen[id]));
  }

  /**
   In every reachable repository, `first` and `lastReg` of a registered transaction are the earliest and
   the latest log inserted since it registered that it must undo; they are unset exactly when there is
   none, and everything in between that it must undo is still in the list.
   */
  lemma FirstAndLastLog(start: Repo, steps: seq<RepoStep>, r: Repo, i: nat)
    requires RepoOk(start) && RunRepo(start, steps) == Some(r) && i < |r.trns|
    ensures var t := r.trns[i];
            && (t.first.None? <==> forall id :: t.since <= id < |r.seen| ==> !UndoRequired(t, r.seen[id]))
            && (t.first.None? <==> t.lastReg.None?)
            && (t.first.Some? ==>
                  && t.since <= t.first.value <= t.lastReg.value < |r.seen|
                  && UndoRequired(t, r.seen[t.first.value]) && UndoRequired(t, r.seen[t.lastReg.value])
                  && forall id :: t.since <= id < |r.seen| && UndoRequired(t, r.seen[id]) ==>
                       t.first.value <= id <= t.lastReg.value && HasLog(r.logs, id))
  {
    assert HolderOk(r.trns, i, r.logs, r.seen);
    SpanMeaning(r.trns[i], r.logs, r.seen);
  }

  lemma {:induction false} PositionOf(logs: seq<Log>, id: LogId) returns (j: nat)
    requires HasLog(logs, id)
    ensures j < |logs| && logs[j].id == id
  {
    j :| 0 <= j < |logs| && logs[j].id == id;
  }

  /** From a transaction's first log on, nothing is freed while it holds its counts, whether or not it
      needs the log: a position reached by a reader stays good. */
  lemma NothingFreedAfterFirst(r: Repo, ts: seq<Trn>, i: nat, m: nat)
    requires RepoOk(r) && (ts == r.trns || ts == r.leaving) && i < |ts| && ts[i].first.Some?
    requires m < |r.kept| && r.kept[m] >= ts[i].first.value
    ensures m >= |r.kept| - |r.logs| && r.logs[m - (|r.kept| - |r.logs|)].id == r.kept[m]
  {
    var n := |r.kept| - |r.logs|;
    assert HolderOk(ts, i, r.logs, r.seen);
    var j := PositionOf(r.logs, ts[i].first.value);
    assert r.kept[n..][j] == Ids(r.logs)[j];
    assert r.kept[n + j] == ts[i].first.value;
    assert m >= n + j;
    assert r.kept[n..][m - n] == Ids(r.logs)[m - n];
  }

  // ----- Client counts -----

  function SumClients(logs: seq<Log>): nat {
    if logs == [] then 0 else SumClients(logs[..|logs| - 1]) + logs[|logs| - 1].clients
  }

  /** How many of the logs one transaction needs. */
  function PairsOf(t: Trn, logs: seq<Log>, seen: seq<LogInfo>): nat
    requires LogsSeen(logs, seen)
  {
    if logs == [] then 0
    else PairsOf(t, logs[..|logs| - 1], seen) + if Needs(t, logs[|logs| - 1].id, seen) then 1 else 0
  }

  function Pairs(ts: seq<Trn>, logs: seq<Log>, seen: seq<LogInfo>): nat
    requires LogsSeen(logs, seen)
  {
    if ts == [] then 0 else Pairs(ts[..|ts| - 1], logs, seen) + PairsOf(ts[|ts| - 1], logs, seen)
  }

  lemma {:induction false} PairsByLog(ts: seq<Trn>, logs: seq<Log>, seen: seq<LogInfo>)
    requires LogsSeen(logs, seen) && logs != []
    ensures Pairs(ts, logs, seen)
            == Pairs(ts, logs[..|logs| - 1], seen) + Count(ts, logs[|logs| - 1].id, seen)
    decreases |ts|
  {
    if ts != [] {
      PairsByLog(ts[..|ts| - 1], logs, seen);
    }
  }

  lemma {:induction false} PairsOfNothing(ts: seq<Trn>, seen: seq<LogInfo>)
    ensures Pairs(ts, [], seen) == 0
  {
    if ts != [] {
      PairsOfNothing(ts[..|ts| - 1], seen);
    }
  }

  lemma {:induction false} ClientsArePairs(r: Repo, n: nat)
    requires LogsSeen(r.logs, r.seen) && CountsOk(r) && n <= |r.logs|
    ensures SumClients(r.logs[..n])
            == Pairs(r.trns, r.logs[..n], r.seen) + Pairs(r.leaving, r.logs[..n], r.seen)
               + Pairs(r.abandoned, r.logs[..n], r.seen)
  {
    var logs := r.logs[..n];
    if n == 0 {
      PairsOfNothing(r.trns, r.seen);
      PairsOfNothing(r.leaving, r.seen);
      PairsOfNothing(r.abandoned, r.seen);
    } else {
      ClientsArePairs(r, n - 1);
      assert CountOk(r, n - 1);
      assert logs[..n - 1] == r.logs[..n - 1] && logs[n - 1] == r.logs[n - 1];
      PairsByLog(r.trns, logs, r.seen);
      PairsByLog(r.leaving, logs, r.seen);
      PairsByLog(r.abandoned, logs, r.seen);
    }
  }

  /** Conservation: in every reachable repository the client counts of all logs add up to the number of
      (transaction, log) pairs where the transaction still has to give its count back. */
  lemma ClientCountsConserved(start: Repo, steps: seq<RepoStep>, r: Repo)
    requires RepoOk(start) && RunRepo(start, steps) == Some(r)
    ensures SumClients(r.logs)
            == Pairs(r.trns, r.logs, r.seen) + Pairs(r.leaving, r.logs, r.seen) + Pairs(r.abandoned, r.logs, r.seen)
  {
    ClientsArePairs(r, |r.logs|);
    assert r.logs[..|r.logs|] == r.logs;
  }

  // ----- Can the log list be emptied? -----

  /** None of the transactions was handed a log. */
  predicate HandedNothing(ts: seq<Trn>) {
    forall i :: 0 <= i < |ts| ==> ts[i].first.None?
  }

  lemma HandedNothingMore(ts: seq<Trn>, t: Trn)
    ensures HandedNothing(ts + [t]) <==> HandedNothing(ts) && t.first.None?
  {
    var us := ts + [t];
    assert us[|ts|] == t && forall i :: 0 <= i < |ts| ==> us[i] == ts[i];
  }

  /** Some run frees every log. */
  ghost predicate Drainable(r: Repo)
    requires RepoOk(r)
  {
    exists steps :: DrainedBy(r, steps)
  }

  predicate DrainedBy(r: Repo, steps: seq<RepoStep>)
    requires RepoOk(r)
  {
    var end := RunRepo(r, steps); end.Some? && end.value.logs == []
  }

  lemma {:induction false} AbandonedStay(r: Repo, steps: seq<RepoStep>, r': Repo, i: nat)
    requires RepoOk(r) && RunRepo(r, steps) == Some(r') && i < |r.abandoned|
    ensures i < |r'.abandoned| && r'.abandoned[i] == r.abandoned[i]
    decreases |steps|
  {
    if steps != [] {
      AbandonedStay(RepoNext(r, steps[0]), steps[1..], r', i);
    }
  }

  lemma NobodyHolds(r: Repo)
    requires RepoOk(r) && r.trns == [] && r.leaving == []
    requires HandedNothing(r.abandoned)
    ensures r.Collect().logs == []
  {
    forall i | 0 <= i < |r.logs| ensures r.logs[i].clients == 0 {
      assert CountOk(r, i);
      CountPositive(r.abandoned, r.logs[i].id, r.seen);
      forall j: nat | j < |r.abandoned| ensures !Needs(r.abandoned[j], r.logs[i].id, r.seen) {
        assert HolderOk(r.abandoned, j, r.logs, r.seen);
      }
    }
  }

  lemma {:induction false} DrainsIfNothingLost(r: Repo) returns (steps: seq<RepoStep>)
    requires RepoOk(r) && HandedNothing(r.abandoned)
    ensures DrainedBy(r, steps)
    decreases |r.trns|, |r.leaving|
  {
    if r.trns == [] && r.leaving == [] {
      NobodyHolds(r);
      OneCleanUp(r);
      steps := [CleanUp(0)];
    } else {
      var step := if r.trns != [] then Unlink(0) else Release(0);
      var rest := DrainsIfNothingLost(RepoNext(r, step));
      steps := [step] + rest;
      assert steps[1..] == rest;
    }
  }

  lemma OneCleanUp(r: Repo)
    requires RepoOk(r)
    ensures RunRepo(r, [CleanUp(0)]) == Some(r.Collect())
  {
    var steps := [CleanUp(0)];
    assert steps[1..] == [];
    assert RepoNext(r, steps[0]) == r.Collect();
  }

  lemma StuckIfLost(r: Repo, i: nat, steps: seq<RepoStep>)
    requires RepoOk(r) && i < |r.abandoned| && r.abandoned[i].first.Some?
    ensures !DrainedBy(r, steps)
  {
    var end := RunRepo(r, steps);
    if end.Some? {
      AbandonedStay(r, steps, end.value, i);
      assert HolderOk(end.value.abandoned, i, end.value.logs, end.value.seen);
    }
  }

  /**
   The log list can be emptied exactly when no registration that failed in backfill had already been
   handed a log. Such a transaction is freed without giving back its counts, so its first log and
   everything after it is never freed.
   */
  lemma DrainableCondition(r: Repo)
    requires RepoOk(r)
    ensures Drainable(r) <==> HandedNothing(r.abandoned)
  {
    if HandedNothing(r.abandoned) {
      var _ := DrainsIfNothingLost(r);
    } else {
      var i :| 0 <= i < |r.abandoned| && r.abandoned[i].first.Some?;
      forall steps ensures !DrainedBy(r, steps) {
        StuckIfLost(r, i, steps);
      }
    }
  }

  /** Seen at the failure itself. */
  lemma AbandonLeaks(r: Repo, i: nat)
    requires RepoOk(r) && Drainable(r) && i < |r.trns|
    ensures RepoOk(r.Abandon(i)) && (Drainable(r.Abandon(i)) <==> r.trns[i].first.None?)
  {
    AbandonKeepsOk(r, i);
    DrainableCondition(r);
    DrainableCondition(r.Abandon(i));
    HandedNothingMore(r.abandoned, r.trns[i].(until := Some(|r.seen|)));
  }

  // ----- The transaction low-water mark -----

  const INT_MAX: nat := 0x7fff_ffff
  const NO_LWM := Lsn(INT_MAX, INT_MAX)

  /** Over the limit, transactions are cancelled at just enough logs: the records of those logs cover the
      excess, or there are no more logs, and one log fewer would not do. */
  lemma {:induction false} CancelsJustEnough(logs: seq<Log>, seen: seq<LogInfo>, excess: int)
    requires LogsSeen(logs, seen)
    ensures var n := CancelSpan(logs, seen, excess);
            && (n == |logs| || SumRecs(logs[..n], seen) >= excess)
            && (n > 0 ==> SumRecs(logs[..n - 1], seen) < excess)
    decreases |logs|
  {
    if excess > 0 && logs != [] {
      var rest, n := logs[1..], CancelSpan(logs, seen, excess);
      CancelsJustEnough(rest, seen, excess - seen[logs[0].id].nrecs);
      SumFromFront(logs, seen, n);
      if n > 1 {
        SumFromFront(logs, seen, n - 1);
      }
    }
  }

  lemma SumFromFront(logs: seq<Log>, seen: seq<LogInfo>, n: nat)
    requires LogsSeen(logs, seen) && 0 < n <= |logs|
    ensures SumRecs(logs[..n], seen) == seen[logs[0].id].nrecs + SumRecs(logs[1..][..n - 1], seen)
  {
    assert logs[..n] == [logs[0]] + logs[1..][..n - 1];
    SumRecsAppend([logs[0]], logs[1..][..n - 1], seen);
  }

  /** The running minimum the code keeps. */
  function Lwm(ts: seq<Trn>): Lsn {
    if ts == [] then NO_LWM
    else
      var low, t := Lwm(ts[..|ts| - 1]), ts[|ts| - 1];
      if !t.cancelled && t.birth.Before(low) then t.birth else low
  }

  /** `x` is at or below every birth LSN that counts, and the ceiling. */
  predicate LowerBound(x: Lsn, ts: seq<Trn>) {
    x.AtMost(NO_LWM) && forall i :: 0 <= i < |ts| && !ts[i].cancelled ==> x.AtMost(ts[i].birth)
  }

  /** The mark is the greatest lower bound of the birth LSNs of the transactions not cancelled. */
  lemma {:induction false} LwmIsGreatestLowerBound(ts: seq<Trn>, x: Lsn)
    ensures LowerBound(Lwm(ts), ts)
    ensures LowerBound(x, ts) <==> x.AtMost(Lwm(ts))
  {
    if ts != [] {
      var init := ts[..|ts| - 1];
      LwmIsGreatestLowerBound(init, x);
      LwmIsGreatestLowerBound(init, Lwm(ts));
      assert forall i :: 0 <= i < |init| ==> ts[i] == init[i];
      assert LowerBound(x, ts) <==> LowerBound(x, init) && (!ts[|init|].cancelled ==> x.AtMost(ts[|init|].birth));
    }
  }

  predicate SomeActive(ts: seq<Trn>) {
    exists i :: 0 <= i < |ts| && !ts[i].cancelled
  }

  /** A new transaction is born no earlier than any still registered: commit LSNs do not go back. */
  predicate BornInOrder(r: Repo, step: RepoStep) {
    step.Register? ==> forall i :: 0 <= i < |r.trns| ==> r.trns[i].birth.AtMost(step.birth)
  }

  /** Every active transaction of `us` was an active one of `ts`. */
  predicate ActiveWithin(us: seq<Trn>, ts: seq<Trn>) {
    forall j :: 0 <= j < |us| && !us[j].cancelled ==>
      exists i :: 0 <= i < |ts| && !ts[i].cancelled && ts[i].birth == us[j].birth
  }

  lemma FewerActive(ts: seq<Trn>, us: seq<Trn>)
    requires ActiveWithin(us, ts)
    ensures Lwm(ts).AtMost(Lwm(us))
  {
    LwmIsGreatestLowerBound(ts, Lwm(ts));
    LwmIsGreatestLowerBound(us, Lwm(ts));
  }

  lemma OneRemoved(ts: seq<Trn>, i: nat)
    requires i < |ts|
    ensures ActiveWithin(ts[..i] + ts[i + 1..], ts)
  {
    var us := ts[..i] + ts[i + 1..];
    forall j | 0 <= j < |us| && !us[j].cancelled
      ensures exists k :: 0 <= k < |ts| && !ts[k].cancelled && ts[k].birth == us[j].birth
    {
      var k := if j < i then j else j + 1;
      assert us[j] == ts[k];
    }
  }

  lemma SameBirths(ts: seq<Trn>, us: seq<Trn>)
    requires |ts| == |us|
    requires forall i :: 0 <= i < |ts| ==> us[i].birth == ts[i].birth && (ts[i].cancelled ==> us[i].cancelled)
    ensures ActiveWithin(us, ts)
  {
    forall j | 0 <= j < |us| && !us[j].cancelled
      ensures exists i :: 0 <= i < |ts| && !ts[i].cancelled && ts[i].birth == us[j].birth
    {
      assert !ts[j].cancelled;
    }
  }

  lemma LaterBirth(ts: seq<Trn>, t: Trn)
    requires SomeActive(ts) && forall i :: 0 <= i < |ts| ==> ts[i].birth.AtMost(t.birth)
    ensures Lwm(ts).AtMost(Lwm(ts + [t]))
  {
    assert (ts + [t])[..|ts|] == ts;
    LwmIsGreatestLowerBound(ts, Lwm(ts));
  }

  lemma LwmAfterInsert(r: Repo, log: LogInfo)
    ensures Lwm(r.trns).AtMost(Lwm(r.Insert(log).trns))
  {
    var us := MarkAll(r.trns, |r.seen|, log);
    SameBirths(r.trns, us);
    FewerActive(r.trns, us);
  }

  lemma LwmAfterCancel(r: Repo, maxLsns: nat)
    requires LogsSeen(r.logs, r.seen)
    ensures Lwm(r.trns).AtMost(Lwm(r.Cancel(maxLsns).trns))
  {
    var us := r.Cancel(maxLsns).trns;
    SameBirths(r.trns, us);
    FewerActive(r.trns, us);
  }

  lemma LwmAfterRemoval(ts: seq<Trn>, i: nat)
    requires i < |ts|
    ensures Lwm(ts).AtMost(Lwm(ts[..i] + ts[i + 1..]))
  {
    OneRemoved(ts, i);
    FewerActive(ts, ts[..i] + ts[i + 1..]);
  }

  lemma LwmStep(r: Repo, step: RepoStep)
    requires RepoOk(r) && CanStep(r, step) && SomeActive(r.trns) && BornInOrder(r, step)
    ensures Lwm(r.trns).AtMost(Lwm(RepoNext(r, step).trns))
  {
    match step
    case Register(startGenid, birth, asof) => LaterBirth(r.trns, r.Register(startGenid, birth, asof).trns[|r.trns|]);
    case Insert(log) => LwmAfterInsert(r, log);
    case CleanUp(maxLsns) => CollectKeepsOk(r); LwmAfterCancel(r.Collect(), maxLsns);
    case Unlink(i) => LwmAfterRemoval(r.trns, i);
    case Abandon(i) => LwmAfterRemoval(r.trns, i);
    case Release(_) =>
  }

  /** Along the run some transaction is always active, and births come in order. */
  predicate StaysActive(r: Repo, steps: seq<RepoStep>)
    requires RepoOk(r)
    decreases |steps|
  {
    steps == [] ||
    (SomeActive(r.trns) && BornInOrder(r, steps[0]) && CanStep(r, steps[0])
     && StaysActive(RepoNext(r, steps[0]), steps[1..]))
  }

  /** The mark never goes back while some transaction that is not cancelled remains. */
  lemma {:induction false} LwmNeverDecreases(r: Repo, steps: seq<RepoStep>, end: Repo)
    requires RepoOk(r) && RunRepo(r, steps) == Some(end) && StaysActive(r, steps)
    ensures Lwm(r.trns).AtMost(Lwm(end.trns))
    decreases |steps|
  {
    if steps != [] {
      LwmStep(r, steps[0]);
      LwmNeverDecreases(RepoNext(r, steps[0]), steps[1..], end);
    }
  }

  // ----- Begin-as-of references -----

  const NO_ASOF := Lsn(0, 1)

  predicate ValidAsof(x: Lsn) { x.file != 0 && x.offset != 1 }

  function OldestAsof(ts: seq<Trn>): Lsn {
    if ts == [] then NO_ASOF
    else
      var low, t := OldestAsof(ts[..|ts| - 1]), ts[|ts| - 1];
      if ValidAsof(t.asof) && (low.file == 0 || t.asof.Before(low)) then t.asof else low
  }

  predicate AsofAllows(ts: seq<Trn>, logfile: nat) {
    var low := OldestAsof(ts); !(ValidAsof(low) && low.file <= logfile)
  }

  /** A log file may go exactly when every valid as-of reference is in a later file. */
  lemma {:induction false} AsofAllowsExactly(ts: seq<Trn>, logfile: nat)
    ensures AsofAllows(ts, logfile)
            <==> forall i :: 0 <= i < |ts| && ValidAsof(ts[i].asof) ==> ts[i].asof.file > logfile
    ensures OldestAsof(ts) == NO_ASOF || ValidAsof(OldestAsof(ts))
    ensures OldestAsof(ts) == NO_ASOF ==> forall i :: 0 <= i < |ts| ==> !ValidAsof(ts[i].asof)
  {
    if ts != [] {
      var init := ts[..|ts| - 1];
      AsofAllowsExactly(init, logfile);
      assert forall i :: 0 <= i < |init| ==> ts[i] == init[i];
    }
  }

  lemma AsofAllowsLower(ts: seq<Trn>, logfile: nat, lower: nat)
    requires AsofAllows(ts, logfile) && lower <= logfile
    ensures AsofAllows(ts, lower)
  {
    AsofAllowsExactly(ts, logfile);
    AsofAllowsExactly(ts, lower);
  }
}
