/** Every step of the repositories keeps `RepoOk`, and what that says about whole runs. */
module OsqlInvariant {
  import opened Lsns
  import opened OsqlRepository

  // ----- Counting -----

  lemma {:induction false} CountSame(ts: seq<Trn>, us: seq<Trn>, id: LogId, seen: seq<LogInfo>, more: seq<LogInfo>)
    requires |ts| == |us| && id < |seen| && id < |more|
    requires forall i :: 0 <= i < |ts| ==> (Needs(ts[i], id, seen) <==> Needs(us[i], id, more))
    ensures Count(ts, id, seen) == Count(us, id, more)
  {
    if ts != [] {
      CountSame(ts[..|ts| - 1], us[..|us| - 1], id, seen, more);
    }
  }

  lemma {:induction false} CountPositive(ts: seq<Trn>, id: LogId, seen: seq<LogInfo>)
    requires id < |seen|
    ensures Count(ts, id, seen) > 0 <==> exists i :: 0 <= i < |ts| && Needs(ts[i], id, seen)
  {
    if ts != [] {
      var init := ts[..|ts| - 1];
      CountPositive(init, id, seen);
      if i :| 0 <= i < |init| && Needs(init[i], id, seen) {
        assert ts[i] == init[i];
      }
      if i :| 0 <= i < |ts| && Needs(ts[i], id, seen) {
        assert i < |init| ==> init[i] == ts[i];
      }
    }
  }

  lemma {:induction false} CountConcat(a: seq<Trn>, b: seq<Trn>, id: LogId, seen: seq<LogInfo>)
    requires id < |seen|
    ensures Count(a + b, id, seen) == Count(a, id, seen) + Count(b, id, seen)
    decreases |b|
  {
    if b == [] {
      assert a + b == a;
    } else {
      assert (a + b)[..|a + b| - 1] == a + b[..|b| - 1];
      CountConcat(a, b[..|b| - 1], id, seen);
    }
  }

  lemma CountRemoved(ts: seq<Trn>, i: nat, id: LogId, seen: seq<LogInfo>)
    requires i < |ts| && id < |seen|
    ensures Count(ts, id, seen)
            == Count(ts[..i] + ts[i + 1..], id, seen) + if Needs(ts[i], id, seen) then 1 else 0
  {
    assert ts == ts[..i + 1] + ts[i + 1..] && ts[..i + 1] == ts[..i] + [ts[i]];
    CountConcat(ts[..i + 1], ts[i + 1..], id, seen);
    CountConcat(ts[..i], ts[i + 1..], id, seen);
    CountAdded(ts[..i], ts[i], id, seen);
  }

  lemma CountAdded(ts: seq<Trn>, t: Trn, id: LogId, seen: seq<LogInfo>)
    requires id < |seen|
    ensures Count(ts + [t], id, seen) == Count(ts, id, seen) + if Needs(t, id, seen) then 1 else 0
  {
    assert (ts + [t])[..|ts|] == ts;
  }

  lemma {:induction false} CountIsUndo(ts: seq<Trn>, log: LogInfo, id: LogId, seen: seq<LogInfo>)
    requires id < |seen| && seen[id] == log
    requires forall i :: 0 <= i < |ts| ==> ts[i].since <= id && ts[i].until.None?
    ensures Count(ts, id, seen) == CountUndo(ts, log)
  {
    if ts != [] {
      CountIsUndo(ts[..|ts| - 1], log, id, seen);
    }
  }

  lemma {:induction false} GoneCountNothing(ts: seq<Trn>, id: LogId, seen: seq<LogInfo>)
    requires id < |seen| && forall i :: 0 <= i < |ts| ==> ts[i].until.Some? && ts[i].until.value <= id
    ensures Count(ts, id, seen) == 0
  {
    if ts != [] {
      GoneCountNothing(ts[..|ts| - 1], id, seen);
    }
  }

  lemma {:induction false} SumRecsAppend(a: seq<Log>, b: seq<Log>, seen: seq<LogInfo>)
    requires LogsSeen(a + b, seen)
    ensures LogsSeen(a, seen) && LogsSeen(b, seen)
    ensures SumRecs(a + b, seen) == SumRecs(a, seen) + SumRecs(b, seen)
    decreases |b|
  {
    assert forall i :: 0 <= i < |a| ==> a[i] == (a + b)[i];
    assert forall i :: 0 <= i < |b| ==> b[i] == (a + b)[|a| + i];
    if b == [] {
      assert a + b == a;
    } else {
      var n := |b| - 1;
      assert (a + b)[..|a + b| - 1] == a + b[..n];
      SumRecsAppend(a, b[..n], seen);
    }
  }

  lemma {:induction false} SumRecsSame(a: seq<Log>, b: seq<Log>, seen: seq<LogInfo>, more: seq<LogInfo>)
    requires LogsSeen(a, seen) && |a| == |b| && |seen| <= |more|
    requires forall i :: 0 <= i < |a| ==> a[i].id == b[i].id
    requires forall i :: 0 <= i < |seen| ==> seen[i] == more[i]
    ensures LogsSeen(b, more) && SumRecs(a, seen) == SumRecs(b, more)
  {
    if a != [] {
      SumRecsSame(a[..|a| - 1], b[..|b| - 1], seen, more);
    }
  }

  // ----- Each step keeps the invariant -----

  lemma RegisterKeepsCounts(r: Repo, t: Trn, next: Repo)
    requires LogsSeen(r.logs, r.seen) && CountsOk(r) && t.since == |r.seen|
    requires next == r.(trns := r.trns + [t], nextTrn := next.nextTrn)
    ensures CountsOk(next)
  {
    forall i: nat | i < |next.logs| ensures CountOk(next, i) {
      assert CountOk(r, i);
      CountAdded(r.trns, t, next.logs[i].id, r.seen);
    }
  }

  lemma RegisterKeepsHolders(ts: seq<Trn>, t: Trn, logs: seq<Log>, seen: seq<LogInfo>)
    requires HoldersOk(ts, logs, seen) && t.since == |seen| && t.first.None? && t.lastReg.None?
    ensures HoldersOk(ts + [t], logs, seen)
  {
    forall i: nat | i < |ts + [t]| ensures HolderOk(ts + [t], i, logs, seen) {
      assert i < |ts| ==> HolderOk(ts, i, logs, seen);
    }
  }

  lemma RegisterKeepsOk(r: Repo, startGenid: nat, birth: Lsn, asof: Lsn)
    requires RepoOk(r)
    ensures RepoOk(r.Register(startGenid, birth, asof))
  {
    var next := r.Register(startGenid, birth, asof);
    var t := next.trns[|r.trns|];
    RegisterKeepsCounts(r, t, next);
    RegisterKeepsHolders(r.trns, t, r.logs, r.seen);
  }

  /** A transaction's span and needs, after the log `log` was added to the history. */
  lemma MarkKeepsSpan(t: Trn, log: LogInfo, seen: seq<LogInfo>)
    requires SpanOk(t, seen) && t.until.None?
    ensures SpanOk(Mark(t, |seen|, log), seen + [log])
  {
    var more, u := seen + [log], Mark(t, |seen|, log);
    assert forall id :: 0 <= id < |seen| ==> (Needs(u, id, more) <==> Needs(t, id, seen));
    assert Needs(u, |seen|, more) <==> UndoRequired(t, log);
  }

  lemma GoneKeepsSpan(t: Trn, log: LogInfo, seen: seq<LogInfo>)
    requires SpanOk(t, seen) && t.until.Some? && t.until.value <= |seen|
    ensures SpanOk(t, seen + [log])
  {
    var more := seen + [log];
    assert forall id :: 0 <= id < |seen| ==> (Needs(t, id, more) <==> Needs(t, id, seen));
  }

  /** `more` starts with the logs of `logs`, whatever their counts. */
  predicate Begins(logs: seq<Log>, more: seq<Log>) {
    |logs| <= |more| && forall i :: 0 <= i < |logs| ==> more[i].id == logs[i].id
  }

  lemma MoreLogsPresent(t: Trn, u: Trn, logs: seq<Log>, moreLogs: seq<Log>, seen: seq<LogInfo>, more: seq<LogInfo>)
    requires NeedsPresent(t, logs, seen) && |seen| <= |more| && Begins(logs, moreLogs)
    requires forall id :: 0 <= id < |more| && Needs(u, id, more) ==>
               if id < |seen| then Needs(t, id, seen) else HasLog(moreLogs, id)
    ensures NeedsPresent(u, moreLogs, more)
  {
    forall id | 0 <= id < |more| && Needs(u, id, more) ensures HasLog(moreLogs, id) {
      if id < |seen| {
        var i :| 0 <= i < |logs| && logs[i].id == id;
        assert moreLogs[i].id == id;
      }
    }
  }

  predicate Open(ts: seq<Trn>, seen: seq<LogInfo>) {
    forall i :: 0 <= i < |ts| ==> ts[i].until.None? && ts[i].since <= |seen|
  }

  lemma CountMarked(ts: seq<Trn>, log: LogInfo, seen: seq<LogInfo>)
    requires Open(ts, seen)
    ensures Count(MarkAll(ts, |seen|, log), |seen|, seen + [log]) == CountUndo(ts, log)
  {
    CountIsUndo(MarkAll(ts, |seen|, log), log, |seen|, seen + [log]);
    UndoMarked(ts, |seen|, log);
  }

  lemma {:induction false} UndoMarked(ts: seq<Trn>, id: LogId, log: LogInfo)
    ensures CountUndo(MarkAll(ts, id, log), log) == CountUndo(ts, log)
  {
    if ts != [] {
      UndoMarked(ts[..|ts| - 1], id, log);
      var marked := MarkAll(ts, id, log);
      assert marked[..|ts| - 1] == MarkAll(ts[..|ts| - 1], id, log);
    }
  }

  lemma MarkedHoldersOk(ts: seq<Trn>, logs: seq<Log>, moreLogs: seq<Log>, seen: seq<LogInfo>, log: LogInfo)
    requires HoldersOk(ts, logs, seen) && Open(ts, seen) && Begins(logs, moreLogs)
    requires CountUndo(ts, log) > 0 ==> HasLog(moreLogs, |seen|)
    ensures HoldersOk(MarkAll(ts, |seen|, log), moreLogs, seen + [log])
  {
    var marked, more := MarkAll(ts, |seen|, log), seen + [log];
    CountMarked(ts, log, seen);
    CountPositive(marked, |seen|, more);
    forall i: nat | i < |marked| ensures HolderOk(marked, i, moreLogs, more) {
      assert HolderOk(ts, i, logs, seen);
      MarkKeepsSpan(ts[i], log, seen);
      MoreLogsPresent(ts[i], marked[i], logs, moreLogs, seen, more);
    }
  }

  lemma GoneHoldersOk(ts: seq<Trn>, logs: seq<Log>, moreLogs: seq<Log>, seen: seq<LogInfo>, log: LogInfo)
    requires HoldersOk(ts, logs, seen) && Gone(ts, seen) && Begins(logs, moreLogs)
    ensures HoldersOk(ts, moreLogs, seen + [log])
  {
    var more := seen + [log];
    forall i: nat | i < |ts| ensures HolderOk(ts, i, moreLogs, more) {
      assert HolderOk(ts, i, logs, seen);
      GoneKeepsSpan(ts[i], log, seen);
      MoreLogsPresent(ts[i], ts[i], logs, moreLogs, seen, more);
    }
  }

  lemma CountsWithNewLog(ts: seq<Trn>, us: seq<Trn>, id: LogId, seen: seq<LogInfo>, log: LogInfo)
    requires id < |seen| && |ts| == |us|
    requires forall i :: 0 <= i < |ts| ==> us[i] == ts[i] || us[i] == Mark(ts[i], |seen|, log)
    ensures Count(us, id, seen + [log]) == Count(ts, id, seen)
  {
    CountSame(ts, us, id, seen, seen + [log]);
  }

  lemma InsertCounts(r: Repo, log: LogInfo, id: LogId)
    requires Open(r.trns, r.seen) && Gone(r.leaving, r.seen) && Gone(r.abandoned, r.seen) && id <= |r.seen|
    ensures Holding(r.Insert(log), id) == if id == |r.seen| then CountUndo(r.trns, log) else Holding(r, id)
  {
    var next := r.Insert(log);
    if id == |r.seen| {
      CountMarked(r.trns, log, r.seen);
      GoneCountNothing(r.leaving, id, next.seen);
      GoneCountNothing(r.abandoned, id, next.seen);
    } else {
      CountsWithNewLog(r.trns, next.trns, id, r.seen, log);
      CountsWithNewLog(r.leaving, next.leaving, id, r.seen, log);
      CountsWithNewLog(r.abandoned, next.abandoned, id, r.seen, log);
    }
  }

  lemma TrnsAreOpen(r: Repo)
    requires HoldersOk(r.trns, r.logs, r.seen) && TrnsOk(r.trns, r.nextTrn)
    ensures Open(r.trns, r.seen)
  {
    forall i: nat | i < |r.trns| ensures r.trns[i].since <= |r.seen| {
      assert HolderOk(r.trns, i, r.logs, r.seen);
    }
  }

  lemma InsertKeepsCounts(r: Repo, log: LogInfo)
    requires LogsSeen(r.logs, r.seen) && CountsOk(r)
    requires Open(r.trns, r.seen) && Gone(r.leaving, r.seen) && Gone(r.abandoned, r.seen)
    ensures LogsSeen(r.Insert(log).logs, r.Insert(log).seen) && CountsOk(r.Insert(log))
  {
    var next := r.Insert(log);
    forall i: nat | i < |next.logs| ensures CountOk(next, i) {
      assert i < |r.logs| ==> CountOk(r, i);
      InsertCounts(r, log, next.logs[i].id);
    }
  }

  lemma LinkedKeepsKept(r: Repo, log: LogInfo, clients: nat, marked: seq<Trn>)
    requires KeptOk(r)
    ensures KeptOk(r.Linked(log, clients, marked))
  {
    var next := r.Linked(log, clients, marked);
    if clients > 0 {
      var n := |r.kept| - |r.logs|;
      assert next.kept[n..] == r.kept[n..] + [|r.seen|];
      assert Ids(next.logs) == Ids(r.logs) + [|r.seen|];
    }
  }

  lemma SumRecsOneMore(logs: seq<Log>, log: Log, info: LogInfo, seen: seq<LogInfo>)
    requires LogsSeen(logs, seen) && log.id == |seen|
    ensures LogsSeen(logs + [log], seen + [info]) && LogsSeen(logs, seen + [info])
    ensures SumRecs(logs + [log], seen + [info]) == SumRecs(logs, seen) + info.nrecs
    ensures SumRecs(logs, seen + [info]) == SumRecs(logs, seen)
  {
    SumRecsSame(logs, logs, seen, seen + [info]);
    assert (logs + [log])[..|logs|] == logs;
  }

  lemma LinkedKeepsSum(r: Repo, log: LogInfo, clients: nat, marked: seq<Trn>)
    requires LogsSeen(r.logs, r.seen) && r.lsns == SumRecs(r.logs, r.seen)
    ensures var next := r.Linked(log, clients, marked);
            LogsSeen(next.logs, next.seen) && next.lsns == SumRecs(next.logs, next.seen)
  {
    var next := r.Linked(log, clients, marked);
    SumRecsOneMore(r.logs, Log(|r.seen|, clients, false), log, r.seen);
    if clients == 0 {
      assert next.logs == r.logs;
    } else {
      assert next.logs == r.logs + [Log(|r.seen|, clients, false)];
    }
    assert next.seen == r.seen + [log];
  }

  lemma InsertKeepsTrns(r: Repo, log: LogInfo)
    requires TrnsOk(r.trns, r.nextTrn) && Gone(r.leaving, r.seen) && Gone(r.abandoned, r.seen)
    ensures var next := r.Insert(log);
            TrnsOk(next.trns, next.nextTrn) && Gone(next.leaving, next.seen) && Gone(next.abandoned, next.seen)
  {
  }

  lemma InsertKeepsHolders(r: Repo, log: LogInfo)
    requires HoldersOk(r.trns, r.logs, r.seen) && Open(r.trns, r.seen)
    requires HoldersOk(r.leaving, r.logs, r.seen) && Gone(r.leaving, r.seen)
    requires HoldersOk(r.abandoned, r.logs, r.seen) && Gone(r.abandoned, r.seen)
    ensures var next := r.Insert(log);
            && HoldersOk(next.trns, next.logs, next.seen)
            && HoldersOk(next.leaving, next.logs, next.seen)
            && HoldersOk(next.abandoned, next.logs, next.seen)
  {
    var next := r.Insert(log);
    if CountUndo(r.trns, log) > 0 {
      assert next.logs[|r.logs|].id == |r.seen|;
    }
    MarkedHoldersOk(r.trns, r.logs, next.logs, r.seen, log);
    GoneHoldersOk(r.leaving, r.logs, next.logs, r.seen, log);
    GoneHoldersOk(r.abandoned, r.logs, next.logs, r.seen, log);
  }

  lemma InsertKeepsOk(r: Repo, log: LogInfo)
    requires RepoOk(r)
    ensures RepoOk(r.Insert(log))
  {
    TrnsAreOpen(r);
    var clients, marked := CountUndo(r.trns, log), MarkAll(r.trns, |r.seen|, log);
    LinkedKeepsKept(r, log, clients, marked);
    LinkedKeepsSum(r, log, clients, marked);
    InsertKeepsCounts(r, log);
    InsertKeepsTrns(r, log);
    InsertKeepsHolders(r, log);
  }

  /** A transaction that is among those counted keeps its logs when only uncounted ones are dropped. */
  lemma HoldersLiveOn(ts: seq<Trn>, logs: seq<Log>, seen: seq<LogInfo>, n: nat)
    requires HoldersOk(ts, logs, seen) && LogsSeen(logs, seen) && n <= |logs|
    requires forall j :: 0 <= j < n ==> Count(ts, logs[j].id, seen) == 0
    ensures HoldersOk(ts, logs[n..], seen)
  {
    forall i: nat | i < |ts| ensures HolderOk(ts, i, logs[n..], seen) {
      assert HolderOk(ts, i, logs, seen);
      forall id | 0 <= id < |seen| && Needs(ts[i], id, seen) ensures HasLog(logs[n..], id) {
        var j :| 0 <= j < |logs| && logs[j].id == id;
        CountPositive(ts, id, seen);
        assert logs[n..][j - n] == logs[j];
      }
    }
  }

  lemma CollectKeepsKept(r: Repo)
    requires KeptOk(r) && LogsSeen(r.logs, r.seen)
    ensures KeptOk(r.Collect())
  {
    var n, k := |r.kept| - |r.logs|, DeadPrefix(r.logs);
    assert r.kept[n + k..] == r.kept[n..][k..];
    assert Ids(r.logs[k..]) == Ids(r.logs)[k..];
  }

  lemma CollectKeepsSum(r: Repo)
    requires LogsSeen(r.logs, r.seen) && r.lsns == SumRecs(r.logs, r.seen)
    ensures var next := r.Collect();
            LogsSeen(next.logs, next.seen) && next.lsns == SumRecs(next.logs, next.seen)
  {
    var n := DeadPrefix(r.logs);
    assert r.logs[..n] + r.logs[n..] == r.logs;
    SumRecsAppend(r.logs[..n], r.logs[n..], r.seen);
  }

  lemma CollectKeepsCounts(r: Repo)
    requires LogsSeen(r.logs, r.seen) && CountsOk(r)
    ensures CountsOk(r.Collect())
    ensures forall j :: 0 <= j < DeadPrefix(r.logs) ==> Holding(r, r.logs[j].id) == 0
  {
    var n := DeadPrefix(r.logs);
    forall j: nat | j < |r.Collect().logs| ensures CountOk(r.Collect(), j) {
      assert CountOk(r, n + j);
    }
    forall j: nat | j < n ensures Holding(r, r.logs[j].id) == 0 {
      assert CountOk(r, j);
    }
  }

  lemma CollectKeepsHolders(r: Repo, ts: seq<Trn>)
    requires LogsSeen(r.logs, r.seen) && HoldersOk(ts, r.logs, r.seen)
    requires ts == r.trns || ts == r.leaving || ts == r.abandoned
    requires forall j :: 0 <= j < DeadPrefix(r.logs) ==> Holding(r, r.logs[j].id) == 0
    ensures HoldersOk(ts, r.Collect().logs, r.seen)
  {
    HoldersLiveOn(ts, r.logs, r.seen, DeadPrefix(r.logs));
  }

  /** Freeing the unneeded front of the list takes away no log that anyone needs. */
  lemma CollectKeepsOk(r: Repo)
    requires RepoOk(r)
    ensures RepoOk(r.Collect())
  {
    CollectKeepsKept(r);
    CollectKeepsSum(r);
    CollectKeepsCounts(r);
    CollectKeepsHolders(r, r.trns);
    CollectKeepsHolders(r, r.leaving);
    CollectKeepsHolders(r, r.abandoned);
  }

  lemma SameIdsKeepHolders(ts: seq<Trn>, us: seq<Trn>, logs: seq<Log>, more: seq<Log>, seen: seq<LogInfo>)
    requires HoldersOk(ts, logs, seen) && |ts| == |us| && Begins(logs, more)
    requires forall i :: 0 <= i < |ts| ==> us[i] == ts[i] || us[i] == ts[i].(cancelled := true)
    ensures HoldersOk(us, more, seen)
  {
    forall i: nat | i < |us| ensures HolderOk(us, i, more, seen) {
      assert HolderOk(ts, i, logs, seen);
      assert forall id :: 0 <= id < |seen| ==> (Needs(us[i], id, seen) <==> Needs(ts[i], id, seen));
      MoreLogsPresent(ts[i], us[i], logs, more, seen, seen);
    }
  }

  lemma CancelKeepsCounts(r: Repo, maxLsns: nat)
    requires LogsSeen(r.logs, r.seen) && CountsOk(r)
    ensures LogsSeen(r.Cancel(maxLsns).logs, r.seen) && CountsOk(r.Cancel(maxLsns))
  {
    var next := r.Cancel(maxLsns);
    forall i: nat | i < |next.logs| ensures CountOk(next, i) {
      assert CountOk(r, i);
      CountSame(r.trns, next.trns, r.logs[i].id, r.seen, r.seen);
    }
  }

  lemma CancelKeepsOk(r: Repo, maxLsns: nat)
    requires RepoOk(r)
    ensures RepoOk(r.Cancel(maxLsns))
  {
    var next := r.Cancel(maxLsns);
    SumRecsSame(r.logs, next.logs, r.seen, r.seen);
    assert Ids(next.logs) == Ids(r.logs);
    CancelKeepsCounts(r, maxLsns);
    SameIdsKeepHolders(r.trns, next.trns, r.logs, next.logs, r.seen);
    SameIdsKeepHolders(r.leaving, next.leaving, r.logs, next.logs, r.seen);
    SameIdsKeepHolders(r.abandoned, next.abandoned, r.logs, next.logs, r.seen);
  }

  lemma MovedTrn(t: Trn, logs: seq<Log>, seen: seq<LogInfo>)
    requires SpanOk(t, seen) && NeedsPresent(t, logs, seen) && t.until.None?
    ensures var u := t.(until := Some(|seen|));
            && SpanOk(u, seen) && NeedsPresent(u, logs, seen)
            && forall id :: 0 <= id < |seen| ==> (Needs(u, id, seen) <==> Needs(t, id, seen))
  {
    var u := t.(until := Some(|seen|));
    assert forall id :: 0 <= id < |seen| ==> (Needs(u, id, seen) <==> Needs(t, id, seen));
  }

  lemma MovedCounts(trns: seq<Trn>, to: seq<Trn>, i: nat, u: Trn, id: LogId, seen: seq<LogInfo>)
    requires i < |trns| && id < |seen| && (Needs(u, id, seen) <==> Needs(trns[i], id, seen))
    ensures Count(trns[..i] + trns[i + 1..], id, seen) + Count(to + [u], id, seen)
            == Count(trns, id, seen) + Count(to, id, seen)
  {
    CountRemoved(trns, i, id, seen);
    CountAdded(to, u, id, seen);
  }

  lemma RemovedTrns(ts: seq<Trn>, i: nat, logs: seq<Log>, seen: seq<LogInfo>, nextTrn: nat)
    requires i < |ts| && HoldersOk(ts, logs, seen)
    ensures var rest := ts[..i] + ts[i + 1..];
            && HoldersOk(rest, logs, seen)
            && (TrnsOk(ts, nextTrn) ==> TrnsOk(rest, nextTrn))
            && (Gone(ts, seen) ==> Gone(rest, seen))
  {
    var rest := ts[..i] + ts[i + 1..];
    forall j: nat | j < |rest| ensures HolderOk(rest, j, logs, seen) {
      assert HolderOk(ts, if j < i then j else j + 1, logs, seen);
    }
  }

  lemma AddedTrn(ts: seq<Trn>, t: Trn, logs: seq<Log>, seen: seq<LogInfo>)
    requires HoldersOk(ts, logs, seen) && SpanOk(t, seen) && NeedsPresent(t, logs, seen)
    requires Gone(ts, seen) && t.until.Some? && t.until.value <= |seen|
    ensures HoldersOk(ts + [t], logs, seen) && Gone(ts + [t], seen)
  {
    var us := ts + [t];
    forall j: nat | j < |us| ensures HolderOk(us, j, logs, seen) {
      assert j < |ts| ==> HolderOk(ts, j, logs, seen);
    }
  }

  lemma UnlinkKeepsOk(r: Repo, i: nat)
    requires RepoOk(r) && i < |r.trns|
    ensures RepoOk(r.Unlink(i))
  {
    var u := r.trns[i].(until := Some(|r.seen|));
    assert HolderOk(r.trns, i, r.logs, r.seen);
    MovedTrn(r.trns[i], r.logs, r.seen);
    RemovedTrns(r.trns, i, r.logs, r.seen, r.nextTrn);
    AddedTrn(r.leaving, u, r.logs, r.seen);
    var next := r.Unlink(i);
    forall j: nat | j < |r.logs| ensures CountOk(next, j) {
      assert CountOk(r, j);
      MovedCounts(r.trns, r.leaving, i, u, r.logs[j].id, r.seen);
    }
  }

  lemma AbandonKeepsOk(r: Repo, i: nat)
    requires RepoOk(r) && i < |r.trns|
    ensures RepoOk(r.Abandon(i))
  {
    var u := r.trns[i].(until := Some(|r.seen|));
    assert HolderOk(r.trns, i, r.logs, r.seen);
    MovedTrn(r.trns[i], r.logs, r.seen);
    RemovedTrns(r.trns, i, r.logs, r.seen, r.nextTrn);
    AddedTrn(r.abandoned, u, r.logs, r.seen);
    var next := r.Abandon(i);
    forall j: nat | j < |r.logs| ensures CountOk(next, j) {
      assert CountOk(r, j);
      MovedCounts(r.trns, r.abandoned, i, u, r.logs[j].id, r.seen);
    }
  }

  /** The walk from `first` to `lastReg` meets exactly the logs the transaction needs. */
  lemma ReleasesWhatItNeeds(t: Trn, log: Log, seen: seq<LogInfo>)
    requires SpanOk(t, seen) && log.id < |seen| && t.until.Some? && t.until.value <= |seen|
    ensures Releases(t, log, seen) <==> Needs(t, log.id, seen)
  {
  }

  lemma ReleaseKeepsCounts(r: Repo, i: nat)
    requires LogsSeen(r.logs, r.seen) && CountsOk(r) && i < |r.leaving|
    requires SpanOk(r.leaving[i], r.seen) && Gone(r.leaving, r.seen)
    ensures LogsSeen(r.Release(i).logs, r.seen) && CountsOk(r.Release(i))
  {
    var next := r.Release(i);
    forall j: nat | j < |r.logs| ensures CountOk(next, j) {
      assert CountOk(r, j);
      CountRemoved(r.leaving, i, r.logs[j].id, r.seen);
      ReleasesWhatItNeeds(r.leaving[i], r.logs[j], r.seen);
    }
  }

  lemma ReleaseKeepsOk(r: Repo, i: nat)
    requires RepoOk(r) && i < |r.leaving|
    ensures RepoOk(r.Release(i))
  {
    var next := r.Release(i);
    SumRecsSame(r.logs, next.logs, r.seen, r.seen);
    assert HolderOk(r.leaving, i, r.logs, r.seen);
    ReleaseKeepsCounts(r, i);
    SameIdsKeepHolders(r.trns, r.trns, r.logs, next.logs, r.seen);
    SameIdsKeepHolders(r.leaving, r.leaving, r.logs, next.logs, r.seen);
    SameIdsKeepHolders(r.abandoned, r.abandoned, r.logs, next.logs, r.seen);
    RemovedTrns(r.leaving, i, next.logs, r.seen, r.nextTrn);
    assert Ids(next.logs) == Ids(r.logs);
  }
}
