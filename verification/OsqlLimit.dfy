/**
 The limit on kept log records. When there are too many, transactions are cancelled so that the oldest
 logs can go; this module shows that the ones cancelled are the right ones.
 */
module OsqlLimit {
  import opened Lsns
  import opened OsqlRepository
  import opened OsqlInvariant
  import opened OsqlRuns

  // ----- A marked log is only held by cancelled transactions -----

  predicate FlagOk(logs: seq<Log>, ts: seq<Trn>, seen: seq<LogInfo>, i: nat, j: nat)
    requires LogsSeen(logs, seen) && i < |logs| && j < |ts|
  {
    logs[i].cancelled && Needs(ts[j], logs[i].id, seen) ==> ts[j].cancelled
  }

  predicate FlagsOk(logs: seq<Log>, ts: seq<Trn>, seen: seq<LogInfo>)
    requires LogsSeen(logs, seen)
  {
    forall i: nat, j: nat :: i < |logs| && j < |ts| ==> FlagOk(logs, ts, seen, i, j)
  }

  lemma RegisterKeepsFlags(r: Repo, startGenid: nat, birth: Lsn, asof: Lsn)
    requires LogsSeen(r.logs, r.seen) && FlagsOk(r.logs, r.trns, r.seen)
    ensures FlagsOk(r.logs, r.Register(startGenid, birth, asof).trns, r.seen)
  {
    var ts := r.Register(startGenid, birth, asof).trns;
    forall i: nat, j: nat | i < |r.logs| && j < |ts| ensures FlagOk(r.logs, ts, r.seen, i, j) {
      assert j < |r.trns| ==> FlagOk(r.logs, r.trns, r.seen, i, j);
    }
  }

  lemma InsertKeepsFlags(r: Repo, log: LogInfo)
    requires LogsSeen(r.logs, r.seen) && FlagsOk(r.logs, r.trns, r.seen)
    ensures var next := r.Insert(log); LogsSeen(next.logs, next.seen) && FlagsOk(next.logs, next.trns, next.seen)
  {
    var next := r.Insert(log);
    forall i: nat, j: nat | i < |next.logs| && j < |next.trns| ensures FlagOk(next.logs, next.trns, next.seen, i, j) {
      assert i < |r.logs| ==> FlagOk(r.logs, r.trns, r.seen, i, j);
    }
  }

  lemma CollectKeepsFlags(r: Repo)
    requires LogsSeen(r.logs, r.seen) && FlagsOk(r.logs, r.trns, r.seen)
    ensures FlagsOk(r.Collect().logs, r.trns, r.seen)
  {
    var n := DeadPrefix(r.logs);
    forall i: nat, j: nat | i < |r.logs[n..]| && j < |r.trns| ensures FlagOk(r.logs[n..], r.trns, r.seen, i, j) {
      assert FlagOk(r.logs, r.trns, r.seen, n + i, j);
    }
  }

  lemma RemovalKeepsFlags(logs: seq<Log>, ts: seq<Trn>, seen: seq<LogInfo>, x: nat)
    requires LogsSeen(logs, seen) && FlagsOk(logs, ts, seen) && x < |ts|
    ensures FlagsOk(logs, ts[..x] + ts[x + 1..], seen)
  {
    var us := ts[..x] + ts[x + 1..];
    forall i: nat, j: nat | i < |logs| && j < |us| ensures FlagOk(logs, us, seen, i, j) {
      assert FlagOk(logs, ts, seen, i, if j < x then j else j + 1);
    }
  }

  lemma ReleaseKeepsFlags(r: Repo, x: nat)
    requires LogsSeen(r.logs, r.seen) && FlagsOk(r.logs, r.trns, r.seen) && x < |r.leaving|
    ensures var next := r.Release(x); LogsSeen(next.logs, next.seen) && FlagsOk(next.logs, next.trns, next.seen)
  {
    var next := r.Release(x);
    forall i: nat, j: nat | i < |next.logs| && j < |next.trns| ensures FlagOk(next.logs, next.trns, next.seen, i, j) {
      assert FlagOk(r.logs, r.trns, r.seen, i, j);
    }
  }

  /** Where a transaction's first log is, if it needs the log at `i`: at or before `i`, with a client. */
  lemma FirstBefore(r: Repo, i: nat, j: nat) returns (p: nat)
    requires RepoOk(r) && i < |r.logs| && j < |r.trns| && Needs(r.trns[j], r.logs[i].id, r.seen)
    ensures p <= i && r.trns[j].first == Some(r.logs[p].id)
    ensures r.logs[p].clients > 0 && Needs(r.trns[j], r.logs[p].id, r.seen)
  {
    var t := r.trns[j];
    assert HolderOk(r.trns, j, r.logs, r.seen);
    p := PositionOf(r.logs, t.first.value);
    LogIdsAscend(r, i, p);
    CountPositive(r.trns, r.logs[p].id, r.seen);
    assert CountOk(r, p);
  }

  lemma LogIdsAscend(r: Repo, i: nat, p: nat)
    requires KeptOk(r) && i < |r.logs| && p < |r.logs|
    ensures i < p ==> r.logs[i].id < r.logs[p].id
  {
    var n := |r.kept| - |r.logs|;
    assert r.kept[n + i] == r.kept[n..][i] && r.kept[n + p] == r.kept[n..][p];
  }

  /** The transactions that need a log the pass looks at have their first log at or before it, so the pass
      has cancelled them. */
  lemma CancelReaches(r: Repo, n: nat, i: nat, j: nat)
    requires RepoOk(r) && FlagsOk(r.logs, r.trns, r.seen) && i < n <= |r.logs| && j < |r.trns|
    requires Needs(r.trns[j], r.logs[i].id, r.seen)
    ensures CancelTrn(r.trns[j], r.logs[..n]).cancelled
  {
    var p := FirstBefore(r, i, j);
    assert FlagOk(r.logs, r.trns, r.seen, p, j);
    if !r.logs[p].cancelled {
      assert CancelsAt(r.logs[..n][p]);
    }
  }

  lemma CancelKeepsFlags(r: Repo, maxLsns: nat)
    requires RepoOk(r) && FlagsOk(r.logs, r.trns, r.seen)
    ensures var next := r.Cancel(maxLsns); LogsSeen(next.logs, next.seen) && FlagsOk(next.logs, next.trns, next.seen)
  {
    if maxLsns != 0 && r.lsns > maxLsns {
      var n := CancelSpan(r.logs, r.seen, r.lsns - maxLsns);
      var logs, ts := CancelLogs(r.logs, n), CancelTrns(r.trns, r.logs[..n]);
      forall i: nat, j: nat | i < |logs| && j < |ts| ensures FlagOk(logs, ts, r.seen, i, j) {
        assert FlagOk(r.logs, r.trns, r.seen, i, j);
        if i < n && Needs(r.trns[j], r.logs[i].id, r.seen) {
          CancelReaches(r, n, i, j);
        }
      }
    }
  }

  lemma StepKeepsFlags(r: Repo, step: RepoStep)
    requires RepoOk(r) && CanStep(r, step) && FlagsOk(r.logs, r.trns, r.seen)
    ensures var next := RepoNext(r, step); FlagsOk(next.logs, next.trns, next.seen)
  {
    match step
    case Register(startGenid, birth, asof) => RegisterKeepsFlags(r, startGenid, birth, asof);
    case Insert(log) => InsertKeepsFlags(r, log);
    case CleanUp(maxLsns) =>
      CollectKeepsOk(r);
      CollectKeepsFlags(r);
      CancelKeepsFlags(r.Collect(), maxLsns);
    case Unlink(i) => RemovalKeepsFlags(r.logs, r.trns, r.seen, i);
    case Release(i) => ReleaseKeepsFlags(r, i);
    case Abandon(i) => RemovalKeepsFlags(r.logs, r.trns, r.seen, i);
  }

  // ----- Enough logs are on their way out -----

  /** Nobody who stays needs any of the first `n` logs. */
  predicate Going(logs: seq<Log>, n: nat)
    requires n <= |logs|
  {
    forall i :: 0 <= i < n ==> logs[i].cancelled || logs[i].clients == 0
  }

  predicate EnoughGoing(r: Repo, limit: nat, n: nat)
    requires LogsSeen(r.logs, r.seen)
  {
    n <= |r.logs| && Going(r.logs, n) && r.lsns - SumRecs(r.logs[..n], r.seen) <= limit
  }

  ghost predicate WillFit(r: Repo, limit: nat)
    requires LogsSeen(r.logs, r.seen)
  {
    exists n: nat :: EnoughGoing(r, limit, n)
  }

  lemma CancelCovers(logs: seq<Log>, after: seq<Log>, seen: seq<LogInfo>, n: nat, limit: nat)
    requires LogsSeen(logs, seen) && n == CancelSpan(logs, seen, SumRecs(logs, seen) - limit)
    requires |after| == |logs| && forall i :: 0 <= i < |logs| ==> after[i].id == logs[i].id
    ensures LogsSeen(after[..n], seen) && SumRecs(logs, seen) - SumRecs(after[..n], seen) <= limit
  {
    CancelsJustEnough(logs, seen, SumRecs(logs, seen) - limit);
    SumRecsSame(logs[..n], after[..n], seen, seen);
    if n == |logs| {
      assert logs[..n] == logs;
    }
  }

  /** Right after the cancelling pass. */
  lemma CancelMakesRoom(r: Repo, limit: nat)
    requires LogsSeen(r.logs, r.seen) && r.lsns == SumRecs(r.logs, r.seen) && limit > 0
    ensures var next := r.Cancel(limit); LogsSeen(next.logs, next.seen) && WillFit(next, limit)
  {
    var next := r.Cancel(limit);
    var n := CancelSpan(r.logs, r.seen, r.lsns - limit);
    CancelCovers(r.logs, next.logs, r.seen, n, limit);
    assert EnoughGoing(next, limit, n);
  }

  /** Logs keep their place and mark, and lose clients at most. */
  predicate Fewer(logs: seq<Log>, more: seq<Log>) {
    |logs| == |more| &&
    forall i :: 0 <= i < |logs| ==>
      more[i].id == logs[i].id && (logs[i].cancelled ==> more[i].cancelled) && more[i].clients <= logs[i].clients
  }

  lemma FewerFits(r: Repo, s: Repo, limit: nat)
    requires LogsSeen(r.logs, r.seen) && WillFit(r, limit)
    requires Fewer(r.logs, s.logs) && s.seen == r.seen && s.lsns == r.lsns
    ensures LogsSeen(s.logs, s.seen) && WillFit(s, limit)
  {
    var n: nat :| EnoughGoing(r, limit, n);
    SumRecsSame(r.logs[..n], s.logs[..n], r.seen, r.seen);
    assert EnoughGoing(s, limit, n);
  }

  lemma CollectFits(r: Repo, limit: nat)
    requires LogsSeen(r.logs, r.seen) && WillFit(r, limit)
    ensures WillFit(r.Collect(), limit)
  {
    var n: nat :| EnoughGoing(r, limit, n);
    var d, next := DeadPrefix(r.logs), r.Collect();
    if d <= n {
      assert r.logs[..n] == r.logs[..d] + next.logs[..n - d];
      SumRecsAppend(r.logs[..d], next.logs[..n - d], r.seen);
      assert EnoughGoing(next, limit, n - d);
    } else {
      SumOfLonger(r.logs, r.seen, n, d);
      assert EnoughGoing(next, limit, 0);
    }
  }

  lemma SumOfLonger(logs: seq<Log>, seen: seq<LogInfo>, n: nat, m: nat)
    requires LogsSeen(logs, seen) && n <= m <= |logs|
    ensures SumRecs(logs[..n], seen) <= SumRecs(logs[..m], seen)
  {
    assert logs[..m] == logs[..n] + logs[n..m];
    SumRecsAppend(logs[..n], logs[n..m], seen);
  }

  lemma CancelFewer(r: Repo, maxLsns: nat)
    requires LogsSeen(r.logs, r.seen)
    ensures var next := r.Cancel(maxLsns); Fewer(r.logs, next.logs) && next.seen == r.seen && next.lsns == r.lsns
  {
  }

  lemma ReleaseFewer(r: Repo, i: nat)
    requires LogsSeen(r.logs, r.seen) && i < |r.leaving|
    ensures var next := r.Release(i); Fewer(r.logs, next.logs) && next.seen == r.seen && next.lsns == r.lsns
  {
  }

  lemma StepFits(r: Repo, step: RepoStep, limit: nat)
    requires RepoOk(r) && CanStep(r, step) && !step.Insert? && WillFit(r, limit)
    ensures WillFit(RepoNext(r, step), limit)
  {
    var next := RepoNext(r, step);
    match step
    case CleanUp(maxLsns) =>
      CollectFits(r, limit);
      CancelFewer(r.Collect(), maxLsns);
      FewerFits(r.Collect(), next, limit);
    case Release(i) =>
      ReleaseFewer(r, i);
      FewerFits(r, next, limit);
    case _ =>
      FewerFits(r, next, limit);
  }

  // ----- The limit -----

  predicate NoneCancelled(ts: seq<Trn>) { forall i :: 0 <= i < |ts| ==> !ts[i].cancelled }

  /** The cancelled transactions have left, and nothing was lost to a failed registration. */
  predicate Settled(r: Repo) { NoneCancelled(r.trns) && r.leaving == [] && HandedNothing(r.abandoned) }

  lemma GoingIsGone(r: Repo, i: nat)
    requires RepoOk(r) && FlagsOk(r.logs, r.trns, r.seen) && Settled(r) && i < |r.logs| && r.logs[i].cancelled
    ensures r.logs[i].clients == 0
  {
    var id := r.logs[i].id;
    CountPositive(r.trns, id, r.seen);
    CountPositive(r.abandoned, id, r.seen);
    forall j: nat | j < |r.trns| ensures !Needs(r.trns[j], id, r.seen) {
      assert FlagOk(r.logs, r.trns, r.seen, i, j);
    }
    forall j: nat | j < |r.abandoned| ensures !Needs(r.abandoned[j], id, r.seen) {
      assert HolderOk(r.abandoned, j, r.logs, r.seen);
    }
    assert CountOk(r, i);
  }

  lemma {:induction false} DeadIsPrefix(logs: seq<Log>, n: nat)
    requires n <= |logs| && forall i :: 0 <= i < n ==> logs[i].clients == 0
    ensures n <= DeadPrefix(logs)
  {
    var d := DeadPrefix(logs);
    assert d < |logs| ==> logs[d].clients > 0;
  }

  lemma SettledFits(r: Repo, limit: nat)
    requires RepoOk(r) && FlagsOk(r.logs, r.trns, r.seen) && Settled(r) && WillFit(r, limit)
    ensures r.Collect().lsns <= limit
  {
    var n: nat :| EnoughGoing(r, limit, n);
    forall i: nat | i < n ensures r.logs[i].clients == 0 {
      if r.logs[i].cancelled {
        GoingIsGone(r, i);
      }
    }
    DeadIsPrefix(r.logs, n);
    SumOfLonger(r.logs, r.seen, n, DeadPrefix(r.logs));
  }

  /** What is kept until the cancelled transactions are gone. */
  ghost predicate OnTheWay(r: Repo, limit: nat) {
    RepoOk(r) && FlagsOk(r.logs, r.trns, r.seen) && WillFit(r, limit)
  }

  lemma StepOnTheWay(r: Repo, step: RepoStep, limit: nat)
    requires OnTheWay(r, limit) && CanStep(r, step) && !step.Insert?
    ensures OnTheWay(RepoNext(r, step), limit)
  {
    StepKeepsFlags(r, step);
    StepFits(r, step, limit);
  }

  lemma RunFirst(r: Repo, steps: seq<RepoStep>, end: Repo)
    requires RepoOk(r) && steps != [] && RunRepo(r, steps) == Some(end)
    ensures CanStep(r, steps[0]) && RunRepo(RepoNext(r, steps[0]), steps[1..]) == Some(end)
  {
  }

  /** In a run without new logs, enough logs stay on their way out until they are gone. */
  lemma {:induction false} LimitEnforced(r: Repo, limit: nat, steps: seq<RepoStep>, end: Repo)
    requires OnTheWay(r, limit)
    requires RunRepo(r, steps) == Some(end) && forall i :: 0 <= i < |steps| ==> !steps[i].Insert?
    requires Settled(end)
    ensures end.Collect().lsns <= limit
    decreases |steps|
  {
    if steps == [] {
      SettledFits(r, limit);
    } else {
      RunFirst(r, steps, end);
      StepOnTheWay(r, steps[0], limit);
      LimitEnforced(RepoNext(r, steps[0]), limit, steps[1..], end);
    }
  }

  /** In every reachable repository a marked log is held by cancelled transactions only. */
  lemma {:induction false} MarkedLogsAreGoing(start: Repo, steps: seq<RepoStep>, end: Repo)
    requires RepoOk(start) && FlagsOk(start.logs, start.trns, start.seen) && RunRepo(start, steps) == Some(end)
    ensures FlagsOk(end.logs, end.trns, end.seen)
    decreases |steps|
  {
    if steps != [] {
      StepKeepsFlags(start, steps[0]);
      MarkedLogsAreGoing(RepoNext(start, steps[0]), steps[1..], end);
    }
  }

  /**
   The limit is enforced. After a clean-up with limit `limit`, in any run without new logs, as soon as the
   cancelled transactions have left, the next collection brings the records kept down to the limit. No
   transaction that was not cancelled has to leave for that.
   */
  lemma CleanUpEnforcesLimit(r: Repo, limit: nat, steps: seq<RepoStep>, end: Repo)
    requires RepoOk(r) && FlagsOk(r.logs, r.trns, r.seen) && limit > 0
    requires RunRepo(RepoNext(r, CleanUp(limit)), steps) == Some(end)
    requires forall i :: 0 <= i < |steps| ==> !steps[i].Insert?
    requires Settled(end)
    ensures end.Collect().lsns <= limit
  {
    StepKeepsFlags(r, CleanUp(limit));
    CollectKeepsOk(r);
    CancelMakesRoom(r.Collect(), limit);
    LimitEnforced(RepoNext(r, CleanUp(limit)), limit, steps, end);
  }
}
