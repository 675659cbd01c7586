/**
 One concrete input for each promise that the code does not keep in full. The exact conditions are stated
 beside the code they are about.
 */
module Counterexamples {
  import opened Lsns
  import opened BlkseqStripe
  import BlkseqRuns
  import BlkseqTable
  import BlkseqRebuild
  import opened OsqlRepository
  import OsqlRuns
  import ShadowUpdate
  import PageHash
  import Bytes
  import WireBuffer

  /** From a fresh stripe: a response is logged, the cleaner rolls at 20 and goes to read the log at 40. A response
      stored at 45, before it comes back, can be gone before 55. */
  lemma RetentionFails() returns (run: BlkseqRuns.Run)
    ensures run.Valid() && run.maxage == 10 && |run.states| == 6 && run.states[0] == FreshStripe(0)
    ensures var s := run.states[5].Insert([1], [2], 45, Some(Lsn(1, 50)), false);
            s.cleaner.InWindow? && !BlkseqRuns.RetainedForMaxage(10, s, [1], 45)
  {
    var a := BlkseqRuns.Insert([9], [], 1, Some(Lsn(1, 10)), false);
    var b, c := BlkseqRuns.Sample(20), BlkseqRuns.Sample(40);
    var s0 := FreshStripe(0);
    var s1 := BlkseqRuns.Next(10, s0, a);
    var s2 := s1.Sample(20);
    var s3 := s2.CleanBegin(10);
    var s4 := s3.Sample(40);
    var s5 := s4.CleanBegin(10);
    var begin := BlkseqRuns.CleanBegin;
    run := BlkseqRuns.Run(10, [s0, s1, s2, s3, s4, s5], [a, b, begin, c, begin]);
    var k: Key, other: Key := [1], [9];
    assert k[0] != other[0];
    BlkseqRuns.WindowStaysOk(run, 5);
    BlkseqRuns.RetentionCondition(10, s5, k, [2], 45, Some(Lsn(1, 50)));
  }

  /** From a fresh stripe: the cleaner samples 44 and waits for the mutex while a response is stored at 45. It can be
      gone before 55. */
  lemma LateCleanerFails() returns (run: BlkseqRuns.Run)
    ensures run.Valid() && run.maxage == 10 && run.states == [FreshStripe(0), FreshStripe(0).Sample(44)]
    ensures var s := run.states[1].Insert([1], [2], 45, Some(Lsn(1, 50)), false);
            !BlkseqRuns.RetainedForMaxage(10, s, [1], 45)
  {
    var s := FreshStripe(0);
    run := BlkseqRuns.Run(10, [s, s.Sample(44)], [BlkseqRuns.Sample(44)]);
    BlkseqRuns.RetentionCondition(10, s.Sample(44), [1], [2], 45, Some(Lsn(1, 50)));
  }

  /** From a fresh stripe: a response logged in file 3 is rolled into the old tree. */
  lemma RolledOnce() returns (run: BlkseqRuns.Run)
    ensures run.Valid() && run.maxage == 10 && |run.states| == 4 && run.states[0] == FreshStripe(0)
    ensures var s := run.states[3]; s.cleaner.Away? && [1] !in s.young && [1] in s.aged && s.agedLsn == Lsn(3, 0)
  {
    var a := BlkseqRuns.Insert([1], [2], 1, Some(Lsn(3, 0)), false);
    var s0 := FreshStripe(0);
    var s1 := BlkseqRuns.Next(10, s0, a);
    var s2 := s1.Sample(20);
    var s3 := s2.CleanBegin(10);
    run := BlkseqRuns.Run(10, [s0, s1, s2, s3], [a, BlkseqRuns.Sample(20), BlkseqRuns.CleanBegin]);
  }

  /** That response is then overwritten by a record in file 5. */
  lemma LogGuardFails() returns (run: BlkseqRuns.Run)
    ensures run.Valid() && run.maxage == 10 && |run.states| == 4 && run.states[0] == FreshStripe(0)
    ensures var s := run.states[3].Insert([1], [3], 30, Some(Lsn(5, 0)), true);
            !BlkseqRuns.KeptWhileLogged(10, s, [1], 5)
  {
    run := RolledOnce();
    BlkseqRuns.InsertLogGuard(10, run.states[3], [1], [3], 30, Lsn(5, 0), true);
  }

  /** Two responses logged in file 1, at times 0 and 100. At 105 the file may be deleted, although the second
      response is five seconds old. */
  lemma DeletionPromiseFails() returns (run: BlkseqRuns.Run)
    ensures run.Valid() && |run.states| == 3 && run.states[0] == FreshStripe(0)
    ensures BlkseqTable.ClockAfter([run], 105) && BlkseqTable.Deletable(BlkseqTable.Ends([run]), 1, 105, 10)
    ensures !BlkseqTable.AllOlder([run], 1, 105, 10)
  {
    var a := BlkseqRuns.Insert([1], [], 0, Some(Lsn(1, 10)), false);
    var b := BlkseqRuns.Insert([2], [], 100, Some(Lsn(1, 20)), false);
    var s0 := FreshStripe(0);
    var s1 := BlkseqRuns.Next(10, s0, a);
    var s2 := BlkseqRuns.Next(10, s1, b);
    run := BlkseqRuns.Run(10, [s0, s1, s2], [a, b]);
    var k: Key, other: Key := [1], [2];
    assert k[0] != other[0];
    assert BlkseqTable.WritesAt([run], 0, 1, SeenLog(1, 100));
  }

  /** The counting pass at time 100 finds no entry for file 1. A response is logged there before the removing pass,
      which takes its entry away. */
  lemma LatePassFails() returns (run: BlkseqRuns.Run)
    ensures run.Valid() && |run.states| == 2 && run.states[0] == FreshStripe(0)
    ensures BlkseqTable.StripeDeletable(run.states[0], 1, 100, 10)
    ensures !BlkseqTable.Deletable(BlkseqTable.Ends([run]), 1, 100, 10)
    ensures !BlkseqRuns.HasEntry(run.states[1].ForgetLog(1).logList, 1)
  {
    var a := BlkseqRuns.Insert([1], [], 100, Some(Lsn(1, 10)), false);
    run := BlkseqRuns.Run(10, [FreshStripe(0), BlkseqRuns.Next(10, FreshStripe(0), a)], [a]);
    assert BlkseqTable.Ends([run])[0].logList[0] == SeenLog(1, 100);
  }

  /** A log in which a transaction that stored its blkseq at time 0 commits after one that stored at 100. At 105
      the recent response is not found again. */
  lemma RebuildMissesRecent(log: seq<BlkseqRebuild.LogRec>, clock: BlkseqRebuild.Clock)
    requires |log| == 4 && clock.now == 105 && clock.maxage == 10
    requires log[0] == BlkseqRebuild.LogRec(Lsn(1, 10), ZERO_LSN, BlkseqRebuild.Blkseq(0, [3], [4]), true)
    requires log[1] == BlkseqRebuild.LogRec(Lsn(1, 20), ZERO_LSN, BlkseqRebuild.Blkseq(100, [1], [2]), true)
    requires log[2] == BlkseqRebuild.LogRec(Lsn(1, 30), Lsn(1, 20), BlkseqRebuild.Commit, true)
    requires log[3] == BlkseqRebuild.LogRec(Lsn(1, 40), Lsn(1, 10), BlkseqRebuild.Commit, true)
    ensures BlkseqRebuild.Ordered(log)
    ensures var es := BlkseqRebuild.Entries(log);
            && es[2] == BlkseqRebuild.Answer(BlkseqRebuild.Stored(100, [1], [2])) && BlkseqRebuild.Recent(es[2], clock)
            && BlkseqRebuild.Walk(es, 3, clock, [], map[]) == map[]
  {
    BlkseqRebuild.UniquePosition(log, 0);
    BlkseqRebuild.UniquePosition(log, 1);
    assert BlkseqRebuild.EntryOf(log, 3) == BlkseqRebuild.Answer(BlkseqRebuild.Stored(0, [3], [4]));
    assert BlkseqRebuild.EntryOf(log, 2) == BlkseqRebuild.Answer(BlkseqRebuild.Stored(100, [1], [2]));
  }

  /** A log in which a transaction commits between a distributed prepare and its abort. The walk passes it over. */
  lemma RebuildSkipsCommit(log: seq<BlkseqRebuild.LogRec>, clock: BlkseqRebuild.Clock, abort: Response)
    requires |log| == 4 && clock.now == 105 && clock.maxage == 10
    requires log[0] == BlkseqRebuild.LogRec(Lsn(1, 10), ZERO_LSN, BlkseqRebuild.DistPrepare([3]), true)
    requires log[1] == BlkseqRebuild.LogRec(Lsn(1, 20), ZERO_LSN, BlkseqRebuild.Blkseq(100, [1], [2]), true)
    requires log[2] == BlkseqRebuild.LogRec(Lsn(1, 30), Lsn(1, 20), BlkseqRebuild.Commit, true)
    requires log[3] == BlkseqRebuild.LogRec(Lsn(1, 40), Lsn(1, 10), BlkseqRebuild.DistAbort, true)
    ensures BlkseqRebuild.Ordered(log)
    ensures var es := BlkseqRebuild.Entries(log);
            && es[2] == BlkseqRebuild.Answer(BlkseqRebuild.Stored(100, [1], [2])) && BlkseqRebuild.Recent(es[2], clock)
            && BlkseqRebuild.Walk(es, 3, clock, abort, map[]) == map[[3] := abort]
  {
    BlkseqRebuild.UniquePosition(log, 0);
    BlkseqRebuild.UniquePosition(log, 1);
    var es := BlkseqRebuild.Entries(log);
    assert BlkseqRebuild.EntryOf(log, 3) == BlkseqRebuild.Jump(0, Some([3]));
    assert BlkseqRebuild.EntryOf(log, 2) == BlkseqRebuild.Answer(BlkseqRebuild.Stored(100, [1], [2]));
    assert BlkseqRebuild.NextPos(es, 3) == -1;
  }

  /** A transaction with no start genid, which must undo everything, is handed a log before its registration
      fails: whatever the repository held before, that log can never be freed. */
  lemma FailedRegistrationLeaks(born: Repo, log: LogInfo, i: nat)
    requires RepoOk(born) && i < |born.trns| && born.trns[i].startGenid == 0
    ensures var handed := OsqlRuns.RepoNext(born, OsqlRuns.Insert(log));
            !OsqlRuns.Drainable(OsqlRuns.RepoNext(handed, OsqlRuns.Abandon(i)))
  {
    var handed := OsqlRuns.RepoNext(born, OsqlRuns.Insert(log));
    Handed(born, log, i);
    var r := OsqlRuns.RepoNext(handed, OsqlRuns.Abandon(i));
    assert r.abandoned[|handed.abandoned|].first.Some?;
    OsqlRuns.DrainableCondition(r);
  }

  lemma Handed(r: Repo, log: LogInfo, i: nat)
    requires i < |r.trns| && UndoRequired(r.trns[i], log)
    ensures var next := r.Insert(log); |next.trns| == |r.trns| && next.trns[i].first.Some?
  {
  }

  /** A repository with one transaction, which must undo everything, and one log. */
  lemma OneLog(start: Repo, birth: Lsn, asof: Lsn, log: LogInfo) returns (r: Repo)
    requires start.seen == [] && start.kept == [] && start.logs == [] && start.lsns == 0
    requires start.trns == [] && start.leaving == [] && start.abandoned == []
    ensures RepoOk(start) && RepoOk(r)
    ensures |r.trns| == 1 && r.trns[0].first == Some(0) && r.logs == [Log(0, 1, false)]
  {
    OsqlRuns.EmptyRepoOk(start);
    var born := OsqlRuns.RepoNext(start, OsqlRuns.Register(0, birth, asof));
    r := OsqlRuns.RepoNext(born, OsqlRuns.Insert(log));
    assert born.trns[..0] == [];
    assert CountUndo(born.trns, log) == 1;
  }

  /** A data cursor of a transaction without shadow tables goes through that log in each of two updates. */
  lemma LogReapplied(start: Repo, birth: Lsn, asof: Lsn, log: LogInfo) returns (r: Repo)
    requires start.seen == [] && start.kept == [] && start.logs == [] && start.lsns == 0
    requires start.trns == [] && start.leaving == [] && start.abandoned == []
    ensures RepoOk(r) && |r.trns| == 1
    ensures Twice(r.logs, r.trns[0], ShadowUpdate.Records(ShadowUpdate.Data, false)) == Some([0, 0])
  {
    r := OneLog(start, birth, asof, log);
    assert [] + [0] + [0] == [0, 0];
  }

  /** What two updates of one log each apply. */
  function Twice(logs: seq<Log>, t: Trn, records: bool): Option<seq<LogId>> {
    var a := ShadowUpdate.Begin(logs, t, ShadowUpdate.FRESH_SHADOW);
    if a.None? || a.value.running.None? then None
    else
      var b := ShadowUpdate.ApplyOne(logs, a.value, records);
      if b.None? || b.value.running.Some? then None
      else
        var c := ShadowUpdate.Begin(logs, t, b.value);
        if c.None? || c.value.running.None? then None
        else
          var d := ShadowUpdate.ApplyOne(logs, c.value, records);
          if d.None? || d.value.running.Some? then None else Some(d.value.applied)
  }

  /** The longest length the hash can be asked for reads far past the end. */
  lemma HashOverReads()
    ensures PageHash.Consumed(PageHash.WORD - 1) > PageHash.WORD - 1
  {
  }

  /** A two-byte string sent in network order. */
  lemma RawBytesDiffer() returns (s: seq<Bytes.byte>)
    ensures s == [1, 2]
    ensures WireBuffer.Moved(WireBuffer.LittleHost, WireBuffer.Net, s)
            != WireBuffer.Moved(WireBuffer.BigHost, WireBuffer.Net, s)
  {
    s := [1, 2];
    assert Bytes.Rev(s)[0] == 2;
  }
}
