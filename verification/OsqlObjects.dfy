/** The repositories as the code keeps them: lists updated in place, walked by loops. */
module OsqlObjects {
  import opened Lsns
  import opened OsqlRepository
  import opened OsqlInvariant
  import opened OsqlRuns

  class Repository {
    var seen: seq<LogInfo>
    ghost var kept: seq<LogId>
    var logs: seq<Log>
    var lsns: int
    var trns: seq<Trn>
    var leaving: seq<Trn>
    ghost var abandoned: seq<Trn>
    var nextTrn: nat

    ghost function State(): Repo
      reads this
    {
      Repo(seen, kept, logs, lsns, trns, leaving, abandoned, nextTrn)
    }

    ghost predicate Valid()
      reads this
    {
      RepoOk(State())
    }

    constructor ()
      ensures Valid() && State() == FreshRepo()
    {
      seen, kept, logs, lsns := [], [], [], 0;
      trns, leaving, abandoned, nextTrn := [], [], [], 0;
    }

    /** The transaction is born at the last commit, or at the current end of the log if there is none. */
    method Enlist(startGenid: nat, commitLsn: Lsn, currentLsn: Lsn, asof: Lsn) returns (birth: Lsn)
      modifies this`trns, this`nextTrn
      ensures birth == if commitLsn.file == 0 then currentLsn else commitLsn
      ensures State() == old(State()).Register(startGenid, birth, asof)
    {
      birth := commitLsn;
      if commitLsn.file == 0 {
        birth := currentLsn;
      }
      trns := trns + [Trn(nextTrn, startGenid, birth, asof, None, None, false, |seen|, None)];
      nextTrn := nextTrn + 1;
    }

    method Register(startGenid: nat, commitLsn: Lsn, currentLsn: Lsn, asof: Lsn)
      requires Valid()
      modifies this
      ensures Valid()
      ensures State() == old(State()).Register(startGenid, if commitLsn.file == 0 then currentLsn else commitLsn, asof)
    {
      ghost var before := State();
      var birth := Enlist(startGenid, commitLsn, currentLsn, asof);
      RegisterKeepsOk(before, startGenid, birth, asof);
    }

    /** Offer a log to every registered transaction. */
    method CheckClients(id: LogId, log: LogInfo) returns (clients: nat)
      modifies this`trns
      ensures trns == MarkAll(old(trns), id, log)
      ensures clients == CountUndo(old(trns), log)
    {
      ghost var before := trns;
      clients := 0;
      for i := 0 to |trns|
        invariant |trns| == |before|
        invariant forall j :: 0 <= j < i ==> trns[j] == Mark(before[j], id, log)
        invariant forall j :: i <= j < |trns| ==> trns[j] == before[j]
        invariant clients == CountUndo(before[..i], log)
      {
        assert before[..i + 1][..i] == before[..i];
        var t := trns[i];
        if UndoRequired(t, log) {
          clients := clients + 1;
          if t.first.None? {
            t := t.(first := Some(id));
          }
          t := t.(lastReg := Some(id));
          trns := trns[i := t];
        }
      }
      assert before[..|before|] == before;
    }

    /** A log without clients is taken off the list again at once. */
    method LinkLog(log: LogInfo)
      modifies this
      ensures State() == old(State()).Insert(log)
    {
      var id := |seen|;
      seen := seen + [log];
      var clients := CheckClients(id, log);
      if clients > 0 {
        logs := logs + [Log(id, clients, false)];
        kept := kept + [id];
        lsns := lsns + log.nrecs;
      }
    }

    method Insert(log: LogInfo)
      requires Valid()
      modifies this
      ensures Valid() && State() == old(State()).Insert(log)
    {
      ghost var before := State();
      LinkLog(log);
      InsertKeepsOk(before, log);
    }

    /** Free from the front until a log with clients. */
    method FreeFront()
      requires LogsSeen(logs, seen)
      modifies this`logs, this`lsns
      ensures var n := DeadPrefix(old(logs));
              logs == old(logs)[n..] && lsns == old(lsns) - SumRecs(old(logs)[..n], seen)
    {
      ghost var before, n := logs, 0;
      while |logs| > 0 && logs[0].clients == 0
        invariant n <= |before| && logs == before[n..]
        invariant DeadPrefix(before) == n + DeadPrefix(logs)
        invariant lsns == old(lsns) - SumRecs(before[..n], seen)
        decreases |logs|
      {
        assert before[..n + 1][..n] == before[..n];
        lsns := lsns - seen[logs[0].id].nrecs;
        logs := logs[1..];
        n := n + 1;
      }
    }

    method FreeUnneeded()
      requires LogsSeen(logs, seen)
      modifies this`logs, this`lsns
      ensures State() == old(State()).Collect()
    {
      FreeFront();
    }

    /** Cancel every transaction whose first log is `id`. */
    method CancelClients(id: LogId)
      modifies this`trns
      ensures |trns| == |old(trns)|
      ensures forall j :: 0 <= j < |trns| ==>
                trns[j] == if old(trns)[j].first == Some(id) then old(trns)[j].(cancelled := true) else old(trns)[j]
    {
      ghost var before := trns;
      for i := 0 to |trns|
        invariant |trns| == |before|
        invariant forall j :: 0 <= j < i ==>
                    trns[j] == if before[j].first == Some(id) then before[j].(cancelled := true) else before[j]
        invariant forall j :: i <= j < |trns| ==> trns[j] == before[j]
      {
        if trns[i].first == Some(id) {
          trns := trns[i := trns[i].(cancelled := true)];
        }
      }
    }

    /** Cancel from the front until `excess` records would be freed. */
    method CancelFront(excess: int)
      requires LogsSeen(logs, seen)
      modifies this`logs, this`trns
      ensures var n := CancelSpan(old(logs), seen, excess);
              logs == CancelLogs(old(logs), n) && trns == CancelTrns(old(trns), old(logs)[..n])
    {
      var left, k := excess, 0;
      ghost var logs0, trns0 := logs, trns;
      assert logs0[0..] == logs0;
      while k < |logs| && left > 0
        invariant k <= |logs0|
        invariant CancelSpan(logs0, seen, excess) == k + CancelSpan(logs0[k..], seen, left)
        invariant logs == CancelLogs(logs0, k) && trns == CancelTrns(trns0, logs0[..k])
        decreases |logs0| - k
      {
        SpanOneMore(logs0, seen, left, k);
        var log := logs[k];
        if log.clients > 0 && !log.cancelled {
          CancelClients(log.id);
          logs := logs[k := log.(cancelled := true)];
        }
        left := left - seen[log.id].nrecs;
        CancelOneMore(trns0, trns, logs0, k);
        assert logs == CancelLogs(logs0, k + 1);
        k := k + 1;
      }
    }

    method Collect()
      requires Valid()
      modifies this
      ensures Valid() && State() == old(State()).Collect()
    {
      ghost var before := State();
      FreeUnneeded();
      CollectKeepsOk(before);
    }

    method CancelOver(maxLsns: nat)
      requires LogsSeen(logs, seen)
      modifies this`logs, this`trns
      ensures State() == old(State()).Cancel(maxLsns)
    {
      if maxLsns != 0 && maxLsns < lsns {
        CancelFront(lsns - maxLsns);
      }
    }

    method CancelExcess(maxLsns: nat)
      requires Valid()
      modifies this
      ensures Valid() && State() == old(State()).Cancel(maxLsns)
    {
      CancelKeepsOk(State(), maxLsns);
      CancelOver(maxLsns);
    }

    /** The garbage collection after an insert. */
    method CleanUp(maxLsns: nat)
      requires Valid()
      modifies this
      ensures Valid() && State() == old(State()).Collect().Cancel(maxLsns)
    {
      Collect();
      CancelExcess(maxLsns);
    }

    /** First half of unregistering: off the list. */
    method Unlink(i: nat)
      requires Valid() && i < |trns|
      modifies this
      ensures Valid() && State() == old(State()).Unlink(i)
    {
      UnlinkKeepsOk(State(), i);
      leaving := leaving + [trns[i].(until := Some(|seen|))];
      trns := trns[..i] + trns[i + 1..];
    }

    method FindLog(id: LogId) returns (j: nat)
      requires HasLog(logs, id)
      ensures j < |logs| && logs[j].id == id
    {
      j := 0;
      while logs[j].id != id
        invariant j < |logs| && forall k :: 0 <= k < j ==> logs[k].id != id
        decreases |logs| - j
      {
        j := j + 1;
      }
    }

    /** Walk from the first log to the last registered one, giving back a count on each log that needed
        undo. The walk never runs off the list and never takes a count below zero. */
    method GiveBack(t: Trn)
      requires LogsSeen(logs, seen) && t.first.Some? && t.lastReg.Some?
      requires forall a, b :: 0 <= a < b < |logs| ==> logs[a].id < logs[b].id
      requires HasLog(logs, t.first.value) && HasLog(logs, t.lastReg.value) && t.first.value <= t.lastReg.value
      requires forall j :: 0 <= j < |logs| && Releases(t, logs[j], seen) ==> logs[j].clients > 0
      modifies this`logs
      ensures logs == Unregister(old(logs), seen, t)
    {
      ghost var goal, logs0 := Unregister(logs, seen, t), logs;
      var j := FindLog(t.first.value);
      ghost var start := j;
      ghost var end := PositionOf(logs, t.lastReg.value);
      while true
        invariant start <= j <= end < |logs| == |logs0|
        invariant forall k :: 0 <= k < start || j <= k < |logs| ==> logs[k] == logs0[k]
        invariant forall k :: start <= k < j ==> logs[k] == goal[k]
        decreases end - j
      {
        if UndoRequired(t, seen[logs[j].id]) {
          assert logs[j].clients > 0;
          logs := logs[j := logs[j].(clients := logs[j].clients - 1)];
        }
        if logs[j].id == t.lastReg.value {
          break;
        }
        j := j + 1;
      }
      assert logs == goal;
    }

    method TakeOff(i: nat)
      requires i < |leaving| && LogsSeen(logs, seen) && CanGiveBack(logs, seen, leaving[i])
      modifies this`logs, this`leaving
      ensures State() == old(State()).Release(i)
    {
      if leaving[i].first.Some? {
        GiveBack(leaving[i]);
      }
      assert logs == old(State()).Release(i).logs;
      leaving := leaving[..i] + leaving[i + 1..];
    }

    /** Second half of unregistering. */
    method Release(i: nat)
      requires Valid() && i < |leaving|
      modifies this
      ensures Valid() && State() == old(State()).Release(i)
    {
      ReleaseIsSafe(State(), i);
      ReleaseKeepsOk(State(), i);
      TakeOff(i);
    }

    method GetLwm() returns (lsn: Lsn)
      ensures lsn == Lwm(trns)
      ensures LowerBound(lsn, trns) && forall x :: LowerBound(x, trns) ==> x.AtMost(lsn)
    {
      lsn := NO_LWM;
      for i := 0 to |trns|
        invariant lsn == Lwm(trns[..i])
      {
        assert trns[..i + 1][..i] == trns[..i];
        if !trns[i].cancelled && trns[i].birth.Before(lsn) {
          lsn := trns[i].birth;
        }
      }
      assert trns[..|trns|] == trns;
      forall x ensures LowerBound(lsn, trns) && (LowerBound(x, trns) ==> x.AtMost(lsn)) {
        LwmIsGreatestLowerBound(trns, x);
      }
    }

    method AsofOkToDelete(logfile: nat) returns (ok: bool)
      ensures ok <==> forall i :: 0 <= i < |trns| && ValidAsof(trns[i].asof) ==> trns[i].asof.file > logfile
    {
      var oldest := NO_ASOF;
      for i := 0 to |trns|
        invariant oldest == OldestAsof(trns[..i])
      {
        assert trns[..i + 1][..i] == trns[..i];
        if ValidAsof(trns[i].asof) {
          if oldest.file == 0 {
            oldest := trns[i].asof;
          } else if trns[i].asof.Before(oldest) {
            oldest := trns[i].asof;
          }
        }
      }
      assert trns[..|trns|] == trns;
      AsofAllowsExactly(trns, logfile);
      ok := true;
      if ValidAsof(oldest) {
        if oldest.file <= logfile {
          ok := false;
        }
      }
    }
  }

  lemma LogsAscend(r: Repo)
    requires KeptOk(r)
    ensures forall a, b :: 0 <= a < b < |r.logs| ==> r.logs[a].id < r.logs[b].id
  {
    var n := |r.kept| - |r.logs|;
    forall a, b | 0 <= a < b < |r.logs| ensures r.logs[a].id < r.logs[b].id {
      assert r.kept[n..][a] == Ids(r.logs)[a] && r.kept[n..][b] == Ids(r.logs)[b];
      assert r.kept[n + a] < r.kept[n + b];
    }
  }

  /** The walk that gives back the counts of `t` stays in the list and finds a count wherever it takes one. */
  predicate CanGiveBack(logs: seq<Log>, seen: seq<LogInfo>, t: Trn)
    requires LogsSeen(logs, seen)
  {
    && (t.first.Some? <==> t.lastReg.Some?)
    && (t.first.Some? ==> HasLog(logs, t.first.value) && HasLog(logs, t.lastReg.value)
                          && t.first.value <= t.lastReg.value)
    && (forall j :: 0 <= j < |logs| && Releases(t, logs[j], seen) ==> logs[j].clients > 0)
    && forall a, b :: 0 <= a < b < |logs| ==> logs[a].id < logs[b].id
  }

  lemma ReleaseIsSafe(r: Repo, i: nat)
    requires RepoOk(r) && i < |r.leaving|
    ensures CanGiveBack(r.logs, r.seen, r.leaving[i])
  {
    var t := r.leaving[i];
    LogsAscend(r);
    assert HolderOk(r.leaving, i, r.logs, r.seen);
    forall j | 0 <= j < |r.logs| && Releases(t, r.logs[j], r.seen) ensures r.logs[j].clients > 0 {
      assert CountOk(r, j);
      ReleasesWhatItNeeds(t, r.logs[j], r.seen);
      CountPositive(r.leaving, r.logs[j].id, r.seen);
    }
  }

  lemma SpanOneMore(logs: seq<Log>, seen: seq<LogInfo>, left: int, k: nat)
    requires LogsSeen(logs, seen) && k < |logs| && left > 0
    ensures CancelSpan(logs[k..], seen, left) == 1 + CancelSpan(logs[k + 1..], seen, left - seen[logs[k].id].nrecs)
  {
    assert logs[k..][1..] == logs[k + 1..];
  }

  lemma CancelsOneMore(t: Trn, logs: seq<Log>, k: nat)
    requires k < |logs|
    ensures CancelTrn(t, logs[..k + 1]) ==
            if CancelsAt(logs[k]) && t.first == Some(logs[k].id) then CancelTrn(t, logs[..k]).(cancelled := true)
            else CancelTrn(t, logs[..k])
  {
    if CancelsTrn(t, logs[..k]) {
      var j :| 0 <= j < k && CancelsAt(logs[..k][j]) && t.first == Some(logs[..k][j].id);
      assert logs[..k + 1][j] == logs[..k][j];
    }
    if CancelsAt(logs[k]) && t.first == Some(logs[k].id) {
      assert logs[..k + 1][k] == logs[k];
    }
    if CancelsTrn(t, logs[..k + 1]) {
      var j :| 0 <= j <= k && CancelsAt(logs[..k + 1][j]) && t.first == Some(logs[..k + 1][j].id);
      assert j < k ==> logs[..k][j] == logs[..k + 1][j];
    }
  }

  /** What looking at log `k` does to the transactions. */
  lemma CancelOneMore(ts: seq<Trn>, us: seq<Trn>, logs: seq<Log>, k: nat)
    requires k < |logs| && |us| == |ts|
    requires forall j :: 0 <= j < |ts| ==>
               us[j] == var t := CancelTrn(ts[j], logs[..k]);
                        if CancelsAt(logs[k]) && t.first == Some(logs[k].id) then t.(cancelled := true) else t
    ensures us == CancelTrns(ts, logs[..k + 1])
  {
    forall j | 0 <= j < |ts| ensures us[j] == CancelTrn(ts[j], logs[..k + 1]) {
      CancelsOneMore(ts[j], logs, k);
    }
  }
}
