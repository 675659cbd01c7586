/**
 The repositories behind serializable transactions: the list of committed undo logs and the list of
 registered transactions that may have to apply them. Each log counts the transactions that still need
 it; logs are freed from the front of the list once nobody does.

 Logs are named by the order in which they were inserted, so "earlier" is a smaller number.
 */
module OsqlRepository {
  import opened Lsns

  type LogId = nat

  /** The fixed part of an undo log. Genid 0 means "none". */
  datatype LogInfo = LogInfo(oldestGenid: nat, commitGenid: nat, nrecs: nat)

  /** A log in the list. */
  datatype Log = Log(id: LogId, clients: nat, cancelled: bool)

  /** A registered transaction. `since` and `until` bound the logs inserted while it was in the list;
      they are history, not read by the code. */
  datatype Trn = Trn(
    id: nat, startGenid: nat, birth: Lsn, asof: Lsn,
    first: Option<LogId>, lastReg: Option<LogId>, cancelled: bool,
    since: LogId, until: Option<LogId>)

  /** `bdb_osql_log_undo_required`. */
  predicate UndoRequired(t: Trn, log: LogInfo) {
    t.startGenid == 0 ||
    (t.startGenid > log.oldestGenid && (log.commitGenid == 0 || t.startGenid < log.commitGenid))
  }

  /** `seen` is every log ever inserted, `kept` the ones that had a client when they were, both oldest
      first. `leaving` holds transactions taken off the list whose counts are not yet released;
      `abandoned` holds those dropped by a failed registration, whose counts never will be. */
  datatype Repo = Repo(
    seen: seq<LogInfo>, kept: seq<LogId>, logs: seq<Log>, lsns: int,
    trns: seq<Trn>, leaving: seq<Trn>, abandoned: seq<Trn>, nextTrn: nat)
  {
    function Register(startGenid: nat, birth: Lsn, asof: Lsn): Repo {
      this.(trns := trns + [Trn(nextTrn, startGenid, birth, asof, None, None, false, |seen|, None)],
            nextTrn := nextTrn + 1)
    }

    function Insert(log: LogInfo): Repo {
      Linked(log, CountUndo(trns, log), MarkAll(trns, |seen|, log))
    }

    /** A log without clients is not kept in the list. */
    function Linked(log: LogInfo, clients: nat, marked: seq<Trn>): Repo {
      if clients == 0 then this.(seen := seen + [log], trns := marked)
      else this.(seen := seen + [log], trns := marked, kept := kept + [|seen|],
                 logs := logs + [Log(|seen|, clients, false)], lsns := lsns + log.nrecs)
    }

    /** First pass of the clean-up after an insert: free what nobody needs, from the front. */
    function Collect(): (r: Repo)
      requires LogsSeen(logs, seen)
      ensures LogsSeen(r.logs, r.seen)
    {
      var n := DeadPrefix(logs);
      this.(logs := logs[n..], lsns := lsns - SumRecs(logs[..n], seen))
    }

    /** Second pass: over the limit, cancel the transactions whose first log is at the front. */
    function Cancel(maxLsns: nat): Repo
      requires LogsSeen(logs, seen)
    {
      if maxLsns == 0 || lsns <= maxLsns then this
      else var n := CancelSpan(logs, seen, lsns - maxLsns);
           this.(logs := CancelLogs(logs, n), trns := CancelTrns(trns, logs[..n]))
    }

    function Unlink(i: nat): Repo
      requires i < |trns|
    {
      this.(trns := trns[..i] + trns[i + 1..], leaving := leaving + [trns[i].(until := Some(|seen|))])
    }

    /** Give back the counts of a transaction that left. */
    function Release(i: nat): Repo
      requires i < |leaving| && LogsSeen(logs, seen)
    {
      this.(logs := Unregister(logs, seen, leaving[i]), leaving := leaving[..i] + leaving[i + 1..])
    }

    /** The backfill of a new transaction failed: it is taken off the list and freed, nothing more. */
    function Abandon(i: nat): Repo
      requires i < |trns|
    {
      this.(trns := trns[..i] + trns[i + 1..], abandoned := abandoned + [trns[i].(until := Some(|seen|))])
    }
  }

  function FreshRepo(): Repo { Repo([], [], [], 0, [], [], [], 0) }

  predicate LogsSeen(logs: seq<Log>, seen: seq<LogInfo>) {
    forall i :: 0 <= i < |logs| ==> logs[i].id < |seen|
  }

  function CountUndo(ts: seq<Trn>, log: LogInfo): nat {
    if ts == [] then 0
    else CountUndo(ts[..|ts| - 1], log) + if UndoRequired(ts[|ts| - 1], log) then 1 else 0
  }

  function Mark(t: Trn, id: LogId, log: LogInfo): Trn {
    if UndoRequired(t, log) then t.(first := if t.first.None? then Some(id) else t.first, lastReg := Some(id)) else t
  }

  function MarkAll(ts: seq<Trn>, id: LogId, log: LogInfo): (r: seq<Trn>)
    ensures |r| == |ts| && forall i :: 0 <= i < |ts| ==> r[i] == Mark(ts[i], id, log)
  {
    seq(|ts|, i requires 0 <= i < |ts| => Mark(ts[i], id, log))
  }

  function SumRecs(logs: seq<Log>, seen: seq<LogInfo>): nat
    requires LogsSeen(logs, seen)
  {
    if logs == [] then 0 else SumRecs(logs[..|logs| - 1], seen) + seen[logs[|logs| - 1].id].nrecs
  }

  function DeadPrefix(logs: seq<Log>): (n: nat)
    ensures n <= |logs|
    ensures forall i :: 0 <= i < n ==> logs[i].clients == 0
    ensures n < |logs| ==> logs[n].clients > 0
  {
    if logs == [] || logs[0].clients > 0 then 0 else 1 + DeadPrefix(logs[1..])
  }

  /** How many logs the cancelling pass looks at before it has freed `excess` records. */
  function CancelSpan(logs: seq<Log>, seen: seq<LogInfo>, excess: int): (n: nat)
    requires LogsSeen(logs, seen)
    ensures n <= |logs|
  {
    if excess <= 0 || logs == [] then 0 else 1 + CancelSpan(logs[1..], seen, excess - seen[logs[0].id].nrecs)
  }

  predicate CancelsAt(log: Log) { log.clients > 0 && !log.cancelled }

  function CancelLogs(logs: seq<Log>, n: nat): (r: seq<Log>)
    requires n <= |logs|
    ensures |r| == |logs|
    ensures forall i :: 0 <= i < |logs| ==>
              r[i] == if i < n && CancelsAt(logs[i]) then logs[i].(cancelled := true) else logs[i]
  {
    seq(|logs|, i requires 0 <= i < |logs| =>
      if i < n && CancelsAt(logs[i]) then logs[i].(cancelled := true) else logs[i])
  }

  predicate CancelsTrn(t: Trn, logs: seq<Log>) {
    exists j :: 0 <= j < |logs| && CancelsAt(logs[j]) && t.first == Some(logs[j].id)
  }

  function CancelTrn(t: Trn, logs: seq<Log>): Trn {
    if CancelsTrn(t, logs) then t.(cancelled := true) else t
  }

  function CancelTrns(ts: seq<Trn>, logs: seq<Log>): (r: seq<Trn>)
    ensures |r| == |ts| && forall i :: 0 <= i < |ts| ==> r[i] == CancelTrn(ts[i], logs)
  {
    seq(|ts|, i requires 0 <= i < |ts| => CancelTrn(ts[i], logs))
  }

  /** The logs from `first` to `lastReg` that need undo lose a client. */
  predicate Releases(t: Trn, log: Log, seen: seq<LogInfo>)
    requires log.id < |seen|
  {
    t.first.Some? && t.lastReg.Some? && t.first.value <= log.id <= t.lastReg.value && UndoRequired(t, seen[log.id])
  }

  function Unregister(logs: seq<Log>, seen: seq<LogInfo>, t: Trn): (r: seq<Log>)
    requires LogsSeen(logs, seen)
    ensures |r| == |logs|
    ensures forall i :: 0 <= i < |logs| ==>
              r[i] == if Releases(t, logs[i], seen) && logs[i].clients > 0
                      then logs[i].(clients := logs[i].clients - 1) else logs[i]
  {
    seq(|logs|, i requires 0 <= i < |logs| =>
      if Releases(t, logs[i], seen) && logs[i].clients > 0
      then logs[i].(clients := logs[i].clients - 1) else logs[i])
  }

  // ----- What every step keeps -----

  /** `t` was in the list when the log was inserted, and the log touches rows it must see unchanged. */
  predicate Needs(t: Trn, id: LogId, seen: seq<LogInfo>)
    requires id < |seen|
  {
    t.since <= id && (t.until.Some? ==> id < t.until.value) && UndoRequired(t, seen[id])
  }

  function Count(ts: seq<Trn>, id: LogId, seen: seq<LogInfo>): nat
    requires id < |seen|
  {
    if ts == [] then 0
    else Count(ts[..|ts| - 1], id, seen) + if Needs(ts[|ts| - 1], id, seen) then 1 else 0
  }

  /** `first` and `lastReg` are the earliest and the latest log the transaction needs. */
  predicate SpanOk(t: Trn, seen: seq<LogInfo>) {
    && t.since <= |seen|
    && (t.first.None? <==> t.lastReg.None?)
    && (forall id :: 0 <= id < |seen| && Needs(t, id, seen) ==>
          t.first.Some? && t.first.value <= id <= t.lastReg.value)
    && (t.first.Some? ==> t.first.value < |seen| && Needs(t, t.first.value, seen))
    && (t.lastReg.Some? ==> t.lastReg.value < |seen| && Needs(t, t.lastReg.value, seen))
  }

  predicate Ascending(ids: seq<LogId>) {
    forall i, j :: 0 <= i < j < |ids| ==> ids[i] < ids[j]
  }

  function Ids(logs: seq<Log>): (r: seq<LogId>)
    ensures |r| == |logs| && forall i :: 0 <= i < |logs| ==> r[i] == logs[i].id
  {
    seq(|logs|, i requires 0 <= i < |logs| => logs[i].id)
  }

  /** The list is what is left of `kept` after freeing from the front. */
  predicate KeptOk(r: Repo) {
    && Ascending(r.kept)
    && (forall i :: 0 <= i < |r.kept| ==> r.kept[i] < |r.seen|)
    && |r.logs| <= |r.kept|
    && r.kept[|r.kept| - |r.logs|..] == Ids(r.logs)
  }

  predicate HasLog(logs: seq<Log>, id: LogId) {
    exists i :: 0 <= i < |logs| && logs[i].id == id
  }

  /** Every log the transaction needs is still in the list. */
  predicate NeedsPresent(t: Trn, logs: seq<Log>, seen: seq<LogInfo>) {
    forall id :: 0 <= id < |seen| && Needs(t, id, seen) ==> HasLog(logs, id)
  }

  predicate HolderOk(ts: seq<Trn>, i: nat, logs: seq<Log>, seen: seq<LogInfo>)
    requires i < |ts|
  {
    SpanOk(ts[i], seen) && NeedsPresent(ts[i], logs, seen)
  }

  predicate HoldersOk(ts: seq<Trn>, logs: seq<Log>, seen: seq<LogInfo>) {
    forall i: nat :: i < |ts| ==> HolderOk(ts, i, logs, seen)
  }

  /** How many transactions hold a count on the log. */
  function Holding(r: Repo, id: LogId): nat
    requires id < |r.seen|
  {
    Count(r.trns, id, r.seen) + Count(r.leaving, id, r.seen) + Count(r.abandoned, id, r.seen)
  }

  predicate CountOk(r: Repo, i: nat)
    requires LogsSeen(r.logs, r.seen) && i < |r.logs|
  {
    r.logs[i].clients == Holding(r, r.logs[i].id)
  }

  /** Every log's client count is the number of transactions that hold it. */
  predicate CountsOk(r: Repo)
    requires LogsSeen(r.logs, r.seen)
  {
    forall i: nat :: i < |r.logs| ==> CountOk(r, i)
  }

  predicate TrnsOk(ts: seq<Trn>, nextTrn: nat) {
    && (forall i :: 0 <= i < |ts| ==> ts[i].until.None? && ts[i].id < nextTrn)
    && (forall i, j :: 0 <= i < j < |ts| ==> ts[i].id < ts[j].id)
  }

  predicate Gone(ts: seq<Trn>, seen: seq<LogInfo>) {
    forall i :: 0 <= i < |ts| ==> ts[i].until.Some? && ts[i].until.value <= |seen|
  }

  predicate RepoOk(r: Repo) {
    && KeptOk(r) && LogsSeen(r.logs, r.seen) && CountsOk(r)
    && HoldersOk(r.trns, r.logs, r.seen)
    && HoldersOk(r.leaving, r.logs, r.seen)
    && HoldersOk(r.abandoned, r.logs, r.seen)
    && TrnsOk(r.trns, r.nextTrn) && Gone(r.leaving, r.seen) && Gone(r.abandoned, r.seen)
    && r.lsns == SumRecs(r.logs, r.seen)
  }
}
