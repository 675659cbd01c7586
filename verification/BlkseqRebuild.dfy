/**
 Startup rebuild of the replay-detection table: one extra pass that walks the log backwards from its end,
 follows each commit record's chain to its blkseq record, and stores what it finds until it meets a
 blkseq that is too old.
 */
module BlkseqRebuild {
  import opened Lsns
  import opened BlkseqStripe
  import opened BlkseqTable
  import BlkseqRuns

  /** `Commit` stands for all the commit record types, which are handled alike. */
  datatype Kind =
    | Commit
    | DistAbort
    | DistPrepare(blkseqKey: Key)
    | LtranCommit
    | Child
    | Blkseq(time: int, key: Key, data: Response)
    | Other

  /** `full` says that the record is longer than a bare type, transaction id and LSN. */
  datatype LogRec = LogRec(lsn: Lsn, prev: Lsn, kind: Kind, full: bool)

  datatype Stored = Stored(time: int, key: Key, data: Response)

  predicate Ordered(log: seq<LogRec>) {
    && (forall i, j :: 0 <= i < j < |log| ==> log[i].lsn.Before(log[j].lsn))
    && (forall i :: 0 <= i < |log| ==> log[i].prev.Before(log[i].lsn))
  }

  /** Where the record with this LSN is. */
  function At(log: seq<LogRec>, lsn: Lsn): (r: Option<nat>)
    ensures r.Some? ==> r.value < |log| && log[r.value].lsn == lsn
    ensures r.None? ==> forall i :: 0 <= i < |log| ==> log[i].lsn != lsn
  {
    if log == [] then None
    else if log[|log| - 1].lsn == lsn then Some(|log| - 1)
    else At(log[..|log| - 1], lsn)
  }

  function PrevOf(log: seq<LogRec>, i: nat): (r: Option<nat>)
    requires Ordered(log) && i < |log|
    ensures r.Some? ==> r.value < i
  {
    At(log, log[i].prev)
  }

  /** Past the child commits; `None` when the chain breaks off. */
  function SkipChildren(log: seq<LogRec>, i: nat): (r: Option<nat>)
    requires Ordered(log) && i < |log|
    ensures r.Some? ==> r.value <= i && log[r.value].kind != Child
  {
    if log[i].kind != Child then Some(i)
    else match PrevOf(log, i)
      case None => None
      case Some(j) => SkipChildren(log, j)
  }

  function SkipPrepare(log: seq<LogRec>, i: nat): (r: Option<nat>)
    requires Ordered(log) && i < |log|
    ensures r.Some? ==> r.value <= i
  {
    if log[i].kind.DistPrepare? then PrevOf(log, i) else Some(i)
  }

  function SkipLtran(log: seq<LogRec>, i: nat): (r: Option<nat>)
    requires Ordered(log) && i < |log|
    ensures r.Some? ==> r.value <= i
  {
    if log[i].kind != LtranCommit then Some(i)
    else if log[i].prev == ZERO_LSN then None
    else PrevOf(log, i)
  }

  function AfterLtran(log: seq<LogRec>, i: nat): (r: Option<nat>)
    requires Ordered(log) && i < |log|
    ensures r.Some? ==> r.value <= i
  {
    match SkipLtran(log, i)
    case None => None
    case Some(c) => SkipChildren(log, c)
  }

  function AfterPrepare(log: seq<LogRec>, i: nat): (r: Option<nat>)
    requires Ordered(log) && i < |log|
    ensures r.Some? ==> r.value <= i
  {
    match SkipPrepare(log, i)
    case None => None
    case Some(b) => AfterLtran(log, b)
  }

  /** Where a commit record's chain leads, if it does not break off. */
  function ChainEnd(log: seq<LogRec>, i: nat): (r: Option<nat>)
    requires Ordered(log) && i < |log|
    ensures r.Some? ==> r.value < i
  {
    match PrevOf(log, i)
    case None => None
    case Some(a) => AfterPrepare(log, a)
  }

  /** The blkseq a commit record leads to, if any. */
  function Resolve(log: seq<LogRec>, i: nat): Option<Stored>
    requires Ordered(log) && i < |log|
  {
    match ChainEnd(log, i)
    case None => None
    case Some(e) =>
      if log[e].kind.Blkseq? then Some(Stored(log[e].kind.time, log[e].kind.key, log[e].kind.data)) else None
  }

  /** What one log record means for the rebuild: nothing, a committed blkseq, or an aborted distributed
      transaction whose lookup leaves the cursor on record `to`. */
  datatype Entry = Quiet | Answer(b: Stored) | Jump(to: nat, key: Option<Key>)

  function EntryOf(log: seq<LogRec>, i: nat): (e: Entry)
    requires Ordered(log) && i < |log|
    ensures e.Jump? ==> e.to < i
  {
    if !log[i].full then Quiet
    else if log[i].kind == Commit then
      match Resolve(log, i)
      case None => Quiet
      case Some(b) => Answer(b)
    else if log[i].kind == DistAbort then
      match PrevOf(log, i)
      case None => Quiet
      case Some(q) => Jump(q, if log[q].kind.DistPrepare? then Some(log[q].kind.blkseqKey) else None)
    else Quiet
  }

  predicate EntriesOk(es: seq<Entry>) {
    forall i :: 0 <= i < |es| ==> es[i].Jump? ==> es[i].to < i
  }

  function Entries(log: seq<LogRec>): (es: seq<Entry>)
    requires Ordered(log)
    ensures |es| == |log| && EntriesOk(es)
    ensures forall i :: 0 <= i < |log| ==> es[i] == EntryOf(log, i)
  {
    seq(|log|, i requires 0 <= i < |log| => EntryOf(log, i))
  }

  datatype Clock = Clock(now: int, maxage: int)

  predicate Stale(e: Entry, clock: Clock) {
    e.Answer? && clock.now - e.b.time > clock.maxage
  }

  /** Where the cursor stands after the entry at `p` and one step back. */
  function NextPos(es: seq<Entry>, p: nat): (q: int)
    requires EntriesOk(es) && p < |es|
    ensures -1 <= q < p
  {
    if es[p].Jump? then es[p].to - 1 else p - 1
  }

  /** What an entry does to the table: a commit adds if absent, an abort overwrites. */
  function Visit(e: Entry, abort: Response, m: Tree): Tree {
    match e
    case Quiet => m
    case Answer(b) => if b.key in m then m else m[b.key := b.data]
    case Jump(_, key) => if key.Some? then m[key.value := abort] else m
  }

  /** The whole walk from position `p` down, as the code does it. */
  function Walk(es: seq<Entry>, p: int, clock: Clock, abort: Response, m: Tree): Tree
    requires EntriesOk(es) && -1 <= p < |es|
    decreases p + 1
  {
    if p < 0 || Stale(es[p], clock) then m
    else Walk(es, NextPos(es, p), clock, abort, Visit(es[p], abort, m))
  }

  // ----- The cursor walk, in place -----

  class LogCursor {
    const log: seq<LogRec>
    var pos: int

    constructor (log: seq<LogRec>)
      ensures this.log == log && pos == -1
    {
      this.log := log;
      pos := -1;
    }

    method Last() returns (ok: bool)
      modifies this
      ensures ok <==> |log| > 0
      ensures pos == if ok then |log| - 1 else old(pos)
    {
      ok := |log| > 0;
      if ok { pos := |log| - 1; }
    }

    /** On failure the cursor stays where it was. */
    method Set(lsn: Lsn) returns (ok: bool)
      modifies this
      ensures ok <==> At(log, lsn).Some?
      ensures pos == if ok then At(log, lsn).value else old(pos)
    {
      var r := At(log, lsn);
      ok := r.Some?;
      if ok { pos := r.value; }
    }

    method Prev() returns (ok: bool)
      modifies this
      ensures ok <==> old(pos) > 0
      ensures pos == if ok then old(pos) - 1 else old(pos)
    {
      ok := pos > 0;
      if ok { pos := pos - 1; }
    }

    /** Follow the commit record under the cursor to its blkseq. The cursor ends up wherever the chain
        led; each link leads to an earlier record. */
    method ResolveHere() returns (r: Option<Stored>)
      requires Ordered(log) && 0 <= pos < |log|
      modifies this
      ensures r == Resolve(log, old(pos))
    {
      ghost var start := pos;
      var ok := Set(log[pos].prev);
      if !ok { return None; }
      if log[pos].kind.DistPrepare? {
        ok := Set(log[pos].prev);
        if !ok { return None; }
      }
      if log[pos].kind == LtranCommit {
        if log[pos].prev == ZERO_LSN { return None; }
        ok := Set(log[pos].prev);
        if !ok { return None; }
      }
      while log[pos].kind == Child
        invariant 0 <= pos < |log|
        invariant PrevOf(log, start).Some?
        invariant SkipPrepare(log, PrevOf(log, start).value).Some?
        invariant SkipLtran(log, SkipPrepare(log, PrevOf(log, start).value).value).Some?
        invariant SkipChildren(log, SkipLtran(log, SkipPrepare(log, PrevOf(log, start).value).value).value)
                  == SkipChildren(log, pos)
        decreases pos
      {
        ok := Set(log[pos].prev);
        if !ok { return None; }
      }
      var kind := log[pos].kind;
      r := if kind.Blkseq? then Some(Stored(kind.time, kind.key, kind.data)) else None;
    }
  }

  /** A non-transactional insert, as the rebuild makes them. */
  method Add(t: Table, k: Key, d: Response, now: int, overwrite: bool)
    requires t.Valid() && t.enabled
    modifies t.stripes
    ensures t.Valid()
    ensures Contents(t.States()) == var m := old(Contents(t.States())); if k in m && !overwrite then m else m[k := d]
  {
    var _ := t.Insert(k, d, now, None, overwrite);
  }

  /** A commit record: store its blkseq unless that is too old, and return the cursor to the commit. */
  method CommitHere(t: Table, cursor: LogCursor, now: int) returns (stop: bool)
    requires t.Valid() && t.enabled && Ordered(cursor.log) && 0 <= cursor.pos < |cursor.log|
    requires cursor.log[cursor.pos].full && cursor.log[cursor.pos].kind == Commit
    modifies t.stripes, cursor
    ensures t.Valid()
    ensures stop <==> Stale(EntryOf(cursor.log, old(cursor.pos)), Clock(now, t.maxage))
    ensures Contents(t.States()) ==
            if stop then old(Contents(t.States()))
            else Visit(EntryOf(cursor.log, old(cursor.pos)), [], old(Contents(t.States())))
    ensures !stop ==> cursor.pos == old(cursor.pos)
  {
    var commitLsn := cursor.log[cursor.pos].lsn;
    UniquePosition(cursor.log, cursor.pos);
    var found := cursor.ResolveHere();
    if found.Some? {
      if now - found.value.time > t.maxage {
        return true;
      }
      Add(t, found.value.key, found.value.data, now, false);
    }
    var _ := cursor.Set(commitLsn);
    return false;
  }

  /** A distributed abort record: record the abort for the prepared key. The cursor is not returned. */
  method DistAbortHere(t: Table, cursor: LogCursor, now: int, abort: Response)
    requires t.Valid() && t.enabled && Ordered(cursor.log) && 0 <= cursor.pos < |cursor.log|
    requires cursor.log[cursor.pos].full && cursor.log[cursor.pos].kind == DistAbort
    modifies t.stripes, cursor
    ensures t.Valid()
    ensures Contents(t.States()) == Visit(EntryOf(cursor.log, old(cursor.pos)), abort, old(Contents(t.States())))
    ensures cursor.pos == var e := EntryOf(cursor.log, old(cursor.pos)); if e.Jump? then e.to else old(cursor.pos)
  {
    var ok := cursor.Set(cursor.log[cursor.pos].prev);
    if ok && cursor.log[cursor.pos].kind.DistPrepare? {
      Add(t, cursor.log[cursor.pos].kind.blkseqKey, abort, now, true);
    }
  }

  /** Handle the record under the cursor; `stop` when its blkseq is too old. Otherwise the cursor is left
      where the next step back has to start from. */
  method VisitHere(t: Table, cursor: LogCursor, now: int, abort: Response) returns (stop: bool)
    requires t.Valid() && t.enabled && Ordered(cursor.log) && 0 <= cursor.pos < |cursor.log|
    modifies t.stripes, cursor
    ensures t.Valid()
    ensures stop <==> Stale(EntryOf(cursor.log, old(cursor.pos)), Clock(now, t.maxage))
    ensures Contents(t.States()) ==
            if stop then old(Contents(t.States()))
            else Visit(EntryOf(cursor.log, old(cursor.pos)), abort, old(Contents(t.States())))
    ensures !stop ==> cursor.pos - 1 == NextPos(Entries(cursor.log), old(cursor.pos))
  {
    var here := cursor.log[cursor.pos];
    stop := false;
    if here.full && here.kind == DistAbort {
      DistAbortHere(t, cursor, now, abort);
    } else if here.full && here.kind == Commit {
      stop := CommitHere(t, cursor, now);
    }
  }

  lemma WalkHere(log: seq<LogRec>, p: nat, clock: Clock, abort: Response, m: Tree)
    requires Ordered(log) && p < |log|
    ensures var es := Entries(log);
            && -1 <= NextPos(es, p) < p
            && Walk(es, p, clock, abort, m) ==
               if Stale(EntryOf(log, p), clock) then m
               else Walk(es, NextPos(es, p), clock, abort, Visit(EntryOf(log, p), abort, m))
  {
    assert Entries(log)[p] == EntryOf(log, p);
  }

  /** `abort` is the response recorded for a distributed transaction that was aborted. */
  method Recover(t: Table, log: seq<LogRec>, now: int, abort: Response)
    requires t.Valid() && t.enabled && Ordered(log)
    modifies t.stripes
    ensures t.Valid()
    ensures Contents(t.States())
            == Walk(Entries(log), |log| - 1, Clock(now, t.maxage), abort, old(Contents(t.States())))
  {
    var cursor := new LogCursor(log);
    var more := cursor.Last();
    ghost var es, clock := Entries(log), Clock(now, t.maxage);
    ghost var goal := Walk(es, |log| - 1, clock, abort, Contents(t.States()));
    while more
      invariant t.Valid() && cursor.log == log
      invariant more ==> 0 <= cursor.pos < |log|
      invariant goal == Walk(es, if more then cursor.pos else -1, clock, abort, Contents(t.States()))
      decreases if more then cursor.pos + 1 else 0
    {
      more := StepBack(t, cursor, now, abort);
    }
  }

  /** Handle the record under the cursor and go on to the next one, unless the walk ends here. */
  method StepBack(t: Table, cursor: LogCursor, now: int, abort: Response) returns (more: bool)
    requires t.Valid() && t.enabled && Ordered(cursor.log) && 0 <= cursor.pos < |cursor.log|
    modifies t.stripes, cursor
    ensures t.Valid()
    ensures more ==> 0 <= cursor.pos < old(cursor.pos)
    ensures var es, clock := Entries(cursor.log), Clock(now, t.maxage);
            Walk(es, if more then cursor.pos else -1, clock, abort, Contents(t.States())) ==
            Walk(es, old(cursor.pos), clock, abort, old(Contents(t.States())))
  {
    WalkHere(cursor.log, cursor.pos, Clock(now, t.maxage), abort, Contents(t.States()));
    var stop := VisitHere(t, cursor, now, abort);
    if stop {
      return false;
    }
    more := cursor.Prev();
  }

  lemma UniquePosition(log: seq<LogRec>, p: nat)
    requires Ordered(log) && p < |log|
    ensures At(log, log[p].lsn) == Some(p)
  {
  }

  // ----- The walk is a forward replay of a log suffix -----

  /** No record of an aborted distributed transaction. */
  predicate NoJumps(es: seq<Entry>) {
    forall i :: 0 <= i < |es| ==> !es[i].Jump?
  }

  /** Replay of `es[lo..hi]` forwards, where the last commit of a key wins. */
  function Replay(es: seq<Entry>, lo: nat, hi: nat): Tree
    requires lo <= hi <= |es|
    decreases hi
  {
    if lo == hi then map[]
    else
      var m := Replay(es, lo, hi - 1);
      if es[hi - 1].Answer? then m[es[hi - 1].b.key := es[hi - 1].b.data] else m
  }

  predicate NoneStale(es: seq<Entry>, lo: nat, clock: Clock) {
    forall i :: lo <= i < |es| ==> !Stale(es[i], clock)
  }

  /** Where the walk stops: just after the last stale commit below `n`. */
  function Cut(es: seq<Entry>, n: nat, clock: Clock): (c: nat)
    requires n <= |es|
    ensures c <= n
    ensures forall i :: c <= i < n ==> !Stale(es[i], clock)
    ensures c > 0 ==> Stale(es[c - 1], clock)
  {
    if n == 0 then 0
    else if Stale(es[n - 1], clock) then n
    else Cut(es, n - 1, clock)
  }

  lemma {:induction false} ReplaySplit(es: seq<Entry>, lo: nat, mid: nat, hi: nat)
    requires lo <= mid <= hi <= |es|
    ensures Replay(es, lo, hi) == Replay(es, lo, mid) + Replay(es, mid, hi)
    decreases hi
  {
    if mid < hi {
      ReplaySplit(es, lo, mid, hi - 1);
    } else {
      assert Replay(es, mid, hi) == map[];
    }
  }

  lemma FirstWinsBackwards(es: seq<Entry>, p: nat, abort: Response)
    requires NoJumps(es) && p < |es|
    ensures Replay(es, p, |es|) == Visit(es[p], abort, Replay(es, p + 1, |es|))
  {
    ReplaySplit(es, p, p + 1, |es|);
    assert Replay(es, p, p) == map[];
  }

  lemma {:induction false} WalkIsReplay(es: seq<Entry>, p: int, clock: Clock, abort: Response)
    requires NoJumps(es) && -1 <= p < |es|
    ensures Walk(es, p, clock, abort, Replay(es, p + 1, |es|)) == Replay(es, Cut(es, p + 1, clock), |es|)
    decreases p + 1
  {
    if p >= 0 && !Stale(es[p], clock) {
      FirstWinsBackwards(es, p, abort);
      WalkIsReplay(es, p - 1, clock, abort);
    }
  }

  /**
   Rebuilding from empty tables, backwards with the first insert winning, gives the same map as replaying
   forwards, with the last write winning, the longest log suffix that holds no stale blkseq.
   */
  lemma RebuildIsReplay(es: seq<Entry>, clock: Clock, abort: Response)
    requires NoJumps(es)
    ensures var c := Cut(es, |es|, clock);
            && Walk(es, |es| - 1, clock, abort, map[]) == Replay(es, c, |es|)
            && NoneStale(es, c, clock)
            && forall c': nat :: NoneStale(es, c', clock) ==> c <= c'
  {
    assert Replay(es, |es|, |es|) == map[];
    WalkIsReplay(es, |es| - 1, clock, abort);
    var c := Cut(es, |es|, clock);
    assert c > 0 ==> Stale(es[c - 1], clock);
  }

  // ----- Which records the walk gets to -----

  /** The positions the walk handles, in order, going down from `p`. It ends at the front or at a stale blkseq. */
  function Visits(es: seq<Entry>, p: int, clock: Clock): seq<nat>
    requires EntriesOk(es) && -1 <= p < |es|
    decreases p + 1
  {
    if p < 0 || Stale(es[p], clock) then [] else [p] + Visits(es, NextPos(es, p), clock)
  }

  /** Where it ends: the stale blkseq's position, or -1. */
  function StopAt(es: seq<Entry>, p: int, clock: Clock): (s: int)
    requires EntriesOk(es) && -1 <= p < |es|
    ensures -1 <= s <= p && (s >= 0 ==> Stale(es[s], clock))
    decreases p + 1
  {
    if p < 0 || Stale(es[p], clock) then p else StopAt(es, NextPos(es, p), clock)
  }

  function HandleAll(es: seq<Entry>, ps: seq<nat>, abort: Response, m: Tree): Tree
    requires forall i :: 0 <= i < |ps| ==> ps[i] < |es|
  {
    if ps == [] then m else HandleAll(es, ps[1..], abort, Visit(es[ps[0]], abort, m))
  }

  /** The walk handles exactly these records, each once and from the end of the log to its front. */
  lemma {:induction false} WalkHandlesVisits(es: seq<Entry>, p: int, clock: Clock, abort: Response, m: Tree)
    requires EntriesOk(es) && -1 <= p < |es|
    ensures var ps := Visits(es, p, clock);
            && (forall i :: 0 <= i < |ps| ==> StopAt(es, p, clock) < ps[i] <= p)
            && (forall i, j :: 0 <= i < j < |ps| ==> ps[j] < ps[i])
            && Walk(es, p, clock, abort, m) == HandleAll(es, ps, abort, m)
    decreases p + 1
  {
    if p >= 0 && !Stale(es[p], clock) {
      WalkHandlesVisits(es, NextPos(es, p), clock, abort, Visit(es[p], abort, m));
    }
  }

  predicate Recent(e: Entry, clock: Clock) { e.Answer? && !Stale(e, clock) }

  predicate RecentVisited(es: seq<Entry>, p: int, clock: Clock)
    requires EntriesOk(es) && -1 <= p < |es|
  {
    forall c: nat :: c <= p && Recent(es[c], clock) ==> c in Visits(es, p, clock)
  }

  /** Going back from `r` passes over a recent blkseq. */
  predicate PassesOver(es: seq<Entry>, r: nat, clock: Clock)
    requires EntriesOk(es) && r < |es|
  {
    exists c: nat :: NextPos(es, r) < c < r && Recent(es[c], clock)
  }

  predicate NonePassed(es: seq<Entry>, p: int, clock: Clock)
    requires EntriesOk(es) && -1 <= p < |es|
  {
    forall r: nat :: r <= p && r in Visits(es, p, clock) ==> !PassesOver(es, r, clock)
  }

  predicate NoneBelow(es: seq<Entry>, s: int, clock: Clock) {
    forall c: nat :: c < s && c < |es| ==> !Recent(es[c], clock)
  }

  /**
   Every recent committed blkseq is handled if and only if no handled abort record sends the cursor past one,
   and none lies below the stale blkseq that ends the walk. The commit branch resets the cursor; the abort
   branch does not, so it skips what committed between the aborted transaction's prepare and its abort.
   */
  lemma {:induction false} RebuildCompleteCondition(es: seq<Entry>, p: int, clock: Clock)
    requires EntriesOk(es) && -1 <= p < |es|
    ensures RecentVisited(es, p, clock) <==> NonePassed(es, p, clock) && NoneBelow(es, StopAt(es, p, clock), clock)
    decreases p + 1
  {
    if p >= 0 && !Stale(es[p], clock) {
      var q := NextPos(es, p);
      RebuildCompleteCondition(es, q, clock);
      WalkHandlesVisits(es, q, clock, [], map[]);
      MoreVisits(es, p, clock);
      if RecentVisited(es, p, clock) {
        forall c: nat | q < c < p ensures !Recent(es[c], clock) {
          assert c !in Visits(es, q, clock);
        }
        assert RecentVisited(es, q, clock);
      }
      if NonePassed(es, p, clock) {
        assert NonePassed(es, q, clock);
        assert !PassesOver(es, p, clock);
      }
    }
  }

  lemma MoreVisits(es: seq<Entry>, p: nat, clock: Clock)
    requires EntriesOk(es) && p < |es| && !Stale(es[p], clock)
    ensures forall r :: r in Visits(es, p, clock) <==> r == p || r in Visits(es, NextPos(es, p), clock)
  {
  }

  /** Without abort records the walk handles every record from the end down to the last stale blkseq, each once. */
  lemma {:induction false} QuietWalkVisitsAll(es: seq<Entry>, p: int, clock: Clock)
    requires NoJumps(es) && -1 <= p < |es|
    ensures var c := Cut(es, p + 1, clock);
            Visits(es, p, clock) == seq(p + 1 - c, i => p - i) && StopAt(es, p, clock) == c - 1
    decreases p + 1
  {
    if p >= 0 && !Stale(es[p], clock) {
      QuietWalkVisitsAll(es, p - 1, clock);
    }
  }

  /** Without abort records, every recent blkseq is handled if and only if no stale one was committed after a
      recent one. Commit order, not the order of the blkseq times, decides. */
  lemma CommitOrderCondition(es: seq<Entry>, clock: Clock)
    requires NoJumps(es)
    ensures RecentVisited(es, |es| - 1, clock) <==>
            forall i, j :: 0 <= i < j < |es| && Recent(es[i], clock) ==> !Stale(es[j], clock)
  {
    RebuildCompleteCondition(es, |es| - 1, clock);
    QuietWalkVisitsAll(es, |es| - 1, clock);
    var c := Cut(es, |es|, clock);
    if exists i, j :: 0 <= i < j < |es| && Recent(es[i], clock) && Stale(es[j], clock) {
      var i: nat, j: nat :| i < j < |es| && Recent(es[i], clock) && Stale(es[j], clock);
      assert j < c && i < StopAt(es, |es| - 1, clock);
    }
  }
}
