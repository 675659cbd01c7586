/**
 A node that stores responses, commits and aborts transactions, rolls its stripes and deletes old log files,
 and what a restart finds of its answers in the log files that are left.
 */
module BlkseqRestart {
  import opened Lsns
  import opened BlkseqStripe
  import opened BlkseqTable
  import opened BlkseqRebuild
  import BlkseqRuns

  // ----- The node -----

  /** The striped table, every log record ever written, how many of them have been deleted with their files, and
      the blkseq LSNs of transactions still open. */
  datatype Node = Node(table: seq<StripeState>, log: seq<LogRec>, cut: nat, pending: map<Key, Lsn>)

  datatype NodeStep =
    | Store(k: Key, d: Response, now: int, lsn: Lsn)
    | CommitTxn(k: Key, lsn: Lsn)
    | AbortTxn(k: Key)
    | OtherRecord(lsn: Lsn, prev: Lsn)
    | Cleaner(stripe: nat, step: BlkseqRuns.Step)
    | DeleteLog(logfile: nat, now: int)

  predicate AfterLog(log: seq<LogRec>, lsn: Lsn) {
    lsn.file >= 1 && forall i :: 0 <= i < |log| ==> log[i].lsn.Before(lsn)
  }

  /** How many records are in files up to `logfile`. */
  function RecordsUpTo(log: seq<LogRec>, logfile: nat): (n: nat)
    ensures n <= |log|
  {
    if log == [] then 0
    else if log[|log| - 1].lsn.file <= logfile then |log|
    else RecordsUpTo(log[..|log| - 1], logfile)
  }

  /** In an ordered log these are the records of those files and no others. */
  lemma {:induction false} RecordsAreFiles(log: seq<LogRec>, logfile: nat, i: nat)
    requires Ordered(log) && i < |log|
    ensures i < RecordsUpTo(log, logfile) <==> log[i].lsn.file <= logfile
    decreases |log|
  {
    var last := |log| - 1;
    assert i < last ==> log[i].lsn.Before(log[last].lsn);
    if log[last].lsn.file > logfile && i < last {
      RecordsAreFiles(log[..last], logfile, i);
    }
  }

  /** A log file is deleted when those before it are gone, the table approves, and no open transaction needs it. */
  predicate CanStep(node: Node, maxage: int, step: NodeStep) {
    |node.table| > 0 &&
    match step
    case Store(k, d, now, lsn) => k !in Contents(node.table) && k !in node.pending && AfterLog(node.log, lsn)
    case CommitTxn(k, lsn) => k in node.pending && AfterLog(node.log, lsn) && node.pending[k].Before(lsn)
    case AbortTxn(k) => k in node.pending
    case OtherRecord(lsn, prev) => AfterLog(node.log, lsn) && prev.Before(lsn)
    case Cleaner(i, step) =>
      && i < |node.table| && (step.Sample? || step.CleanBegin? || step.CleanEnd?)
      && BlkseqRuns.Enabled(node.table[i], step)
    case DeleteLog(f, now) =>
      && node.cut <= RecordsUpTo(node.log, f) && Deletable(node.table, f, now, maxage)
      && (forall i :: node.cut <= i < |node.log| ==> node.log[i].lsn.file >= f)
      && (forall k :: k in node.pending ==> node.pending[k].file > f)
  }

  function TableStep(table: seq<StripeState>, maxage: int, i: nat, step: BlkseqRuns.Step): seq<StripeState>
    requires i < |table| && BlkseqRuns.Enabled(table[i], step)
  {
    table[i := BlkseqRuns.Next(maxage, table[i], step)]
  }

  function NodeNext(node: Node, maxage: int, step: NodeStep): Node
    requires CanStep(node, maxage, step)
  {
    match step
    case Store(k, d, now, lsn) =>
      node.(table := TableStep(node.table, maxage, StripeOf(k, |node.table|),
                               BlkseqRuns.Insert(k, d, now, Some(lsn), false)),
            log := node.log + [LogRec(lsn, ZERO_LSN, Blkseq(now, k, d), true)],
            pending := node.pending[k := lsn])
    case CommitTxn(k, lsn) =>
      node.(log := node.log + [LogRec(lsn, node.pending[k], Commit, true)], pending := node.pending - {k})
    case AbortTxn(k) =>
      node.(table := TableStep(node.table, maxage, StripeOf(k, |node.table|), BlkseqRuns.Undo(k)),
            pending := node.pending - {k})
    case OtherRecord(lsn, prev) => node.(log := node.log + [LogRec(lsn, prev, Other, true)])
    case Cleaner(i, s) => node.(table := TableStep(node.table, maxage, i, s))
    case DeleteLog(f, _) => node.(table := ForgetLogEverywhere(node.table, f), cut := RecordsUpTo(node.log, f))
  }

  // ----- What every step keeps -----

  /** The open transaction on `k` wrote a record that agrees with the table, after every commit of `k`. */
  predicate PendingOk(node: Node, k: Key)
    requires k in node.pending && Ordered(node.log)
  {
    var i := At(node.log, node.pending[k]);
    && i.Some? && node.log[i.value].kind.Blkseq? && node.log[i.value].kind.key == k
    && (k in Contents(node.table) ==> Contents(node.table)[k] == node.log[i.value].kind.data)
    && CommitsBefore(node.log, k, i.value)
  }

  predicate Commits(log: seq<LogRec>, c: nat, k: Key)
    requires Ordered(log) && c < |log|
  {
    var e := EntryOf(log, c); e.Answer? && e.b.key == k
  }

  predicate CommitsBefore(log: seq<LogRec>, k: Key, n: nat)
    requires Ordered(log)
  {
    forall c: nat :: c < |log| && Commits(log, c, k) ==> c < n
  }

  /** The blkseq of a later commit of the same key was written after the earlier commit. */
  predicate Apart(log: seq<LogRec>, c: nat, d: nat)
    requires Ordered(log) && c < d < |log|
  {
    Commits(log, d, EntryKey(log, c)) && EntryOf(log, c).Answer? ==>
      ChainEnd(log, d).Some? && ChainEnd(log, d).value > c
  }

  function EntryKey(log: seq<LogRec>, c: nat): Key
    requires Ordered(log) && c < |log|
  {
    var e := EntryOf(log, c); if e.Answer? then e.b.key else []
  }

  predicate LivesApart(log: seq<LogRec>)
    requires Ordered(log)
  {
    forall c: nat, d: nat :: c < d < |log| ==> Apart(log, c, d)
  }

  function LogMap(log: seq<LogRec>): Tree
    requires Ordered(log)
  {
    Replay(Entries(log), 0, |log|)
  }

  /** Every answer of the table is an open transaction's or the last committed one. */
  predicate NodeOk(node: Node) {
    && Routed(node.table) && Ordered(node.log) && NoJumps(Entries(node.log)) && node.cut <= |node.log|
    && LivesApart(node.log)
    && (forall k :: k in node.pending ==> PendingOk(node, k))
    && (forall k :: k in Contents(node.table) && k !in node.pending ==>
          k in LogMap(node.log) && LogMap(node.log)[k] == Contents(node.table)[k])
  }

  /** A node that starts with empty stripes and an empty log. */
  lemma FreshNodeOk(nstripes: nat, now: int)
    requires nstripes > 0
    ensures NodeOk(Node(seq(nstripes, _ => FreshStripe(now)), [], 0, map[]))
  {
    var table := seq(nstripes, _ => FreshStripe(now));
    EmptyContents(table, now, nstripes);
  }

  predicate Extends(log: seq<LogRec>, more: seq<LogRec>) {
    |log| <= |more| && forall i :: 0 <= i < |log| ==> more[i] == log[i]
  }

  lemma ExtendedAt(log: seq<LogRec>, more: seq<LogRec>, lsn: Lsn)
    requires Ordered(more) && Extends(log, more) && At(log, lsn).Some?
    ensures At(more, lsn) == At(log, lsn)
  {
    UniquePosition(more, At(log, lsn).value);
  }

  lemma ExtendedPrev(log: seq<LogRec>, more: seq<LogRec>, i: nat)
    requires Ordered(log) && Ordered(more) && Extends(log, more) && i < |log|
    ensures PrevOf(more, i) == PrevOf(log, i)
  {
    if PrevOf(log, i).Some? {
      ExtendedAt(log, more, log[i].prev);
    }
  }

  lemma {:induction false} ExtendedChildren(log: seq<LogRec>, more: seq<LogRec>, i: nat)
    requires Ordered(log) && Ordered(more) && Extends(log, more) && i < |log|
    ensures SkipChildren(more, i) == SkipChildren(log, i)
    decreases i
  {
    ExtendedPrev(log, more, i);
    if log[i].kind == Child && PrevOf(log, i).Some? {
      ExtendedChildren(log, more, PrevOf(log, i).value);
    }
  }

  lemma ExtendedSkips(log: seq<LogRec>, more: seq<LogRec>, i: nat)
    requires Ordered(log) && Ordered(more) && Extends(log, more) && i < |log|
    ensures SkipPrepare(more, i) == SkipPrepare(log, i)
    ensures SkipLtran(more, i) == SkipLtran(log, i)
  {
    ExtendedPrev(log, more, i);
  }

  lemma ExtendedAfterPrepare(log: seq<LogRec>, more: seq<LogRec>, i: nat)
    requires Ordered(log) && Ordered(more) && Extends(log, more) && i < |log|
    ensures AfterPrepare(more, i) == AfterPrepare(log, i)
  {
    ExtendedSkips(log, more, i);
    if SkipPrepare(log, i).Some? {
      var b := SkipPrepare(log, i).value;
      ExtendedSkips(log, more, b);
      if SkipLtran(log, b).Some? {
        ExtendedChildren(log, more, SkipLtran(log, b).value);
      }
    }
  }

  lemma ExtendedChain(log: seq<LogRec>, more: seq<LogRec>, i: nat)
    requires Ordered(log) && Ordered(more) && Extends(log, more) && i < |log|
    ensures ChainEnd(more, i) == ChainEnd(log, i)
  {
    ExtendedPrev(log, more, i);
    if PrevOf(log, i).Some? {
      ExtendedAfterPrepare(log, more, PrevOf(log, i).value);
    }
  }

  /** Appending to the log does not change what earlier records mean. */
  lemma ExtendedEntry(log: seq<LogRec>, more: seq<LogRec>, i: nat)
    requires Ordered(log) && Ordered(more) && Extends(log, more) && i < |log|
    ensures EntryOf(more, i) == EntryOf(log, i) && ChainEnd(more, i) == ChainEnd(log, i)
  {
    ExtendedPrev(log, more, i);
    ExtendedChain(log, more, i);
  }

  lemma {:induction false} SameReplay(es: seq<Entry>, more: seq<Entry>, hi: nat)
    requires hi <= |es| <= |more| && forall i :: 0 <= i < hi ==> es[i] == more[i]
    ensures Replay(more, 0, hi) == Replay(es, 0, hi)
  {
    if hi > 0 {
      SameReplay(es, more, hi - 1);
    }
  }

  lemma OrderedMore(log: seq<LogRec>, rec: LogRec)
    requires Ordered(log) && AfterLog(log, rec.lsn) && rec.prev.Before(rec.lsn)
    ensures Ordered(log + [rec]) && Extends(log, log + [rec])
  {
  }

  /** A record appended to the log that is not a distributed abort. */
  lemma AppendedLog(log: seq<LogRec>, rec: LogRec)
    requires Ordered(log) && NoJumps(Entries(log)) && rec.kind != DistAbort
    requires AfterLog(log, rec.lsn) && rec.prev.Before(rec.lsn)
    ensures var more := log + [rec];
            && Ordered(more) && NoJumps(Entries(more)) && Extends(log, more)
            && LogMap(more) == var e := EntryOf(more, |log|);
                               if e.Answer? then LogMap(log)[e.b.key := e.b.data] else LogMap(log)
  {
    var more := log + [rec];
    OrderedMore(log, rec);
    forall i | 0 <= i < |log| ensures Entries(more)[i] == Entries(log)[i] {
      ExtendedEntry(log, more, i);
    }
    assert !EntryOf(more, |log|).Jump?;
    SameReplay(Entries(log), Entries(more), |log|);
  }

  lemma ApartKept(log: seq<LogRec>, more: seq<LogRec>, c: nat, d: nat)
    requires Ordered(log) && Ordered(more) && Extends(log, more) && c < d < |log| && Apart(log, c, d)
    ensures Apart(more, c, d)
  {
    ExtendedEntry(log, more, c);
    ExtendedEntry(log, more, d);
  }

  lemma NewIsApart(log: seq<LogRec>, more: seq<LogRec>, c: nat)
    requires Ordered(log) && Ordered(more) && Extends(log, more) && c < |log| < |more|
    requires var e := EntryOf(more, |log|);
             e.Answer? ==> ChainEnd(more, |log|).Some? && CommitsBefore(log, e.b.key, ChainEnd(more, |log|).value)
    ensures Apart(more, c, |log|)
  {
    ExtendedEntry(log, more, c);
    if EntryOf(log, c).Answer? {
      assert Commits(log, c, EntryKey(log, c));
    }
  }

  /** A record that commits nothing, or a commit whose blkseq came after every earlier commit of its key. */
  lemma AppendedApart(log: seq<LogRec>, rec: LogRec)
    requires Ordered(log) && LivesApart(log) && Ordered(log + [rec])
    requires var e := EntryOf(log + [rec], |log|);
             e.Answer? ==>
              ChainEnd(log + [rec], |log|).Some? && CommitsBefore(log, e.b.key, ChainEnd(log + [rec], |log|).value)
    ensures LivesApart(log + [rec])
  {
    var more := log + [rec];
    forall c: nat, d: nat | c < d < |more| ensures Apart(more, c, d) {
      if d < |log| {
        assert Apart(log, c, d);
        ApartKept(log, more, c, d);
      } else {
        NewIsApart(log, more, c);
      }
    }
  }

  /** Open transactions stay sound when the log grows by a record that commits none of them. */
  lemma PendingKept(a: Node, b: Node, k: Key)
    requires Ordered(a.log) && Ordered(b.log) && Extends(a.log, b.log)
    requires forall c: nat :: |a.log| <= c < |b.log| ==> !Commits(b.log, c, k)
    requires k in a.pending && k in b.pending && a.pending[k] == b.pending[k] && PendingOk(a, k)
    requires k in Contents(b.table) ==> k in Contents(a.table) && Contents(a.table)[k] == Contents(b.table)[k]
    ensures PendingOk(b, k)
  {
    ExtendedAt(a.log, b.log, a.pending[k]);
    var n := At(a.log, a.pending[k]).value;
    forall c: nat | c < |b.log| && Commits(b.log, c, k) ensures c < n {
      ExtendedEntry(a.log, b.log, c);
      assert Commits(a.log, c, k);
    }
  }

  lemma QuietRecord(log: seq<LogRec>, rec: LogRec)
    requires Ordered(log + [rec]) && rec.kind != Commit && rec.kind != DistAbort
    ensures EntryOf(log + [rec], |log|) == Quiet
  {
  }

  lemma StoreKeepsOk(node: Node, maxage: int, step: NodeStep)
    requires NodeOk(node) && CanStep(node, maxage, step) && step.Store?
    ensures NodeOk(NodeNext(node, maxage, step))
  {
    var Store(k, d, now, lsn) := step;
    var next, rec := NodeNext(node, maxage, step), LogRec(lsn, ZERO_LSN, Blkseq(now, k, d), true);
    AppendedLog(node.log, rec);
    QuietRecord(node.log, rec);
    AppendedApart(node.log, rec);
    StepRefinesMap(maxage, node.table, StripeOf(k, |node.table|), BlkseqRuns.Insert(k, d, now, Some(lsn), false));
    assert Contents(next.table) == Contents(node.table)[k := d];
    UniquePosition(next.log, |node.log|);
    forall k' | k' in next.pending ensures PendingOk(next, k') {
      if k' != k {
        PendingKept(node, next, k');
      }
    }
  }

  lemma CommitLeadsToBlkseq(log: seq<LogRec>, rec: LogRec, i: nat)
    requires Ordered(log) && AfterLog(log, rec.lsn) && rec.prev.Before(rec.lsn)
    requires rec.full && rec.kind == Commit && At(log, rec.prev) == Some(i) && log[i].kind.Blkseq?
    ensures Ordered(log + [rec]) && ChainEnd(log + [rec], |log|) == Some(i)
    ensures EntryOf(log + [rec], |log|) == Answer(Stored(log[i].kind.time, log[i].kind.key, log[i].kind.data))
  {
    OrderedMore(log, rec);
    ExtendedAt(log, log + [rec], rec.prev);
  }

  lemma CommitKeepsOk(node: Node, maxage: int, step: NodeStep)
    requires NodeOk(node) && CanStep(node, maxage, step) && step.CommitTxn?
    ensures NodeOk(NodeNext(node, maxage, step))
  {
    var k := step.k;
    var next := NodeNext(node, maxage, step);
    var rec := LogRec(step.lsn, node.pending[k], Commit, true);
    assert PendingOk(node, k);
    CommitLeadsToBlkseq(node.log, rec, At(node.log, node.pending[k]).value);
    AppendedLog(node.log, rec);
    AppendedApart(node.log, rec);
    forall k' | k' in next.pending ensures PendingOk(next, k') {
      PendingKept(node, next, k');
    }
  }

  lemma OtherKeepsOk(node: Node, maxage: int, step: NodeStep)
    requires NodeOk(node) && CanStep(node, maxage, step) && step.OtherRecord?
    ensures NodeOk(NodeNext(node, maxage, step))
  {
    var next, rec := NodeNext(node, maxage, step), LogRec(step.lsn, step.prev, Other, true);
    AppendedLog(node.log, rec);
    QuietRecord(node.log, rec);
    AppendedApart(node.log, rec);
    forall k | k in next.pending ensures PendingOk(next, k) {
      PendingKept(node, next, k);
    }
  }

  /** A step that writes no record and at most removes keys from the table. */
  lemma ShrinkKeepsOk(node: Node, next: Node)
    requires NodeOk(node) && Routed(next.table) && next.log == node.log && next.cut <= |next.log|
    requires forall k :: k in Contents(next.table) ==>
               k in Contents(node.table) && Contents(node.table)[k] == Contents(next.table)[k]
    requires forall k :: k in next.pending ==> k in node.pending && next.pending[k] == node.pending[k]
    requires forall k :: k in node.pending && k in Contents(next.table) ==> k in next.pending
    ensures NodeOk(next)
  {
    forall k | k in next.pending ensures PendingOk(next, k) {
      PendingKept(node, next, k);
    }
  }

  lemma ForgetKeepsRouted(states: seq<StripeState>, logfile: nat)
    requires Routed(states)
    ensures Routed(ForgetLogEverywhere(states, logfile))
    ensures Contents(ForgetLogEverywhere(states, logfile)) == Contents(states)
  {
    SameViews(states, ForgetLogEverywhere(states, logfile), |states|);
  }

  lemma StepKeepsOk(node: Node, maxage: int, step: NodeStep)
    requires NodeOk(node) && CanStep(node, maxage, step)
    ensures NodeOk(NodeNext(node, maxage, step))
  {
    match step
    case Store(_, _, _, _) => StoreKeepsOk(node, maxage, step);
    case CommitTxn(_, _) => CommitKeepsOk(node, maxage, step);
    case OtherRecord(_, _) => OtherKeepsOk(node, maxage, step);
    case AbortTxn(k) =>
      StepRefinesMap(maxage, node.table, StripeOf(k, |node.table|), BlkseqRuns.Undo(k));
      ShrinkKeepsOk(node, NodeNext(node, maxage, step));
    case Cleaner(i, s) =>
      StepRefinesMap(maxage, node.table, i, s);
      ShrinkKeepsOk(node, NodeNext(node, maxage, step));
    case DeleteLog(f, _) =>
      ForgetKeepsRouted(node.table, f);
      ShrinkKeepsOk(node, NodeNext(node, maxage, step));
  }

  /** The node after `steps`, or `None` if one of them cannot be taken. */
  function RunNode(node: Node, maxage: int, steps: seq<NodeStep>): Option<Node>
    decreases |steps|
  {
    if steps == [] then Some(node)
    else if CanStep(node, maxage, steps[0]) then RunNode(NodeNext(node, maxage, steps[0]), maxage, steps[1..])
    else None
  }

  lemma {:induction false} RunKeepsOk(node: Node, maxage: int, steps: seq<NodeStep>)
    requires NodeOk(node) && RunNode(node, maxage, steps).Some?
    ensures NodeOk(RunNode(node, maxage, steps).value)
    decreases |steps|
  {
    if steps != [] {
      StepKeepsOk(node, maxage, steps[0]);
      RunKeepsOk(NodeNext(node, maxage, steps[0]), maxage, steps[1..]);
    }
  }

  // ----- The log that is left -----

  function Shift(r: Option<nat>, d: nat): Option<nat> {
    if r.Some? && r.value >= d then Some(r.value - d) else None
  }

  lemma LeftOrdered(log: seq<LogRec>, d: nat)
    requires Ordered(log) && d <= |log|
    ensures Ordered(log[d..])
  {
  }

  lemma LeftAt(log: seq<LogRec>, d: nat, lsn: Lsn)
    requires Ordered(log) && d <= |log|
    ensures At(log[d..], lsn) == Shift(At(log, lsn), d)
  {
    LeftOrdered(log, d);
    if At(log[d..], lsn).Some? {
      UniquePosition(log, At(log[d..], lsn).value + d);
    }
    if At(log, lsn).Some? && At(log, lsn).value >= d {
      var p := At(log, lsn).value;
      assert log[d..][p - d] == log[p];
      UniquePosition(log[d..], p - d);
    }
  }

  lemma LeftPrev(log: seq<LogRec>, d: nat, i: nat)
    requires d <= i < |log| && Ordered(log) && Ordered(log[d..])
    ensures PrevOf(log[d..], i - d) == Shift(PrevOf(log, i), d)
  {
    LeftAt(log, d, log[i].prev);
  }

  lemma {:induction false} LeftChildren(log: seq<LogRec>, d: nat, i: nat)
    requires d <= i < |log| && Ordered(log) && Ordered(log[d..])
    ensures SkipChildren(log[d..], i - d) == Shift(SkipChildren(log, i), d)
    decreases i
  {
    LeftPrev(log, d, i);
    if log[i].kind == Child && PrevOf(log, i).Some? && PrevOf(log, i).value >= d {
      LeftChildren(log, d, PrevOf(log, i).value);
    }
  }

  lemma LeftSkips(log: seq<LogRec>, d: nat, i: nat)
    requires d <= i < |log| && Ordered(log) && Ordered(log[d..])
    ensures SkipPrepare(log[d..], i - d) == Shift(SkipPrepare(log, i), d)
    ensures SkipLtran(log[d..], i - d) == Shift(SkipLtran(log, i), d)
  {
    LeftPrev(log, d, i);
  }

  lemma LeftAfterLtran(log: seq<LogRec>, d: nat, i: nat)
    requires d <= i < |log| && Ordered(log) && Ordered(log[d..])
    ensures AfterLtran(log[d..], i - d) == Shift(AfterLtran(log, i), d)
  {
    LeftSkips(log, d, i);
    var c := SkipLtran(log, i);
    if c.Some? && c.value >= d {
      LeftChildren(log, d, c.value);
    }
  }

  lemma LeftAfterPrepare(log: seq<LogRec>, d: nat, i: nat)
    requires d <= i < |log| && Ordered(log) && Ordered(log[d..])
    ensures AfterPrepare(log[d..], i - d) == Shift(AfterPrepare(log, i), d)
  {
    LeftSkips(log, d, i);
    var b := SkipPrepare(log, i);
    if b.Some? && b.value >= d {
      LeftAfterLtran(log, d, b.value);
    }
  }

  /** A chain leads to the same record, or breaks off if that record was deleted. */
  lemma LeftChain(log: seq<LogRec>, d: nat, i: nat)
    requires d <= i < |log| && Ordered(log) && Ordered(log[d..])
    ensures ChainEnd(log[d..], i - d) == Shift(ChainEnd(log, i), d)
  {
    LeftPrev(log, d, i);
    var a := PrevOf(log, i);
    if a.Some? && a.value >= d {
      LeftAfterPrepare(log, d, a.value);
    }
  }

  /** A commit means the same in the log that is left, or nothing if its blkseq was deleted. */
  lemma LeftEntry(log: seq<LogRec>, d: nat, i: nat)
    requires d <= i < |log| && Ordered(log) && Ordered(log[d..]) && !EntryOf(log, i).Jump?
    ensures EntryOf(log[d..], i - d) ==
            if EntryOf(log, i).Answer? && Shift(ChainEnd(log, i), d).None? then Quiet else EntryOf(log, i)
  {
    LeftChain(log, d, i);
    LeftPrev(log, d, i);
    assert log[d..][i - d] == log[i];
  }

  // ----- What the restart finds -----

  /** Where the chains of all records lead. */
  function Ends(log: seq<LogRec>): (r: seq<Option<nat>>)
    requires Ordered(log)
    ensures |r| == |log| && forall i :: 0 <= i < |log| ==> r[i] == ChainEnd(log, i)
  {
    seq(|log|, i requires 0 <= i < |log| => ChainEnd(log, i))
  }

  /** `left` is what the entries `es` mean without the first `d` records. */
  predicate Truncated(es: seq<Entry>, ends: seq<Option<nat>>, d: nat, left: seq<Entry>) {
    && |ends| == |es| && d <= |es| && |left| == |es| - d
    && forall i :: d <= i < |es| ==>
         left[i - d] == if es[i].Answer? && Shift(ends[i], d).None? then Quiet else es[i]
  }

  lemma LeftIsTruncated(log: seq<LogRec>, d: nat)
    requires Ordered(log) && d <= |log| && NoJumps(Entries(log))
    ensures Ordered(log[d..]) && Truncated(Entries(log), Ends(log), d, Entries(log[d..]))
  {
    LeftOrdered(log, d);
    forall i | d <= i < |log|
      ensures Entries(log[d..])[i - d] ==
              if Entries(log)[i].Answer? && Shift(Ends(log)[i], d).None? then Quiet else Entries(log)[i]
    {
      assert !Entries(log)[i].Jump?;
      LeftEntry(log, d, i);
    }
  }

  predicate AnswersFor(e: Entry, k: Key) { e.Answer? && e.b.key == k }

  /** `c` is the last answer for `k`. */
  predicate LastAnswer(es: seq<Entry>, k: Key, c: nat) {
    c < |es| && AnswersFor(es[c], k) && forall i :: c < i < |es| ==> !AnswersFor(es[i], k)
  }

  predicate NoAnswer(es: seq<Entry>, k: Key) { forall i :: 0 <= i < |es| ==> !AnswersFor(es[i], k) }

  lemma {:induction false} ReplayLast(es: seq<Entry>, lo: nat, hi: nat, k: Key, c: nat)
    requires lo <= hi <= |es| && LastAnswer(es, k, c) && c < hi
    ensures k in Replay(es, lo, hi) <==> lo <= c
    ensures lo <= c ==> Replay(es, lo, hi)[k] == es[c].b.data
    decreases hi
  {
    if lo < hi && c < hi - 1 {
      ReplayLast(es, lo, hi - 1, k, c);
      assert !AnswersFor(es[hi - 1], k);
    }
  }

  lemma {:induction false} ReplayNone(es: seq<Entry>, lo: nat, hi: nat, k: Key)
    requires lo <= hi <= |es| && NoAnswer(es, k)
    ensures k !in Replay(es, lo, hi)
    decreases hi
  {
    if lo < hi {
      ReplayNone(es, lo, hi - 1, k);
      assert !AnswersFor(es[hi - 1], k);
    }
  }

  lemma {:induction false} FindLast(es: seq<Entry>, hi: nat, k: Key) returns (c: nat)
    requires hi <= |es| && k in Replay(es, 0, hi)
    ensures c < hi && AnswersFor(es[c], k) && forall i :: c < i < hi ==> !AnswersFor(es[i], k)
    decreases hi
  {
    if AnswersFor(es[hi - 1], k) {
      c := hi - 1;
    } else {
      c := FindLast(es, hi - 1, k);
    }
  }

  /** The last commit, if its blkseq is left, is the last one left. */
  lemma LastIsLeft(es: seq<Entry>, ends: seq<Option<nat>>, d: nat, left: seq<Entry>, k: Key, c: nat)
    requires Truncated(es, ends, d, left) && LastAnswer(es, k, c)
    requires ends[c].Some? && d <= ends[c].value < c
    ensures LastAnswer(left, k, c - d) && left[c - d] == es[c]
  {
    forall i | c - d < i < |left| ensures !AnswersFor(left[i], k) {
      assert !AnswersFor(es[i + d], k);
      assert left[i] == left[i + d - d];
    }
  }

  /** The blkseq of the last commit was written after every earlier commit of the key. */
  predicate AloneSince(es: seq<Entry>, k: Key, c: nat, end: nat) {
    forall i :: end <= i < c && i < |es| ==> !AnswersFor(es[i], k)
  }

  /** With the blkseq of its last commit deleted, nothing is left of a key: no older answer comes back. */
  lemma NoneIsLeft(es: seq<Entry>, ends: seq<Option<nat>>, d: nat, left: seq<Entry>, k: Key, c: nat)
    requires Truncated(es, ends, d, left) && LastAnswer(es, k, c)
    requires ends[c].Some? && ends[c].value < d && AloneSince(es, k, c, ends[c].value)
    ensures NoAnswer(left, k)
  {
    forall i | 0 <= i < |left| ensures !AnswersFor(left[i], k) {
      var j := i + d;
      assert left[i] == left[j - d];
      assert j != c ==> !AnswersFor(es[j], k);
    }
  }

  /** What a rebuild from the log that is left finds of `k`. */
  lemma RebuiltExactly(
    es: seq<Entry>, ends: seq<Option<nat>>, d: nat, left: seq<Entry>, k: Key, c: nat, clock: Clock, abort: Response)
    requires Truncated(es, ends, d, left) && LastAnswer(es, k, c) && NoJumps(left)
    requires ends[c].Some? && ends[c].value < c && AloneSince(es, k, c, ends[c].value)
    ensures var rebuilt := Walk(left, |left| - 1, clock, abort, map[]);
            && (k in rebuilt <==> ends[c].value >= d && NoneStale(left, c - d, clock))
            && (k in rebuilt ==> rebuilt[k] == es[c].b.data)
  {
    RebuildIsReplay(left, clock, abort);
    var cut := Cut(left, |left|, clock);
    if ends[c].value >= d {
      LastIsLeft(es, ends, d, left, k, c);
      ReplayLast(left, cut, |left|, k, c - d);
    } else {
      NoneIsLeft(es, ends, d, left, k, c);
      ReplayNone(left, cut, |left|, k);
    }
  }

  lemma TruncatedNoJumps(es: seq<Entry>, ends: seq<Option<nat>>, d: nat, left: seq<Entry>)
    requires Truncated(es, ends, d, left) && NoJumps(es)
    ensures NoJumps(left)
  {
    forall i | 0 <= i < |left| ensures !left[i].Jump? {
      assert left[i] == left[i + d - d];
      assert !es[i + d].Jump?;
    }
  }

  lemma AloneFromApart(log: seq<LogRec>, k: Key, c: nat)
    requires Ordered(log) && LivesApart(log) && c < |log| && Commits(log, c, k)
    ensures ChainEnd(log, c).Some? && AloneSince(Entries(log), k, c, ChainEnd(log, c).value)
  {
    forall i | ChainEnd(log, c).value <= i < c ensures !AnswersFor(Entries(log)[i], k) {
      assert Apart(log, i, c);
    }
  }

  /** The last commit of a key, where its blkseq is, and the entries it is among. */
  lemma CommitOf(log: seq<LogRec>, k: Key) returns (c: nat)
    requires Ordered(log) && LivesApart(log) && k in LogMap(log)
    ensures var es := Entries(log);
            && LastAnswer(es, k, c) && es[c].b.data == LogMap(log)[k]
            && ChainEnd(log, c).Some? && AloneSince(es, k, c, ChainEnd(log, c).value)
  {
    var es := Entries(log);
    c := FindLast(es, |es|, k);
    ReplayLast(es, 0, |es|, k, c);
    AloneFromApart(log, k, c);
  }

  lemma {:induction false} ReplayHas(es: seq<Entry>, hi: nat, k: Key, i: nat)
    requires i < hi <= |es| && AnswersFor(es[i], k)
    ensures k in Replay(es, 0, hi)
    decreases hi
  {
    if i < hi - 1 {
      ReplayHas(es, hi - 1, k, i);
    }
  }

  lemma NeverAnswered(es: seq<Entry>, k: Key)
    requires k !in Replay(es, 0, |es|)
    ensures NoAnswer(es, k)
  {
    forall i | 0 <= i < |es| ensures !AnswersFor(es[i], k) {
      if AnswersFor(es[i], k) {
        ReplayHas(es, |es|, k, i);
      }
    }
  }

  lemma TruncatedNoAnswer(es: seq<Entry>, ends: seq<Option<nat>>, d: nat, left: seq<Entry>, k: Key)
    requires Truncated(es, ends, d, left) && NoAnswer(es, k)
    ensures NoAnswer(left, k)
  {
    forall i | 0 <= i < |left| ensures !AnswersFor(left[i], k) {
      assert left[i] == left[i + d - d];
      assert !AnswersFor(es[i + d], k);
    }
  }

  /** A rebuild finds nothing for a key that was never committed. */
  lemma RestartFindsNothing(log: seq<LogRec>, cut: nat, k: Key, clock: Clock, abort: Response)
    requires Ordered(log) && cut <= |log| && NoJumps(Entries(log)) && k !in LogMap(log)
    ensures Ordered(log[cut..])
    ensures var left := Entries(log[cut..]); k !in Walk(left, |left| - 1, clock, abort, map[])
  {
    LeftIsTruncated(log, cut);
    var left := Entries(log[cut..]);
    TruncatedNoJumps(Entries(log), Ends(log), cut, left);
    NeverAnswered(Entries(log), k);
    TruncatedNoAnswer(Entries(log), Ends(log), cut, left, k);
    RebuildIsReplay(left, clock, abort);
    ReplayNone(left, Cut(left, |left|, clock), |left|, k);
  }

  lemma LeftFrom(log: seq<LogRec>, cut: nat, c: nat) returns (ends: seq<Option<nat>>)
    requires Ordered(log) && cut <= |log| && c < |log| && NoJumps(Entries(log)) && ChainEnd(log, c).Some?
    ensures Ordered(log[cut..]) && NoJumps(Entries(log[cut..]))
    ensures Truncated(Entries(log), ends, cut, Entries(log[cut..]))
    ensures ends[c] == ChainEnd(log, c) && ends[c].value < c
  {
    LeftIsTruncated(log, cut);
    ends := Ends(log);
    TruncatedNoJumps(Entries(log), ends, cut, Entries(log[cut..]));
  }

  lemma RestartFinds(log: seq<LogRec>, cut: nat, k: Key, c: nat, clock: Clock, abort: Response)
    requires Ordered(log) && cut <= |log| && NoJumps(Entries(log)) && LastAnswer(Entries(log), k, c)
    requires ChainEnd(log, c).Some? && AloneSince(Entries(log), k, c, ChainEnd(log, c).value)
    ensures Ordered(log[cut..])
    ensures var left := Entries(log[cut..]);
            var rebuilt := Walk(left, |left| - 1, clock, abort, map[]);
            && (k in rebuilt <==> ChainEnd(log, c).value >= cut && NoneStale(left, c - cut, clock))
            && (k in rebuilt ==> rebuilt[k] == Entries(log)[c].b.data)
  {
    var ends := LeftFrom(log, cut, c);
    RebuiltExactly(Entries(log), ends, cut, Entries(log[cut..]), k, c, clock, abort);
  }

  /** The table that a restart at `clock` rebuilds when the first `cut` records are deleted. */
  function Rebuilt(log: seq<LogRec>, cut: nat, clock: Clock, abort: Response): Tree
    requires cut <= |log| && Ordered(log[cut..])
  {
    var left := Entries(log[cut..]);
    Walk(left, |left| - 1, clock, abort, map[])
  }

  /** What a rebuild finds of `k`, whose last commit is `c` if it has one. */
  predicate FoundExactly(log: seq<LogRec>, cut: nat, clock: Clock, rebuilt: Tree, k: Key, c: nat)
    requires Ordered(log) && cut <= |log| && Ordered(log[cut..])
  {
    && (k in LogMap(log) ==> LastAnswer(Entries(log), k, c) && ChainEnd(log, c).Some?)
    && (k in rebuilt <==>
        && k in LogMap(log) && ChainEnd(log, c).value >= cut
        && NoneStale(Entries(log[cut..]), c - cut, clock))
    && (k in rebuilt ==> rebuilt[k] == LogMap(log)[k])
  }

  lemma RestartFindsLast(log: seq<LogRec>, cut: nat, k: Key, clock: Clock, abort: Response) returns (c: nat)
    requires Ordered(log) && LivesApart(log) && NoJumps(Entries(log)) && cut <= |log|
    ensures Ordered(log[cut..]) && FoundExactly(log, cut, clock, Rebuilt(log, cut, clock, abort), k, c)
  {
    if k in LogMap(log) {
      c := CommitOf(log, k);
      RestartFinds(log, cut, k, c, clock, abort);
    } else {
      c := 0;
      RestartFindsNothing(log, cut, k, clock, abort);
    }
  }

  /**
   After any run of a node, with log files deleted as the table approves, and a restart at `clock`. For every
   key, with `c` its last commit if it has one: the rebuilt table has an answer for it if and only if it was
   committed, the log file of that commit's blkseq is still there, and no blkseq committed since, whose own
   record is still there, is stale. The answer is then the one committed last, so neither a response of an open
   or aborted transaction nor an overwritten one appears. What the live table answers for a finished transaction
   is that same response.
   */
  lemma RestartKeepsAnswers(
    start: Node, steps: seq<NodeStep>, clock: Clock, abort: Response, node: Node, k: Key) returns (c: nat)
    requires NodeOk(start) && RunNode(start, clock.maxage, steps) == Some(node)
    ensures Ordered(node.log) && node.cut <= |node.log| && Ordered(node.log[node.cut..])
    ensures FoundExactly(node.log, node.cut, clock, Rebuilt(node.log, node.cut, clock, abort), k, c)
    ensures k in Contents(node.table) && k !in node.pending ==>
              k in LogMap(node.log) && LogMap(node.log)[k] == Contents(node.table)[k]
  {
    RunKeepsOk(start, clock.maxage, steps);
    c := RestartFindsLast(node.log, node.cut, k, clock, abort);
  }
}
