/**
 One stripe of the replay-detection table (blkseq).

 A stripe holds a young and an old tree of responses keyed by request. New responses go to the young
 tree; a roll drops the old tree, makes the young tree the old one and starts an empty young tree.
 The first half of this module is the value of a stripe and what each locked region does to it; the
 second half is the object whose methods do it in place.
 */
module BlkseqStripe {
  import opened Lsns

  type Key = seq<bv8>
  type Response = seq<bv8>
  type Tree = map<Key, Response>

  /** A log file that holds blkseq records, with the time of the first one noted. */
  datatype SeenLog = SeenLog(logfile: nat, timestamp: int)

  /** Where the cleaner thread is, with the clock it sampled: waiting for the stripe mutex, or outside it between its
      two locked regions, reading the first log record. */
  datatype CleanerAt = Away | AtMutex(clock: int) | InWindow(clock: int)

  datatype StripeState = StripeState(
    young: Tree, aged: Tree,
    youngLsn: Lsn, agedLsn: Lsn,
    lastRoll: int, logList: seq<SeenLog>,
    cleaner: CleanerAt)
  {
    /** The single map the two trees stand for: the young tree is searched first. */
    function View(): Tree { aged + young }

    function Find(k: Key): Option<Response> {
      if k in young then Some(young[k]) else if k in aged then Some(aged[k]) else None
    }

    predicate Disjoint() { young.Keys !! aged.Keys }

    function Logged(lsn: Lsn, time: int): StripeState {
      this.(youngLsn := lsn, logList := NoteLog(logList, lsn, time))
    }

    function Put(k: Key, d: Response): StripeState {
      if k !in young && k in aged then this.(aged := aged[k := d]) else this.(young := young[k := d])
    }

    function Insert(k: Key, d: Response, now: int, tran: Option<Lsn>, overwrite: bool): StripeState {
      if Find(k).Some? && !overwrite then this
      else if tran.Some? then Put(k, d).Logged(tran.value, now)
      else Put(k, d)
    }

    function Redo(k: Key, d: Response, time: int, lsn: Lsn): StripeState {
      if k in young then this else this.(young := young[k := d]).Logged(lsn, time)
    }

    function Undo(k: Key): StripeState {
      this.(young := young - {k}, aged := aged - {k})
    }

    function Rolled(now: int): StripeState {
      this.(young := map[], aged := young, agedLsn := youngLsn, lastRoll := now, cleaner := Away)
    }

    /** The cleaner reads the clock and only then asks for the mutex. */
    function Sample(now: int): StripeState {
      this.(cleaner := AtMutex(now))
    }

    /** The cleaner's first locked region: too early, roll at once, or go and read the log. */
    function CleanBegin(maxage: int): StripeState
      requires cleaner.AtMutex?
    {
      if cleaner.clock - lastRoll < maxage then this.(cleaner := Away)
      else if agedLsn.file != 0 then this.(cleaner := InWindow(cleaner.clock))
      else Rolled(cleaner.clock)
    }

    /** The cleaner's second locked region; `first` is the first log record, if it could be read. */
    function CleanEnd(first: Option<Lsn>): StripeState
      requires cleaner.InWindow?
    {
      if first.Some? && first.value.file <= agedLsn.file then this.(cleaner := Away)
      else Rolled(cleaner.clock)
    }

    function ForgetLog(logfile: nat): StripeState {
      this.(logList := WithoutLog(logList, logfile))
    }
  }

  /** Only the last entry of the list is compared with the record's file. */
  function NoteLog(list: seq<SeenLog>, lsn: Lsn, time: int): seq<SeenLog> {
    if list == [] || list[|list| - 1].logfile != lsn.file then list + [SeenLog(lsn.file, time)] else list
  }

  function WithoutLog(list: seq<SeenLog>, logfile: nat): (r: seq<SeenLog>) {
    if list == [] then []
    else if list[0].logfile == logfile then WithoutLog(list[1..], logfile)
    else [list[0]] + WithoutLog(list[1..], logfile)
  }

  function FreshStripe(now: int): StripeState {
    StripeState(map[], map[], ZERO_LSN, ZERO_LSN, now, [], Away)
  }

  datatype InsertRc = Inserted | Duplicate(stored: Response)

  /** What the stripe mutex protects, updated in place. Tree 0 is the young one. */
  class Stripe {
    var blkseq: seq<Tree>
    var lastLsn: seq<Lsn>
    var lastRoll: int
    var logList: seq<SeenLog>
    var cleaner: CleanerAt

    ghost predicate Valid()
      reads this
    {
      |blkseq| == 2 && |lastLsn| == 2
    }

    ghost function State(): StripeState
      reads this
      requires Valid()
    {
      StripeState(blkseq[0], blkseq[1], lastLsn[0], lastLsn[1], lastRoll, logList, cleaner)
    }

    constructor (now: int)
      ensures Valid() && State() == FreshStripe(now)
    {
      blkseq := [map[], map[]];
      lastLsn := [ZERO_LSN, ZERO_LSN];
      lastRoll := now;
      logList := [];
      cleaner := Away;
    }

    method Find(k: Key) returns (r: Option<Response>)
      requires Valid()
      ensures r == State().Find(k)
      ensures r == (if k in State().View() then Some(State().View()[k]) else None)
    {
      for i := 0 to 2
        invariant forall j :: 0 <= j < i ==> k !in blkseq[j]
      {
        if k in blkseq[i] {
          return Some(blkseq[i][k]);
        }
      }
      return None;
    }

    method NoteLogFile(time: int, lsn: Lsn)
      requires Valid()
      modifies this`logList
      ensures logList == NoteLog(old(logList), lsn, time)
    {
      if |logList| == 0 || logList[|logList| - 1].logfile != lsn.file {
        logList := logList + [SeenLog(lsn.file, time)];
      }
    }

    /** `tran` is the LSN the log gave this update, or `None` for the non-transactional rebuild. */
    method Insert(k: Key, d: Response, now: int, tran: Option<Lsn>, overwrite: bool) returns (rc: InsertRc)
      requires Valid()
      modifies this
      ensures Valid() && State() == old(State()).Insert(k, d, now, tran, overwrite)
      ensures rc == if old(State()).Find(k).Some? && !overwrite
                    then Duplicate(old(State()).Find(k).value) else Inserted
    {
      var writeIx := 0;
      var i := 0;
      while i < 2
        invariant 0 <= i <= 2 && writeIx == 0
        invariant forall j :: 0 <= j < i ==> k !in blkseq[j]
        invariant Valid() && State() == old(State())
      {
        if k in blkseq[i] {
          if overwrite {
            writeIx := i;
            break;
          } else {
            return Duplicate(blkseq[i][k]);
          }
        }
        i := i + 1;
      }
      blkseq := blkseq[writeIx := blkseq[writeIx][k := d]];
      if tran.Some? {
        NoteLogFile(now, tran.value);
        lastLsn := lastLsn[0 := tran.value];
      }
      return Inserted;
    }

    /** Replay of a blkseq log record, forwards. */
    method Redo(k: Key, d: Response, time: int, lsn: Lsn)
      requires Valid()
      modifies this
      ensures Valid() && State() == old(State()).Redo(k, d, time, lsn)
    {
      if k !in blkseq[0] {
        blkseq := blkseq[0 := blkseq[0][k := d]];
        lastLsn := lastLsn[0 := lsn];
        NoteLogFile(time, lsn);
      }
    }

    /** Abort or backward roll of a blkseq log record. */
    method Undo(k: Key)
      requires Valid()
      modifies this
      ensures Valid() && State() == old(State()).Undo(k)
    {
      blkseq := blkseq[0 := blkseq[0] - {k}];
      blkseq := blkseq[1 := blkseq[1] - {k}];
    }

    method Roll(now: int)
      requires Valid()
      modifies this
      ensures Valid() && State() == old(State()).Rolled(now)
    {
      blkseq := [map[], blkseq[0]];
      lastLsn := [lastLsn[0], lastLsn[0]];
      lastRoll := now;
      cleaner := Away;
    }

    method Sample(now: int)
      requires Valid() && cleaner.Away?
      modifies this`cleaner
      ensures Valid() && State() == old(State()).Sample(now)
    {
      cleaner := AtMutex(now);
    }

    method CleanBegin(maxage: int)
      requires Valid() && cleaner.AtMutex?
      modifies this
      ensures Valid() && State() == old(State()).CleanBegin(maxage)
    {
      var now := cleaner.clock;
      if now - lastRoll < maxage {
        cleaner := Away;
        return;
      }
      if lastLsn[1].file != 0 {
        cleaner := InWindow(now);
        return;
      }
      Roll(now);
    }

    method CleanEnd(first: Option<Lsn>)
      requires Valid() && cleaner.InWindow?
      modifies this
      ensures Valid() && State() == old(State()).CleanEnd(first)
    {
      if first.Some? && first.value.file <= lastLsn[1].file {
        cleaner := Away;
        return;
      }
      Roll(cleaner.clock);
    }

    method ForgetLog(logfile: nat)
      requires Valid()
      modifies this`logList
      ensures Valid() && State() == old(State()).ForgetLog(logfile)
    {
      var kept := [];
      var i := 0;
      while i < |logList|
        invariant 0 <= i <= |logList|
        invariant kept + WithoutLog(logList[i..], logfile) == WithoutLog(logList, logfile)
      {
        if logList[i].logfile != logfile {
          kept := kept + [logList[i]];
        }
        i := i + 1;
      }
      logList := kept;
    }
  }
}
