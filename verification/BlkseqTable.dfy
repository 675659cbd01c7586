/**
 The whole replay-detection table: an array of stripes, each key living in the stripe its bytes select.
 Callers see one map from request to response.
 */
module BlkseqTable {
  import opened Lsns
  import opened BlkseqStripe
  import opened BlkseqRuns

  function XorAll(k: Key): bv8 {
    if k == [] then 0 else XorAll(k[..|k| - 1]) ^ k[|k| - 1]
  }

  function StripeOf(k: Key, nstripes: nat): (i: nat)
    requires nstripes > 0
    ensures i < nstripes
  {
    (XorAll(k) as int) % nstripes
  }

  /** Every key is in the stripe it selects. */
  predicate Routed(states: seq<StripeState>) {
    |states| > 0 &&
    forall i, k :: 0 <= i < |states| && k in states[i].View() ==> StripeOf(k, |states|) == i
  }

  function Merge(states: seq<StripeState>, n: nat): Tree
    requires n <= |states|
  {
    if n == 0 then map[] else Merge(states, n - 1) + states[n - 1].View()
  }

  /** The one map the striped table stands for. */
  function Contents(states: seq<StripeState>): Tree { Merge(states, |states|) }

  lemma {:induction false} MergeAt(states: seq<StripeState>, n: nat, k: Key)
    requires Routed(states) && n <= |states|
    ensures var i := StripeOf(k, |states|);
            (k in Merge(states, n) <==> i < n && k in states[i].View())
            && (k in Merge(states, n) ==> Merge(states, n)[k] == states[i].View()[k])
  {
    if n > 0 {
      MergeAt(states, n - 1, k);
    }
  }

  /** Asking the selected stripe is asking the one map. */
  lemma FindAnswersMap(states: seq<StripeState>, k: Key)
    requires Routed(states)
    ensures states[StripeOf(k, |states|)].Find(k)
            == if k in Contents(states) then Some(Contents(states)[k]) else None
  {
    MergeAt(states, |states|, k);
  }

  predicate Keyed(step: Step) { step.Find? || step.Insert? || step.Redo? || step.Undo? }

  /** Keys a step makes unanswerable by dropping the aged tree. */
  function Dropped(maxage: int, s: StripeState, step: Step): set<Key> {
    if Rolls(maxage, s, step) then s.aged.Keys - s.young.Keys else {}
  }

  /** The step's effect on the one map. */
  function OnMap(m: Tree, step: Step, dropped: set<Key>, inYoung: bool): Tree {
    match step
    case Insert(k, d, _, _, overwrite) => if k in m && !overwrite then m else m[k := d]
    case Redo(k, d, _, _) => if inYoung then m else m[k := d]
    case Undo(k) => m - {k}
    case CleanBegin => m - dropped
    case CleanEnd(_) => m - dropped
    case _ => m
  }

  function MapEffect(maxage: int, s: StripeState, m: Tree, step: Step): Tree {
    OnMap(m, step, Dropped(maxage, s, step), Keyed(step) && step.k in s.young)
  }

  lemma PutOnView(s: StripeState, k: Key, d: Response)
    ensures s.Put(k, d).View() == s.View()[k := d]
  {
  }

  lemma RollOnView(s: StripeState, now: int)
    ensures s.Rolled(now).View() == s.View() - (s.aged.Keys - s.young.Keys)
  {
  }

  lemma UndoOnView(s: StripeState, k: Key)
    ensures s.Undo(k).View() == s.View() - {k}
  {
  }

  lemma StepOnView(maxage: int, s: StripeState, step: Step)
    requires Enabled(s, step)
    ensures Next(maxage, s, step).View() == MapEffect(maxage, s, s.View(), step)
  {
    match step
    case Insert(k, d, now, tran, overwrite) => PutOnView(s, k, d);
    case Redo(k, d, _, _) => assert s.aged + s.young[k := d] == s.View()[k := d];
    case Undo(k) => UndoOnView(s, k);
    case CleanBegin => RollOnView(s, s.cleaner.clock);
    case CleanEnd(_) => RollOnView(s, s.cleaner.clock);
    case Sample(_) =>
    case Find(_) =>
    case ForgetLog(_) =>
  }

  lemma StepStaysRouted(maxage: int, states: seq<StripeState>, i: nat, step: Step)
    requires Routed(states) && i < |states| && Enabled(states[i], step)
    requires Keyed(step) ==> i == StripeOf(step.k, |states|)
    ensures Routed(states[i := Next(maxage, states[i], step)])
  {
    StepOnView(maxage, states[i], step);
  }

  /**
   The striped two-tree table refines one map. A step on the stripe its key selects (or a cleaner's step
   on any stripe) has the plain map effect on the contents of the whole table: insert adds unless present,
   overwrite replaces, undo removes, a roll removes only keys of its own aged tree.
   */
  lemma StepRefinesMap(maxage: int, states: seq<StripeState>, i: nat, step: Step)
    requires Routed(states) && i < |states| && Enabled(states[i], step)
    requires Keyed(step) ==> i == StripeOf(step.k, |states|)
    ensures var after := states[i := Next(maxage, states[i], step)];
            Routed(after) && Contents(after) == MapEffect(maxage, states[i], Contents(states), step)
  {
    var s, t := states[i], Next(maxage, states[i], step);
    var after := states[i := t];
    StepOnView(maxage, s, step);
    StepStaysRouted(maxage, states, i, step);
    var wanted := MapEffect(maxage, s, Contents(states), step);
    forall k ensures k in Contents(after) <==> k in wanted
      ensures k in Contents(after) ==> Contents(after)[k] == wanted[k]
    {
      MergeAt(states, |states|, k);
      MergeAt(after, |after|, k);
      if Keyed(step) {
        MergeAt(states, |states|, step.k);
      }
    }
  }

  // ----- May a log file be deleted? -----

  /** No stripe has a recent entry for the file. */
  predicate Deletable(states: seq<StripeState>, logfile: nat, now: int, maxage: int) {
    forall i, j :: 0 <= i < |states| && 0 <= j < |states[i].logList| && states[i].logList[j].logfile == logfile
      ==> now - states[i].logList[j].timestamp > maxage
  }

  function ForgetLogEverywhere(states: seq<StripeState>, logfile: nat): seq<StripeState> {
    seq(|states|, i requires 0 <= i < |states| => states[i].ForgetLog(logfile))
  }

  predicate NeverWritten(run: Run, logfile: nat)
    requires run.Valid()
  {
    forall m :: 0 <= m < |run.steps| ==>
      var w := Writes(run.states[m], run.steps[m]); w.Some? ==> w.value.logfile != logfile
  }

  predicate AllValid(runs: seq<Run>) { forall i :: 0 <= i < |runs| ==> runs[i].Valid() }

  /** The stripes at the end of their runs. */
  function Ends(runs: seq<Run>): (r: seq<StripeState>)
    requires AllValid(runs)
    ensures |r| == |runs| && forall i :: 0 <= i < |runs| ==> r[i] == runs[i].states[|runs[i].steps|]
  {
    seq(|runs|, i requires 0 <= i < |runs| => runs[i].states[|runs[i].steps|])
  }

  /** A yes stands: once the entries are gone, later questions get yes at any clock, until a blkseq is
      written to that file again. */
  lemma DeletableStays(states: seq<StripeState>, runs: seq<Run>, logfile: nat, now: int, maxage: int)
    requires |runs| == |states| && AllValid(runs)
    requires forall i :: 0 <= i < |runs| ==> runs[i].states[0] == ForgetLogEverywhere(states, logfile)[i]
    requires forall i :: 0 <= i < |runs| ==> NeverWritten(runs[i], logfile)
    ensures Deletable(Ends(runs), logfile, now, maxage)
  {
    forall i | 0 <= i < |runs| ensures !HasEntry(Ends(runs)[i].logList, logfile) {
      WithoutLogSubset(states[i].logList, logfile);
      NoEntryStays(runs[i], |runs[i].steps|, logfile);
    }
  }

  predicate ForgetsAfter(run: Run, m: nat, logfile: nat) {
    exists k :: m < k < |run.steps| && run.steps[k] == ForgetLog(logfile)
  }

  /** Every recent entry for the file that a stripe gets during its run is forgotten again before the end. */
  ghost predicate NoRecentAdd(run: Run, logfile: nat, now: int, maxage: int)
    requires run.Valid()
  {
    forall m: nat, e :: AddsAt(run, m, e) && e.logfile == logfile && now - e.timestamp <= maxage ==>
      ForgetsAfter(run, m, logfile)
  }

  predicate StripeDeletable(s: StripeState, logfile: nat, now: int, maxage: int) {
    forall e :: e in s.logList && e.logfile == logfile ==> now - e.timestamp > maxage
  }

  lemma DeletablePerStripe(states: seq<StripeState>, logfile: nat, now: int, maxage: int)
    ensures Deletable(states, logfile, now, maxage) <==>
            forall i :: 0 <= i < |states| ==> StripeDeletable(states[i], logfile, now, maxage)
  {
    if forall i :: 0 <= i < |states| ==> StripeDeletable(states[i], logfile, now, maxage) {
      forall i, j | 0 <= i < |states| && 0 <= j < |states[i].logList| && states[i].logList[j].logfile == logfile
        ensures now - states[i].logList[j].timestamp > maxage
      {
        assert StripeDeletable(states[i], logfile, now, maxage) && states[i].logList[j] in states[i].logList;
      }
    }
  }

  lemma LatePassOnStripe(run: Run, logfile: nat, now: int, maxage: int)
    requires run.Valid() && StripeDeletable(run.states[0], logfile, now, maxage)
    ensures StripeDeletable(run.states[|run.steps|], logfile, now, maxage) <==> NoRecentAdd(run, logfile, now, maxage)
  {
    var n := |run.steps|;
    if NoRecentAdd(run, logfile, now, maxage) {
      forall e | e in run.states[n].logList && e.logfile == logfile ensures now - e.timestamp > maxage {
        if now - e.timestamp <= maxage {
          var m := LatestAdd(run, n, e);
        }
      }
    }
    if StripeDeletable(run.states[n], logfile, now, maxage) {
      forall m: nat, e | AddsAt(run, m, e) && e.logfile == logfile && now - e.timestamp <= maxage
        ensures ForgetsAfter(run, m, logfile)
      {
        StepOnEntry(run.maxage, run.states[m], run.steps[m], e);
        if !ForgetsAfter(run, m, logfile) {
          EntryStays(run, m + 1, n, e);
        }
      }
    }
  }

  /**
   The removing pass comes after the counting pass, and each pass locks one stripe at a time; `runs[i]` is what
   stripe `i` does between its two locked regions. After a count that found every entry old enough, every entry
   that is removed is old enough if and only if no stripe gets a recent entry for the file meanwhile that it does
   not forget again.
   */
  lemma LatePassCondition(runs: seq<Run>, logfile: nat, now: int, maxage: int)
    requires AllValid(runs) && forall i :: 0 <= i < |runs| ==> StripeDeletable(runs[i].states[0], logfile, now, maxage)
    ensures Deletable(Ends(runs), logfile, now, maxage) <==>
            forall i :: 0 <= i < |runs| ==> NoRecentAdd(runs[i], logfile, now, maxage)
  {
    var ends := Ends(runs);
    DeletablePerStripe(ends, logfile, now, maxage);
    forall i | 0 <= i < |runs|
      ensures StripeDeletable(ends[i], logfile, now, maxage) <==> NoRecentAdd(runs[i], logfile, now, maxage)
    {
      LatePassOnStripe(runs[i], logfile, now, maxage);
    }
  }

  // ----- What a yes is worth -----

  /** Step `m` of stripe `i` writes the blkseq `w` to the log. */
  predicate WritesAt(runs: seq<Run>, i: nat, m: nat, w: SeenLog)
    requires AllValid(runs)
  {
    i < |runs| && m < |runs[i].steps| && Writes(runs[i].states[m], runs[i].steps[m]) == Some(w)
  }

  /** The clock has not gone back since any of the writes. */
  ghost predicate ClockAfter(runs: seq<Run>, now: int)
    requires AllValid(runs)
  {
    forall i: nat, m: nat, w :: WritesAt(runs, i, m, w) ==> w.timestamp <= now
  }

  /** No blkseq in the file is within `maxage` of the clock. */
  ghost predicate AllOlder(runs: seq<Run>, logfile: nat, now: int, maxage: int)
    requires AllValid(runs)
  {
    forall i: nat, m: nat, w :: WritesAt(runs, i, m, w) && w.logfile == logfile ==> now - w.timestamp > maxage
  }

  /** Some stripe's entry for the file is at least as late. */
  predicate Covered(states: seq<StripeState>, logfile: nat, time: int) {
    exists i, j :: 0 <= i < |states| && 0 <= j < |states[i].logList| &&
                   states[i].logList[j].logfile == logfile && time <= states[i].logList[j].timestamp
  }

  ghost predicate LongAgo(runs: seq<Run>, time: int, maxage: int)
    requires AllValid(runs)
  {
    exists i: nat, m: nat, w :: WritesAt(runs, i, m, w) && time + maxage < w.timestamp
  }

  /** The promise: whenever the file may go, nothing recent goes with it. */
  ghost predicate PromiseKept(runs: seq<Run>, logfile: nat, maxage: int)
    requires AllValid(runs)
  {
    forall now :: ClockAfter(runs, now) && Deletable(Ends(runs), logfile, now, maxage)
                  ==> AllOlder(runs, logfile, now, maxage)
  }

  /**
   After any runs of the stripes, every yes keeps the promise if and only if each blkseq in the file is no newer
   than the newest entry for the file over all stripes, or was already out of date when the last one was
   written. An entry carries the time of its stripe's first blkseq in the file only.
   */
  lemma DeletionPromiseCondition(runs: seq<Run>, logfile: nat, maxage: int)
    requires AllValid(runs)
    ensures PromiseKept(runs, logfile, maxage) <==>
            forall i: nat, m: nat, w :: WritesAt(runs, i, m, w) && w.logfile == logfile ==>
              Covered(Ends(runs), logfile, w.timestamp) || LongAgo(runs, w.timestamp, maxage)
  {
    forall i: nat, m: nat, w | WritesAt(runs, i, m, w) && w.logfile == logfile &&
                               !Covered(Ends(runs), logfile, w.timestamp) && !LongAgo(runs, w.timestamp, maxage)
      ensures !PromiseKept(runs, logfile, maxage)
    {
      BrokenPromise(runs, logfile, maxage, i, m, w);
    }
    if forall i: nat, m: nat, w :: WritesAt(runs, i, m, w) && w.logfile == logfile ==>
         Covered(Ends(runs), logfile, w.timestamp) || LongAgo(runs, w.timestamp, maxage) {
      forall now | ClockAfter(runs, now) && Deletable(Ends(runs), logfile, now, maxage)
        ensures AllOlder(runs, logfile, now, maxage)
      {
      }
    }
  }

  lemma BrokenPromise(runs: seq<Run>, logfile: nat, maxage: int, i: nat, m: nat, w: SeenLog)
    requires AllValid(runs) && WritesAt(runs, i, m, w) && w.logfile == logfile
    requires !Covered(Ends(runs), logfile, w.timestamp) && !LongAgo(runs, w.timestamp, maxage)
    ensures !PromiseKept(runs, logfile, maxage)
  {
    var now := w.timestamp + maxage;
    assert ClockAfter(runs, now) && Deletable(Ends(runs), logfile, now, maxage);
    assert !AllOlder(runs, logfile, now, maxage);
  }

  /** The table object, one `Stripe` per stripe mutex. */
  class Table {
    const stripes: seq<Stripe>
    const maxage: int
    const enabled: bool

    ghost predicate Valid()
      reads this, stripes
    {
      && |stripes| > 0
      && (forall i, j :: 0 <= i < j < |stripes| ==> stripes[i] != stripes[j])
      && (forall i :: 0 <= i < |stripes| ==> stripes[i].Valid())
      && Routed(States())
    }

    ghost function States(): (r: seq<StripeState>)
      reads this, stripes
      requires forall i :: 0 <= i < |stripes| ==> stripes[i].Valid()
      ensures |r| == |stripes|
    {
      seq(|stripes|, i requires 0 <= i < |stripes| && stripes[i].Valid() reads this, stripes => stripes[i].State())
    }

    constructor (nstripes: nat, maxage: int, enabled: bool, now: int)
      requires nstripes > 0
      ensures Valid() && fresh(stripes) && |stripes| == nstripes
      ensures this.maxage == maxage && this.enabled == enabled
      ensures forall i :: 0 <= i < nstripes ==> States()[i] == FreshStripe(now)
      ensures Contents(States()) == map[]
    {
      var made: seq<Stripe> := [];
      while |made| < nstripes
        invariant |made| <= nstripes && fresh(made)
        invariant forall i, j :: 0 <= i < j < |made| ==> made[i] != made[j]
        invariant forall i :: 0 <= i < |made| ==> made[i].Valid() && made[i].State() == FreshStripe(now)
      {
        var stripe := new Stripe(now);
        made := made + [stripe];
      }
      stripes := made;
      this.maxage := maxage;
      this.enabled := enabled;
      new;
      EmptyContents(States(), now, |States()|);
    }

    method GetStripe(k: Key) returns (i: nat)
      requires |stripes| > 0
      ensures i == StripeOf(k, |stripes|)
    {
      var stripe: bv8 := 0;
      for n := 0 to |k|
        invariant stripe == XorAll(k[..n])
      {
        assert k[..n + 1][..n] == k[..n];
        stripe := stripe ^ k[n];
      }
      assert k[..|k|] == k;
      i := (stripe as int) % |stripes|;
    }

    /** `None` is the answer both for a missing key and for a table that is switched off. */
    method Find(k: Key) returns (r: Option<Response>)
      requires Valid()
      ensures r == if enabled && k in Contents(States()) then Some(Contents(States())[k]) else None
    {
      if !enabled {
        return None;
      }
      var i := GetStripe(k);
      r := stripes[i].Find(k);
      FindAnswersMap(States(), k);
    }

    method Insert(k: Key, d: Response, now: int, tran: Option<Lsn>, overwrite: bool) returns (rc: InsertRc)
      requires Valid()
      modifies stripes
      ensures Valid()
      ensures !enabled ==> rc == Inserted && States() == old(States())
      ensures enabled ==>
                var i := StripeOf(k, |stripes|);
                States() == old(States())[i := old(States())[i].Insert(k, d, now, tran, overwrite)]
      ensures enabled ==> var m := old(Contents(States()));
                rc == (if k in m && !overwrite then Duplicate(m[k]) else Inserted)
                && Contents(States()) == (if k in m && !overwrite then m else m[k := d])
    {
      if !enabled {
        return Inserted;
      }
      var i := GetStripe(k);
      ghost var before := States();
      FindAnswersMap(before, k);
      StepRefinesMap(maxage, before, i, BlkseqRuns.Insert(k, d, now, tran, overwrite));
      rc := stripes[i].Insert(k, d, now, tran, overwrite);
      assert States() == before[i := before[i].Insert(k, d, now, tran, overwrite)];
    }

    /** Count the entries for the file, and those that are old enough. */
    method AllOld(logfile: nat, now: int) returns (yes: bool)
      requires Valid()
      ensures yes <==> Deletable(States(), logfile, now, maxage)
    {
      ghost var states := States();
      var found, numOk := 0, 0;
      for i := 0 to |stripes|
        invariant numOk <= found
        invariant numOk == found <==> Deletable(states[..i], logfile, now, maxage)
      {
        var list := stripes[i].logList;
        for j := 0 to |list|
          invariant numOk <= found
          invariant numOk == found <==>
                    (Deletable(states[..i], logfile, now, maxage) &&
                     forall n :: 0 <= n < j && list[n].logfile == logfile ==> now - list[n].timestamp > maxage)
        {
          if list[j].logfile == logfile {
            found := found + 1;
            if now - list[j].timestamp > maxage {
              numOk := numOk + 1;
            }
          }
        }
        assert states[..i + 1] == states[..i] + [states[i]];
        assert states[i].logList == list;
      }
      assert states[..|stripes|] == states;
      yes := found == numOk;
    }

    method ForgetLog(logfile: nat)
      requires Valid()
      modifies stripes
      ensures Valid()
      ensures States() == ForgetLogEverywhere(old(States()), logfile)
      ensures Contents(States()) == old(Contents(States()))
    {
      ghost var before := States();
      for i := 0 to |stripes|
        invariant forall j :: 0 <= j < |stripes| ==> stripes[j].Valid()
        invariant forall j :: 0 <= j < i ==> stripes[j].State() == before[j].ForgetLog(logfile)
        invariant forall j :: i <= j < |stripes| ==> stripes[j].State() == before[j]
      {
        stripes[i].ForgetLog(logfile);
      }
      assert States() == ForgetLogEverywhere(before, logfile);
      SameViews(before, States(), |before|);
    }

    /** Yes exactly when every entry for the file, in every stripe, is older than `maxage`; on a yes those
        entries are removed and nothing else changes. */
    method CanDeleteLog(logfile: nat, now: int) returns (yes: bool)
      requires Valid()
      modifies stripes
      ensures Valid()
      ensures yes <==> Deletable(old(States()), logfile, now, maxage)
      ensures States() == if yes then ForgetLogEverywhere(old(States()), logfile) else old(States())
      ensures Contents(States()) == old(Contents(States()))
    {
      yes := AllOld(logfile, now);
      if yes {
        ForgetLog(logfile);
      }
    }
  }

  lemma {:induction false} EmptyContents(states: seq<StripeState>, now: int, n: nat)
    requires n <= |states| && forall i :: 0 <= i < n ==> states[i] == FreshStripe(now)
    ensures Merge(states, n) == map[]
  {
    if n > 0 {
      EmptyContents(states, now, n - 1);
      assert FreshStripe(now).View() == map[];
    }
  }

  lemma {:induction false} SameViews(a: seq<StripeState>, b: seq<StripeState>, n: nat)
    requires |a| == |b| && n <= |a| && forall i :: 0 <= i < n ==> a[i].View() == b[i].View()
    ensures Merge(a, n) == Merge(b, n)
  {
    if n > 0 {
      SameViews(a, b, n - 1);
    }
  }
}
