/**
 Runs of one stripe: every interleaving of inserts, redo, undo and log forgetting with a cleaner that samples its
 clock before it takes the stripe mutex, and whose roll is split at the point where it releases it.
 */
module BlkseqRuns {
  import opened Lsns
  import opened BlkseqStripe

  datatype Step =
    | Find(k: Key)
    | Insert(k: Key, d: Response, now: int, tran: Option<Lsn>, overwrite: bool)
    | Redo(k: Key, d: Response, time: int, lsn: Lsn)
    | Undo(k: Key)
    | Sample(clock: int)
    | CleanBegin
    | CleanEnd(first: Option<Lsn>)
    | ForgetLog(logfile: nat)

  /** There is one cleaner thread. */
  predicate Enabled(s: StripeState, step: Step) {
    && (step.Sample? ==> s.cleaner.Away?)
    && (step.CleanBegin? ==> s.cleaner.AtMutex?)
    && (step.CleanEnd? ==> s.cleaner.InWindow?)
  }

  function Next(maxage: int, s: StripeState, step: Step): StripeState
    requires Enabled(s, step)
  {
    match step
    case Find(_) => s
    case Insert(k, d, now, tran, overwrite) => s.Insert(k, d, now, tran, overwrite)
    case Redo(k, d, time, lsn) => s.Redo(k, d, time, lsn)
    case Undo(k) => s.Undo(k)
    case Sample(clock) => s.Sample(clock)
    case CleanBegin => s.CleanBegin(maxage)
    case CleanEnd(first) => s.CleanEnd(first)
    case ForgetLog(logfile) => s.ForgetLog(logfile)
  }

  /** The step drops the aged tree. */
  predicate Rolls(maxage: int, s: StripeState, step: Step) {
    match step
    case CleanBegin => s.cleaner.AtMutex? && s.cleaner.clock - s.lastRoll >= maxage && s.agedLsn.file == 0
    case CleanEnd(first) => !(first.Some? && first.value.file <= s.agedLsn.file)
    case _ => false
  }

  /** The clock a rolling step sampled before it took the mutex. */
  function RollClock(s: StripeState, step: Step): int
    requires Enabled(s, step)
  {
    match step
    case CleanBegin => s.cleaner.clock
    case CleanEnd(_) => s.cleaner.clock
    case _ => s.lastRoll
  }

  /** A cleaner in its window has already found that a roll is due. */
  predicate WindowOk(maxage: int, s: StripeState) {
    s.cleaner.InWindow? ==> s.cleaner.clock - s.lastRoll >= maxage
  }

  datatype Run = Run(maxage: int, states: seq<StripeState>, steps: seq<Step>) {

    predicate Valid() {
      && |states| == |steps| + 1
      && WindowOk(maxage, states[0])
      && forall n :: 0 <= n < |steps| ==>
           Enabled(states[n], steps[n]) && states[n + 1] == Next(maxage, states[n], steps[n])
    }

    predicate RollsAt(n: int)
      requires Valid()
    {
      0 <= n < |steps| && Rolls(maxage, states[n], steps[n])
    }

    function ClockAt(n: nat): int
      requires Valid() && n < |steps|
    {
      RollClock(states[n], steps[n])
    }

    predicate Has(n: nat, k: Key)
      requires Valid() && n < |states|
    {
      states[n].Find(k).Some?
    }

    /** Step `n` puts `k` into a young tree that did not hold it. */
    predicate PlacesAt(n: nat, k: Key)
      requires Valid() && n < |steps|
    {
      k !in states[n].young && k in states[n + 1].young
    }

    /** Step `n` is a roll that makes `k` unanswerable. */
    predicate ForgetsAt(n: nat, k: Key)
      requires Valid() && n < |steps|
    {
      RollsAt(n) && Has(n, k) && !Has(n + 1, k)
    }

    /** `k` is answerable in every state from `lo` to `hi`. */
    predicate KeptFrom(lo: nat, hi: nat, k: Key)
      requires Valid() && hi < |states|
    {
      forall n :: lo <= n <= hi ==> Has(n, k)
    }

    predicate NoRollIn(lo: int, hi: int)
      requires Valid()
    {
      forall n :: lo <= n < hi ==> !RollsAt(n)
    }
  }

  // ----- Forgetting takes two rolls -----

  /** Where the cleaner is after a step that does not roll. */
  function CleanerAfter(maxage: int, s: StripeState, step: Step): CleanerAt
    requires Enabled(s, step)
  {
    match step
    case Sample(clock) => AtMutex(clock)
    case CleanBegin => if s.cleaner.clock - s.lastRoll >= maxage then InWindow(s.cleaner.clock) else Away
    case CleanEnd(_) => Away
    case _ => s.cleaner
  }

  /** What a single step does, seen from one key. */
  lemma StepEffect(maxage: int, s: StripeState, step: Step, k: Key)
    requires Enabled(s, step)
    ensures var t := Next(maxage, s, step);
            if Rolls(maxage, s, step) then
              && t.young == map[] && t.aged == s.young && t.agedLsn == s.youngLsn && t.youngLsn == s.youngLsn
              && t.lastRoll == RollClock(s, step) && t.cleaner.Away?
            else
              && t.lastRoll == s.lastRoll && t.agedLsn == s.agedLsn
              && (k in t.aged ==> k in s.aged)
              && (k in s.young && t.Find(k).Some? ==> k in t.young)
              && (k in s.aged && t.Find(k).Some? ==> k in t.aged)
              && t.cleaner == CleanerAfter(maxage, s, step)
    ensures WindowOk(maxage, s) ==> WindowOk(maxage, Next(maxage, s, step))
    ensures Rolls(maxage, s, step) && WindowOk(maxage, s) ==> RollClock(s, step) - s.lastRoll >= maxage
  {
  }

  lemma {:induction false} WindowStaysOk(run: Run, n: nat)
    requires run.Valid() && n < |run.states|
    ensures WindowOk(run.maxage, run.states[n])
  {
    if n > 0 {
      WindowStaysOk(run, n - 1);
      StepEffect(run.maxage, run.states[n - 1], run.steps[n - 1], []);
    }
  }

  lemma {:induction false} QuietKeepsTrees(run: Run, lo: nat, hi: nat, k: Key)
    requires run.Valid() && lo <= hi < |run.states|
    requires run.NoRollIn(lo, hi)
    ensures run.states[hi].lastRoll == run.states[lo].lastRoll
    ensures run.states[hi].agedLsn == run.states[lo].agedLsn
    ensures run.KeptFrom(lo, hi, k) && k in run.states[lo].young ==> k in run.states[hi].young
    ensures k in run.states[hi].aged ==> k in run.states[lo].aged
    ensures k !in run.states[lo].young && (forall n: nat :: lo <= n < hi ==> !run.PlacesAt(n, k))
            ==> k !in run.states[hi].young
    decreases hi - lo
  {
    if lo < hi {
      QuietKeepsTrees(run, lo, hi - 1, k);
      assert !run.RollsAt(hi - 1);
      StepEffect(run.maxage, run.states[hi - 1], run.steps[hi - 1], k);
      if run.KeptFrom(lo, hi, k) {
        assert run.Has(hi, k);
      }
      assert k !in run.states[hi - 1].young && !run.PlacesAt(hi - 1, k) ==> k !in run.states[hi].young;
    }
  }

  /** The first roll at or after `lo`, before `hi`. */
  lemma {:induction false} FirstRoll(run: Run, lo: nat, hi: nat) returns (m: nat)
    requires run.Valid() && lo <= hi < |run.states|
    requires !run.NoRollIn(lo, hi)
    ensures lo <= m < hi && run.RollsAt(m) && run.NoRollIn(lo, m)
    decreases hi - lo
  {
    if run.RollsAt(lo) {
      m := lo;
    } else {
      m := FirstRoll(run, lo + 1, hi);
    }
  }

  /** Some roll separates putting a key in the young tree from forgetting it. */
  lemma ForgettingNeedsEarlierRoll(run: Run, lo: nat, j: nat, k: Key) returns (m: nat)
    requires run.Valid() && lo <= j < |run.steps|
    requires k in run.states[lo].young && run.KeptFrom(lo, j, k) && run.ForgetsAt(j, k)
    ensures lo <= m < j && run.RollsAt(m) && run.NoRollIn(lo, m) && k in run.states[m].young
  {
    StepEffect(run.maxage, run.states[j], run.steps[j], k);
    if run.NoRollIn(lo, j) {
      QuietKeepsTrees(run, lo, j, k);
      assert false;
    }
    m := FirstRoll(run, lo, j);
    QuietKeepsTrees(run, lo, m, k);
  }

  /**
   A key is forgotten only at the second roll after it was last put in the young tree, and the clocks
   sampled by those two rolls are at least `maxage` apart. This holds for every interleaving, with
   inserts running while the cleaner is outside the mutex.
   */
  lemma ForgottenAtSecondRoll(run: Run, i: nat, j: nat, k: Key) returns (m: nat)
    requires run.Valid() && i < j < |run.steps|
    requires run.PlacesAt(i, k) && forall n: nat :: i < n < j ==> !run.PlacesAt(n, k)
    requires run.KeptFrom(i + 1, j, k) && run.ForgetsAt(j, k)
    ensures i < m < j && run.RollsAt(m)
    ensures forall n :: i < n < j && run.RollsAt(n) ==> n == m
    ensures run.ClockAt(j) - run.ClockAt(m) >= run.maxage
  {
    m := ForgettingNeedsEarlierRoll(run, i + 1, j, k);
    StepEffect(run.maxage, run.states[m], run.steps[m], k);
    if !run.NoRollIn(m + 1, j) {
      // A further roll would already have dropped the key.
      var r := FirstRoll(run, m + 1, j);
      QuietKeepsTrees(run, m + 1, r, k);
      assert run.Has(r + 1, k);
      StepEffect(run.maxage, run.states[r], run.steps[r], k);
      assert false;
    }
    QuietKeepsTrees(run, m + 1, j, k);
    WindowStaysOk(run, j);
    StepEffect(run.maxage, run.states[j], run.steps[j], k);
  }

  // ----- How long a response is kept -----

  /** The clock has not gone back since `t`: whatever a cleaner samples during the run is at least that. */
  predicate ClocksFrom(run: Run, t: int) {
    forall n :: 0 <= n < |run.steps| && run.steps[n].Sample? ==> run.steps[n].clock >= t
  }

  /** However the stripe goes on from `s`, `k` is not forgotten before the clock reaches `t + maxage`. */
  ghost predicate RetainedForMaxage(maxage: int, s: StripeState, k: Key, t: int) {
    forall run: Run, j: nat ::
      run.Valid() && run.maxage == maxage && run.states[0] == s && ClocksFrom(run, t) &&
      j < |run.steps| && run.KeptFrom(0, j, k) && run.ForgetsAt(j, k)
      ==> run.ClockAt(j) - t >= maxage
  }

  /** The cleaner holds a clock from before `t` that may still roll the stripe. */
  predicate HoldsOldClock(maxage: int, s: StripeState, t: int) {
    match s.cleaner
    case Away => false
    case AtMutex(clock) => clock < t && clock - s.lastRoll >= maxage
    case InWindow(clock) => clock < t
  }

  lemma {:induction false} ClocksAfterRoll(run: Run, t: int, n: nat)
    requires run.Valid() && ClocksFrom(run, t) && n < |run.states|
    ensures !run.NoRollIn(0, n) && !run.states[n].cleaner.Away? ==> run.states[n].cleaner.clock >= t
    ensures !HoldsOldClock(run.maxage, run.states[0], t)
            ==> !HoldsOldClock(run.maxage, run.states[n], t) && (!run.NoRollIn(0, n) ==> run.states[n].lastRoll >= t)
  {
    if n > 0 {
      ClocksAfterRoll(run, t, n - 1);
      StepEffect(run.maxage, run.states[n - 1], run.steps[n - 1], []);
      assert run.NoRollIn(0, n) <==> run.NoRollIn(0, n - 1) && !run.RollsAt(n - 1);
    }
  }

  /** With no cleaner holding an older clock, two rolls after `t` are needed. */
  lemma RetainedWhenClockFresh(maxage: int, s: StripeState, k: Key, t: int)
    requires k in s.young
    requires maxage <= 0 || !HoldsOldClock(maxage, s, t)
    ensures RetainedForMaxage(maxage, s, k, t)
  {
    forall run: Run, j: nat |
      run.Valid() && run.maxage == maxage && run.states[0] == s && ClocksFrom(run, t) &&
      j < |run.steps| && run.KeptFrom(0, j, k) && run.ForgetsAt(j, k)
      ensures run.ClockAt(j) - t >= maxage
    {
      var m := ForgettingNeedsEarlierRoll(run, 0, j, k);
      assert !run.NoRollIn(0, j);
      ClocksAfterRoll(run, t, j);
      WindowStaysOk(run, j);
      StepEffect(maxage, run.states[j], run.steps[j], k);
    }
  }

  /** A run with one more step in front. */
  function Before(s: StripeState, step: Step, run: Run): Run {
    Run(run.maxage, [s] + run.states, [step] + run.steps)
  }

  lemma BeforeAt(s: StripeState, step: Step, run: Run, n: nat)
    requires n < |run.steps| && |run.states| == |run.steps| + 1
    ensures var more := Before(s, step, run);
            && more.states[n + 1] == run.states[n] && more.states[n + 2] == run.states[n + 1]
            && more.steps[n + 1] == run.steps[n]
  {
  }

  lemma BeforeIsValid(s: StripeState, step: Step, run: Run)
    requires Enabled(s, step) && WindowOk(run.maxage, s) && run.Valid() && run.states[0] == Next(run.maxage, s, step)
    ensures Before(s, step, run).Valid()
  {
    var more := Before(s, step, run);
    forall n | 0 <= n < |more.steps|
      ensures Enabled(more.states[n], more.steps[n])
      ensures more.states[n + 1] == Next(more.maxage, more.states[n], more.steps[n])
    {
      if n > 0 {
        BeforeAt(s, step, run, n - 1);
      }
    }
  }

  lemma BeforeKeeps(s: StripeState, step: Step, run: Run, j: nat, k: Key)
    requires run.Valid() && Before(s, step, run).Valid() && s.Find(k).Some?
    requires j < |run.steps| && run.KeptFrom(0, j, k)
    ensures Before(s, step, run).KeptFrom(0, j + 1, k)
  {
    var more := Before(s, step, run);
    forall n | 0 <= n <= j + 1 ensures more.Has(n, k) {
      if n > 0 {
        BeforeAt(s, step, run, n - 1);
        assert run.Has(n - 1, k);
      }
    }
  }

  lemma BeforeIsRun(s: StripeState, step: Step, run: Run, j: nat, k: Key)
    requires Enabled(s, step) && WindowOk(run.maxage, s) && s.Find(k).Some?
    requires run.Valid() && run.states[0] == Next(run.maxage, s, step)
    requires j < |run.steps| && run.KeptFrom(0, j, k) && run.ForgetsAt(j, k)
    ensures var more := Before(s, step, run);
            && more.Valid() && more.KeptFrom(0, j + 1, k) && more.ForgetsAt(j + 1, k)
            && more.ClockAt(j + 1) == run.ClockAt(j) && more.steps[j + 1] == run.steps[j]
  {
    BeforeIsValid(s, step, run);
    BeforeKeeps(s, step, run, j, k);
    BeforeAt(s, step, run, j);
  }

  lemma LostBefore(maxage: int, s: StripeState, step: Step, k: Key, t: int)
    requires Enabled(s, step) && WindowOk(maxage, s) && s.Find(k).Some? && (step.Sample? ==> step.clock >= t)
    requires !RetainedForMaxage(maxage, Next(maxage, s, step), k, t)
    ensures !RetainedForMaxage(maxage, s, k, t)
  {
    var run: Run, j: nat :|
      && run.Valid() && run.maxage == maxage && run.states[0] == Next(maxage, s, step) && ClocksFrom(run, t)
      && j < |run.steps| && run.KeptFrom(0, j, k) && run.ForgetsAt(j, k) && run.ClockAt(j) - t < maxage;
    BeforeIsRun(s, step, run, j, k);
    var more := Before(s, step, run);
    assert ClocksFrom(more, t);
  }

  /** Once a response is in the aged tree only, the next roll forgets it. */
  lemma LostAtNextRoll(maxage: int, s: StripeState, k: Key, t: int)
    requires WindowOk(maxage, s) && k !in s.young && k in s.aged && !s.cleaner.Away?
    requires s.cleaner.clock - s.lastRoll >= maxage && s.cleaner.clock - t < maxage
    ensures !RetainedForMaxage(maxage, s, k, t)
    decreases s.cleaner.AtMutex?
  {
    if s.cleaner.AtMutex? && s.agedLsn.file != 0 {
      LostAtNextRoll(maxage, s.CleanBegin(maxage), k, t);
      LostBefore(maxage, s, CleanBegin, k, t);
    } else {
      var step := if s.cleaner.AtMutex? then CleanBegin else CleanEnd(None);
      var run := Run(maxage, [s, Next(maxage, s, step)], [step]);
      assert run.Valid() && ClocksFrom(run, t) && run.KeptFrom(0, 0, k) && run.ForgetsAt(0, k);
      assert run.ClockAt(0) - t < maxage;
    }
  }

  /** A roll with an older clock is due again too early. */
  lemma LostAfterOldRoll(maxage: int, s: StripeState, k: Key, t: int)
    requires maxage > 0 && s.cleaner.Away? && k !in s.young && k in s.aged && s.lastRoll < t
    ensures !RetainedForMaxage(maxage, s, k, t)
  {
    var clock := MaxInt(t, s.lastRoll + maxage);
    LostAtNextRoll(maxage, s.Sample(clock), k, t);
    LostBefore(maxage, s, Sample(clock), k, t);
  }

  lemma LostWhenClockStale(maxage: int, s: StripeState, k: Key, t: int)
    requires k in s.young && WindowOk(maxage, s) && maxage > 0 && HoldsOldClock(maxage, s, t)
    ensures !RetainedForMaxage(maxage, s, k, t)
    decreases s.cleaner.AtMutex?
  {
    if s.cleaner.AtMutex? && s.agedLsn.file != 0 {
      LostWhenClockStale(maxage, s.CleanBegin(maxage), k, t);
      LostBefore(maxage, s, CleanBegin, k, t);
    } else {
      var step := if s.cleaner.AtMutex? then CleanBegin else CleanEnd(None);
      LostAfterOldRoll(maxage, Next(maxage, s, step), k, t);
      LostBefore(maxage, s, step, k, t);
    }
  }

  /**
   A response stored at time `t` is answerable for `maxage` seconds, whatever happens next, exactly when no cleaner
   holds a clock sampled before `t` with which it may still roll: in its unlock window, or waiting for the mutex
   with a roll due. Such a roll puts the new key straight in the aged tree, stamped with a roll time older than
   the key itself.
   */
  lemma RetentionCondition(maxage: int, s: StripeState, k: Key, d: Response, t: int, tran: Option<Lsn>)
    requires s.Find(k).None? && WindowOk(maxage, s)
    ensures RetainedForMaxage(maxage, s.Insert(k, d, t, tran, false), k, t)
            <==> maxage <= 0 || !HoldsOldClock(maxage, s, t)
  {
    var after := s.Insert(k, d, t, tran, false);
    if maxage <= 0 || !HoldsOldClock(maxage, s, t) {
      RetainedWhenClockFresh(maxage, after, k, t);
    } else {
      LostWhenClockStale(maxage, after, k, t);
    }
  }

  // ----- A record's log file is gone before its key is dropped -----

  /** The log never hands out an earlier LSN. */
  predicate LsnsAscend(run: Run)
    requires run.Valid()
  {
    forall n :: 0 <= n < |run.steps| ==> run.states[n].youngLsn.AtMost(run.states[n + 1].youngLsn)
  }

  /** However the stripe goes on from `s`, `k` is dropped only by a cleaner that went to the log and
      found no record in `logfile` or before. */
  ghost predicate KeptWhileLogged(maxage: int, s: StripeState, k: Key, logfile: nat) {
    forall run: Run, j: nat ::
      run.Valid() && run.maxage == maxage && run.states[0] == s && LsnsAscend(run) &&
      j < |run.steps| && run.KeptFrom(0, j, k) && run.ForgetsAt(j, k)
      ==> run.steps[j].CleanEnd? && (run.steps[j].first.Some? ==> run.steps[j].first.value.file > logfile)
  }

  lemma {:induction false} AgedLsnCovers(run: Run, n: nat, logfile: nat)
    requires run.Valid() && LsnsAscend(run) && n < |run.states|
    requires run.states[0].youngLsn.file >= logfile
    ensures run.states[n].youngLsn.file >= logfile
    ensures run.states[0].agedLsn.file >= logfile || !run.NoRollIn(0, n)
            ==> run.states[n].agedLsn.file >= logfile
  {
    if n > 0 {
      AgedLsnCovers(run, n - 1, logfile);
      StepEffect(run.maxage, run.states[n - 1], run.steps[n - 1], []);
      assert run.NoRollIn(0, n) <==> run.NoRollIn(0, n - 1) && !run.RollsAt(n - 1);
    }
  }

  lemma BeforeAscends(s: StripeState, step: Step, run: Run)
    requires run.Valid() && LsnsAscend(run) && Before(s, step, run).Valid()
    requires s.youngLsn == run.states[0].youngLsn
    ensures LsnsAscend(Before(s, step, run))
  {
    var more := Before(s, step, run);
    forall n | 0 <= n < |more.steps| ensures more.states[n].youngLsn.AtMost(more.states[n + 1].youngLsn) {
      if n > 0 {
        BeforeAt(s, step, run, n - 1);
        assert run.states[n - 1].youngLsn.AtMost(run.states[n].youngLsn);
      }
    }
  }

  lemma DroppedBefore(maxage: int, s: StripeState, step: Step, k: Key, logfile: nat)
    requires Enabled(s, step) && WindowOk(maxage, s) && s.Find(k).Some? && (step.Sample? || step.CleanBegin?)
    requires !KeptWhileLogged(maxage, Next(maxage, s, step), k, logfile)
    ensures !KeptWhileLogged(maxage, s, k, logfile)
  {
    var run: Run, j: nat :|
      && run.Valid() && run.maxage == maxage && run.states[0] == Next(maxage, s, step) && LsnsAscend(run)
      && j < |run.steps| && run.KeptFrom(0, j, k) && run.ForgetsAt(j, k)
      && !(run.steps[j].CleanEnd? && (run.steps[j].first.Some? ==> run.steps[j].first.value.file > logfile));
    BeforeIsRun(s, step, run, j, k);
    BeforeAscends(s, step, run);
  }

  predicate RollDue(maxage: int, s: StripeState) {
    !s.cleaner.Away? && s.cleaner.clock - s.lastRoll >= maxage
  }

  /** A cleaner that drops `k` from the aged tree although `logfile` still exists. */
  lemma DroppedWhileLogged(maxage: int, s: StripeState, k: Key, logfile: nat)
    requires WindowOk(maxage, s) && k !in s.young && k in s.aged && s.agedLsn.file < logfile
    ensures !KeptWhileLogged(maxage, s, k, logfile)
    decreases if RollDue(maxage, s) then 0 else if s.cleaner.Away? then 1 else 2, s.cleaner.AtMutex?
  {
    if s.cleaner.Away? {
      var clock := s.lastRoll + MaxInt(maxage, 0);
      DroppedWhileLogged(maxage, s.Sample(clock), k, logfile);
      DroppedBefore(maxage, s, Sample(clock), k, logfile);
    } else if s.cleaner.AtMutex? && (!RollDue(maxage, s) || s.agedLsn.file != 0) {
      DroppedWhileLogged(maxage, s.CleanBegin(maxage), k, logfile);
      DroppedBefore(maxage, s, CleanBegin, k, logfile);
    } else {
      var step := if s.cleaner.AtMutex? then CleanBegin else CleanEnd(Some(Lsn(s.agedLsn.file + 1, 0)));
      var run := Run(maxage, [s, Next(maxage, s, step)], [step]);
      assert run.Valid() && LsnsAscend(run) && run.KeptFrom(0, 0, k) && run.ForgetsAt(0, k);
    }
  }

  /**
   After a write of `k` logged at `s.youngLsn`: the key outlives the log file of its record exactly when
   the write went to the young tree or the aged tree's LSN already covers that file.
   */
  lemma LogGuardCondition(maxage: int, s: StripeState, k: Key)
    requires WindowOk(maxage, s) && s.Find(k).Some? && s.youngLsn.file >= 1
    ensures KeptWhileLogged(maxage, s, k, s.youngLsn.file)
            <==> k in s.young || s.agedLsn.file >= s.youngLsn.file
  {
    var logfile := s.youngLsn.file;
    if k in s.young || s.agedLsn.file >= logfile {
      forall run: Run, j: nat |
        run.Valid() && run.maxage == maxage && run.states[0] == s && LsnsAscend(run) &&
        j < |run.steps| && run.KeptFrom(0, j, k) && run.ForgetsAt(j, k)
        ensures run.steps[j].CleanEnd? && (run.steps[j].first.Some? ==> run.steps[j].first.value.file > logfile)
      {
        if k in s.young {
          var m := ForgettingNeedsEarlierRoll(run, 0, j, k);
          assert !run.NoRollIn(0, j);
        }
        AgedLsnCovers(run, j, logfile);
      }
    } else {
      DroppedWhileLogged(maxage, s, k, logfile);
    }
  }

  /** The same, seen before the write: only an overwrite of a key in the aged tree can go wrong. */
  lemma InsertLogGuard(maxage: int, s: StripeState, k: Key, d: Response, now: int, lsn: Lsn, overwrite: bool)
    requires WindowOk(maxage, s) && lsn.file >= 1
    requires s.Find(k).None? || overwrite
    ensures KeptWhileLogged(maxage, s.Insert(k, d, now, Some(lsn), overwrite), k, lsn.file)
            <==> k in s.young || k !in s.aged || s.agedLsn.file >= lsn.file
  {
    LogGuardCondition(maxage, s.Insert(k, d, now, Some(lsn), overwrite), k);
  }

  // ----- Undo and redo -----

  predicate Mentions(step: Step, k: Key) {
    (step.Insert? || step.Redo? || step.Undo?) && step.k == k
  }

  /** What a step does to the two trees, once it is known whether it rolls. */
  function TreeStep(trees: (Tree, Tree), step: Step, rolls: bool): (Tree, Tree) {
    var (y, a) := trees;
    if rolls then (map[], y)
    else match step
      case Insert(k, d, _, _, overwrite) =>
        if (k in y || k in a) && !overwrite then (y, a)
        else if k !in y && k in a then (y, a[k := d])
        else (y[k := d], a)
      case Redo(k, d, _, _) => if k in y then (y, a) else (y[k := d], a)
      case Undo(k) => (y - {k}, a - {k})
      case _ => (y, a)
  }

  /** The trees of a run that starts from `trees` instead, takes the same steps and rolls at the same
      points. */
  function TreesAfter(run: Run, trees: (Tree, Tree), n: nat): (Tree, Tree)
    requires run.Valid() && n < |run.states|
  {
    if n == 0 then trees
    else TreeStep(TreesAfter(run, trees, n - 1), run.steps[n - 1], run.RollsAt(n - 1))
  }

  lemma TreeStepWithout(trees: (Tree, Tree), step: Step, rolls: bool, k: Key)
    requires !Mentions(step, k)
    ensures var (y, a) := TreeStep(trees, step, rolls);
            TreeStep((trees.0 - {k}, trees.1 - {k}), step, rolls) == (y - {k}, a - {k})
  {
    if step.Insert? || step.Redo? {
      assert trees.0[step.k := step.d] - {k} == (trees.0 - {k})[step.k := step.d];
      assert trees.1[step.k := step.d] - {k} == (trees.1 - {k})[step.k := step.d];
    } else if step.Undo? {
      assert (trees.0 - {step.k}) - {k} == (trees.0 - {k}) - {step.k};
      assert (trees.1 - {step.k}) - {k} == (trees.1 - {k}) - {step.k};
    }
    var empty: Tree := map[];
    assert empty - {k} == empty;
  }

  lemma StepOnTrees(maxage: int, s: StripeState, step: Step)
    requires Enabled(s, step)
    ensures var t := Next(maxage, s, step);
            (t.young, t.aged) == TreeStep((s.young, s.aged), step, Rolls(maxage, s, step))
  {
  }

  /**
   Undo exactly reverses an insert. After a fresh insert of `k`, any steps that do not mention `k`, with
   any number of rolls, and the undo of `k`, both trees are what they would have been had the
   insert never happened.
   */
  lemma {:induction false} UndoErasesInsert(
    run: Run, s: StripeState, k: Key, d: Response, now: int, tran: Option<Lsn>, n: nat)
    requires run.Valid() && n < |run.states|
    requires s.Find(k).None? && run.states[0] == s.Insert(k, d, now, tran, false)
    requires forall i :: 0 <= i < n ==> !Mentions(run.steps[i], k)
    ensures var undone := run.states[n].Undo(k);
            (undone.young, undone.aged) == TreesAfter(run, (s.young, s.aged), n)
  {
    if n == 0 {
      assert s.young[k := d] - {k} == s.young && s.aged - {k} == s.aged;
    } else {
      UndoErasesInsert(run, s, k, d, now, tran, n - 1);
      var before := run.states[n - 1];
      TreeStepWithout((before.young, before.aged), run.steps[n - 1], run.RollsAt(n - 1), k);
      StepOnTrees(run.maxage, before, run.steps[n - 1]);
    }
  }

  /** The undone key has no answer and every other key keeps the one it had. */
  lemma UndoTouchesOneKey(s: StripeState, k: Key)
    ensures s.Undo(k).Find(k).None?
    ensures forall k' :: k' != k ==> s.Undo(k).Find(k') == s.Find(k')
  {
  }

  /** Redoing a log record again changes nothing exactly when no roll came in between. */
  lemma RedoAgain(run: Run, s: StripeState, k: Key, d: Response, time: int, lsn: Lsn, n: nat)
    requires run.Valid() && n < |run.states|
    requires run.states[0] == s.Redo(k, d, time, lsn)
    requires run.KeptFrom(0, n, k) && forall i: nat :: i < n ==> !run.PlacesAt(i, k)
    ensures run.states[n].Redo(k, d, time, lsn) == run.states[n] <==> run.NoRollIn(0, n)
  {
    if run.NoRollIn(0, n) {
      QuietKeepsTrees(run, 0, n, k);
    } else {
      var m := FirstRoll(run, 0, n);
      StepEffect(run.maxage, run.states[m], run.steps[m], k);
      NotPlacedStaysOut(run, m + 1, n, k);
    }
  }

  lemma {:induction false} NotPlacedStaysOut(run: Run, lo: nat, hi: nat, k: Key)
    requires run.Valid() && lo <= hi < |run.states|
    requires k !in run.states[lo].young && forall i: nat :: lo <= i < hi ==> !run.PlacesAt(i, k)
    ensures k !in run.states[hi].young
    decreases hi - lo
  {
    if lo < hi {
      NotPlacedStaysOut(run, lo, hi - 1, k);
      assert !run.PlacesAt(hi - 1, k);
    }
  }

  /** No step of a run puts a key in both trees, except the redo of a key that is in the aged tree. */
  lemma {:induction false} TreesStayDisjoint(run: Run, n: nat)
    requires run.Valid() && n < |run.states| && run.states[0].Disjoint()
    requires forall i :: 0 <= i < n && run.steps[i].Redo? ==> run.steps[i].k !in run.states[i].aged
    ensures run.states[n].Disjoint()
  {
    if n > 0 {
      TreesStayDisjoint(run, n - 1);
    }
  }

  lemma RedoBreaksDisjoint(s: StripeState, k: Key, d: Response, time: int, lsn: Lsn)
    requires s.Disjoint()
    ensures s.Redo(k, d, time, lsn).Disjoint() <==> k !in s.aged
  {
    if k in s.aged {
      assert k in s.Redo(k, d, time, lsn).young;
    }
  }

  // ----- The list of log files -----

  predicate Ascending(list: seq<SeenLog>) {
    forall i, j :: 0 <= i < j < |list| ==> list[i].logfile < list[j].logfile
  }

  predicate LogListOk(s: StripeState) {
    Ascending(s.logList) && forall i :: 0 <= i < |s.logList| ==> s.logList[i].logfile <= s.youngLsn.file
  }

  predicate HasEntry(list: seq<SeenLog>, logfile: nat) {
    exists i :: 0 <= i < |list| && list[i].logfile == logfile
  }

  lemma {:induction false} WithoutLogMembers(list: seq<SeenLog>, logfile: nat, e: SeenLog)
    ensures e in WithoutLog(list, logfile) <==> e in list && e.logfile != logfile
  {
    if list != [] {
      WithoutLogMembers(list[1..], logfile, e);
      assert list == [list[0]] + list[1..];
    }
  }

  predicate AllAbove(list: seq<SeenLog>, low: nat) { forall i :: 0 <= i < |list| ==> list[i].logfile > low }

  lemma {:induction false} WithoutLogAbove(list: seq<SeenLog>, logfile: nat, low: nat)
    requires AllAbove(list, low)
    ensures AllAbove(WithoutLog(list, logfile), low)
  {
    if list != [] {
      WithoutLogAbove(list[1..], logfile, low);
    }
  }

  lemma AscendingCons(e: SeenLog, rest: seq<SeenLog>)
    requires Ascending(rest) && AllAbove(rest, e.logfile)
    ensures Ascending([e] + rest)
  {
  }

  lemma AscendingTail(list: seq<SeenLog>)
    requires Ascending(list) && list != []
    ensures Ascending(list[1..]) && AllAbove(list[1..], list[0].logfile)
  {
  }

  lemma {:induction false} WithoutLogKeepsOrder(list: seq<SeenLog>, logfile: nat)
    requires Ascending(list)
    ensures Ascending(WithoutLog(list, logfile))
  {
    if list != [] {
      AscendingTail(list);
      WithoutLogKeepsOrder(list[1..], logfile);
      WithoutLogAbove(list[1..], logfile, list[0].logfile);
      AscendingCons(list[0], WithoutLog(list[1..], logfile));
    }
  }

  lemma NoteLogKeepsOrder(s: StripeState, lsn: Lsn, time: int)
    requires LogListOk(s) && s.youngLsn.AtMost(lsn)
    ensures LogListOk(s.Logged(lsn, time))
  {
  }

  lemma StepKeepsLogList(maxage: int, s: StripeState, step: Step)
    requires Enabled(s, step) && LogListOk(s)
    requires s.youngLsn.AtMost(Next(maxage, s, step).youngLsn)
    ensures LogListOk(Next(maxage, s, step))
  {
    match step
    case Insert(k, d, now, tran, _) =>
      if tran.Some? && Next(maxage, s, step) != s {
        NoteLogKeepsOrder(s.Put(k, d), tran.value, now);
      }
    case Redo(k, d, time, lsn) =>
      if k !in s.young {
        NoteLogKeepsOrder(s.(young := s.young[k := d]), lsn, time);
      }
    case ForgetLog(logfile) =>
      WithoutLogKeepsOrder(s.logList, logfile);
      var r := WithoutLog(s.logList, logfile);
      forall i | 0 <= i < |r| ensures r[i].logfile <= s.youngLsn.file {
        WithoutLogMembers(s.logList, logfile, r[i]);
      }
    case _ =>
  }

  lemma LogListNext(run: Run, n: nat)
    requires run.Valid() && LsnsAscend(run) && n < |run.steps| && LogListOk(run.states[n])
    ensures LogListOk(run.states[n + 1])
  {
    var s, step, t := run.states[n], run.steps[n], run.states[n + 1];
    assert Enabled(s, step) && t == Next(run.maxage, s, step);
    assert s.youngLsn.AtMost(t.youngLsn);
    StepKeepsLogList(run.maxage, s, step);
  }

  /** Log files in a stripe's list strictly increase, and none is beyond the last LSN. */
  lemma {:induction false} LogListAscends(run: Run, n: nat)
    requires run.Valid() && LsnsAscend(run) && LogListOk(run.states[0]) && n < |run.states|
    ensures LogListOk(run.states[n])
  {
    if n > 0 {
      LogListAscends(run, n - 1);
      LogListNext(run, n - 1);
    }
  }

  /** The blkseq record a step writes to the log, if any. */
  function Writes(s: StripeState, step: Step): Option<SeenLog> {
    match step
    case Insert(k, _, now, tran, overwrite) =>
      if tran.Some? && (s.Find(k).None? || overwrite) then Some(SeenLog(tran.value.file, now)) else None
    case Redo(k, _, time, lsn) => if k !in s.young then Some(SeenLog(lsn.file, time)) else None
    case _ => None
  }

  lemma NewEntry(maxage: int, s: StripeState, step: Step, e: SeenLog)
    requires Enabled(s, step) && LogListOk(s)
    requires s.youngLsn.AtMost(Next(maxage, s, step).youngLsn)
    requires e in Next(maxage, s, step).logList && e !in s.logList
    ensures Writes(s, step) == Some(e) && !HasEntry(s.logList, e.logfile)
  {
    if step.ForgetLog? {
      WithoutLogMembers(s.logList, step.logfile, e);
      assert false;
    }
    var last := |s.logList| - 1;
    assert forall i :: 0 <= i < last ==> s.logList[i].logfile < s.logList[last].logfile;
  }

  /**
   Where a list entry comes from: the record that was being written when the list had no entry for that
   file. The entry then stays until the file is forgotten.
   */
  lemma {:induction false} EntryOrigin(run: Run, n: nat, e: SeenLog) returns (i: nat)
    requires run.Valid() && LsnsAscend(run) && run.states[0].logList == [] && n < |run.states|
    requires e in run.states[n].logList
    ensures i < n && Writes(run.states[i], run.steps[i]) == Some(e)
    ensures !HasEntry(run.states[i].logList, e.logfile)
    ensures forall m :: i < m <= n ==> e in run.states[m].logList
  {
    if e in run.states[n - 1].logList {
      i := EntryOrigin(run, n - 1, e);
    } else {
      i := n - 1;
      LogListAscends(run, i);
      assert run.states[i].youngLsn.AtMost(run.states[n].youngLsn);
      NewEntry(run.maxage, run.states[i], run.steps[i], e);
    }
  }

  /** A file with no entry gets none while no blkseq is written to it. */
  lemma {:induction false} NoEntryStays(run: Run, n: nat, logfile: nat)
    requires run.Valid() && n < |run.states| && !HasEntry(run.states[0].logList, logfile)
    requires forall i :: 0 <= i < n ==>
               var w := Writes(run.states[i], run.steps[i]); w.Some? ==> w.value.logfile != logfile
    ensures !HasEntry(run.states[n].logList, logfile)
  {
    if n > 0 {
      NoEntryStays(run, n - 1, logfile);
      StepAddsNoEntry(run.maxage, run.states[n - 1], run.steps[n - 1], logfile);
    }
  }

  lemma StepAddsNoEntry(maxage: int, s: StripeState, step: Step, logfile: nat)
    requires Enabled(s, step) && !HasEntry(s.logList, logfile)
    requires Writes(s, step).Some? ==> Writes(s, step).value.logfile != logfile
    ensures !HasEntry(Next(maxage, s, step).logList, logfile)
  {
    if step.ForgetLog? {
      WithoutLogSubset(s.logList, step.logfile);
      var r := WithoutLog(s.logList, step.logfile);
      assert forall i :: 0 <= i < |r| ==> r[i] in s.logList;
    }
  }

  /** A blkseq for this file would get a new entry. */
  predicate Appends(list: seq<SeenLog>, logfile: nat) { list == [] || list[|list| - 1].logfile != logfile }

  /** Step `m` writes a blkseq and adds the entry `e` for it. */
  predicate AddsAt(run: Run, m: nat, e: SeenLog)
    requires run.Valid()
  {
    && m < |run.steps| && Writes(run.states[m], run.steps[m]) == Some(e)
    && Appends(run.states[m].logList, e.logfile)
  }

  lemma StepOnEntry(maxage: int, s: StripeState, step: Step, e: SeenLog)
    requires Enabled(s, step)
    ensures Writes(s, step) == Some(e) && Appends(s.logList, e.logfile) ==> e in Next(maxage, s, step).logList
    ensures e in s.logList ==> (e in Next(maxage, s, step).logList <==> step != ForgetLog(e.logfile))
    ensures e !in s.logList && e in Next(maxage, s, step).logList ==>
              Writes(s, step) == Some(e) && Appends(s.logList, e.logfile)
  {
    if step.ForgetLog? {
      WithoutLogMembers(s.logList, step.logfile, e);
    }
  }

  /** An entry stays until its file is forgotten. */
  lemma {:induction false} EntryStays(run: Run, m: nat, n: nat, e: SeenLog)
    requires run.Valid() && m <= n < |run.states| && e in run.states[m].logList
    requires forall k :: m <= k < n ==> run.steps[k] != ForgetLog(e.logfile)
    ensures e in run.states[n].logList
    decreases n
  {
    if m < n {
      EntryStays(run, m, n - 1, e);
      StepOnEntry(run.maxage, run.states[n - 1], run.steps[n - 1], e);
    }
  }

  /** An entry that was not there at the start was added, and its file not forgotten since. */
  lemma {:induction false} LatestAdd(run: Run, n: nat, e: SeenLog) returns (m: nat)
    requires run.Valid() && n < |run.states| && e in run.states[n].logList && e !in run.states[0].logList
    ensures m < n && AddsAt(run, m, e) && forall k :: m < k < n ==> run.steps[k] != ForgetLog(e.logfile)
  {
    StepOnEntry(run.maxage, run.states[n - 1], run.steps[n - 1], e);
    if e in run.states[n - 1].logList {
      m := LatestAdd(run, n - 1, e);
    } else {
      m := n - 1;
    }
  }

  lemma WithoutLogSubset(list: seq<SeenLog>, logfile: nat)
    ensures var r := WithoutLog(list, logfile);
            !HasEntry(r, logfile) && forall e :: e in r <==> e in list && e.logfile != logfile
  {
    forall e ensures e in WithoutLog(list, logfile) <==> e in list && e.logfile != logfile {
      WithoutLogMembers(list, logfile, e);
    }
    var r := WithoutLog(list, logfile);
    assert forall i :: 0 <= i < |r| ==> r[i] in r;
  }

  // ----- The point of the table: a retry gets its first answer -----

  /** The step can change the answer to `k`, other than by rolling. */
  predicate Rewrites(step: Step, k: Key) {
    match step
    case Insert(k', _, _, _, overwrite) => k' == k && overwrite
    case Redo(k', _, _, _) => k' == k
    case Undo(k') => k' == k
    case _ => false
  }

  lemma {:induction false} AnswerStands(run: Run, n: nat, k: Key, d: Response)
    requires run.Valid() && n < |run.states| && run.states[0].Find(k) == Some(d)
    requires forall i :: 0 <= i < n ==> !Rewrites(run.steps[i], k)
    requires forall i: nat :: i < n ==> !run.ForgetsAt(i, k)
    ensures run.states[n].Find(k) == Some(d)
    ensures run.KeptFrom(0, n, k)
  {
    if n > 0 {
      AnswerStands(run, n - 1, k, d);
      assert !run.ForgetsAt(n - 1, k) && !Rewrites(run.steps[n - 1], k);
      StepKeepsAnswer(run.maxage, run.states[n - 1], run.steps[n - 1], k);
    }
  }

  lemma StepKeepsAnswer(maxage: int, s: StripeState, step: Step, k: Key)
    requires Enabled(s, step) && !Rewrites(step, k) && s.Find(k).Some?
    requires Rolls(maxage, s, step) ==> Next(maxage, s, step).Find(k).Some?
    ensures Next(maxage, s, step).Find(k) == s.Find(k)
  {
  }

  /** The first step that forgets `k`, if there is one. */
  lemma {:induction false} FirstForget(run: Run, n: nat, k: Key) returns (j: Option<nat>)
    requires run.Valid() && n < |run.states|
    ensures j.None? ==> forall i: nat :: i < n ==> !run.ForgetsAt(i, k)
    ensures j.Some? ==> j.value < n && run.ForgetsAt(j.value, k)
                        && forall i: nat :: i < j.value ==> !run.ForgetsAt(i, k)
  {
    if n == 0 {
      j := None;
    } else {
      j := FirstForget(run, n - 1, k);
      if j.None? && run.ForgetsAt(n - 1, k) {
        j := Some(n - 1);
      }
    }
  }

  /**
   A request stored at `t`, when no cleaner holds an older clock with which it may still roll, and retried while
   every cleaner clock so far is below `t + maxage`, is told it is a duplicate and given the response stored first,
   whatever else the stripe did in between.
   */
  lemma RetryGetsFirstAnswer(run: Run, s: StripeState, k: Key, d: Response, t: int, tran: Option<Lsn>, n: nat)
    requires run.Valid() && n < |run.states| && ClocksFrom(run, t)
    requires s.Find(k).None? && run.states[0] == s.Insert(k, d, t, tran, false)
    requires run.maxage <= 0 || !HoldsOldClock(run.maxage, s, t)
    requires forall i :: 0 <= i < n ==> !Rewrites(run.steps[i], k)
    requires forall i :: 0 <= i < n && run.steps[i].Sample? ==> run.steps[i].clock < t + run.maxage
    requires !s.cleaner.Away? ==> s.cleaner.clock < t + run.maxage
    ensures run.states[n].Find(k) == Some(d)
  {
    var j := FirstForget(run, n, k);
    if j.Some? {
      AnswerStands(run, j.value, k, d);
      RetainedWhenClockFresh(run.maxage, run.states[0], k, t);
      assert run.ClockAt(j.value) - t >= run.maxage;
      ClocksBelow(run, j.value, t + run.maxage);
      assert false;
    }
    AnswerStands(run, n, k, d);
  }

  lemma {:induction false} ClocksBelow(run: Run, n: nat, bound: int)
    requires run.Valid() && n < |run.states|
    requires !run.states[0].cleaner.Away? ==> run.states[0].cleaner.clock < bound
    requires forall i :: 0 <= i < n && run.steps[i].Sample? ==> run.steps[i].clock < bound
    ensures !run.states[n].cleaner.Away? ==> run.states[n].cleaner.clock < bound
  {
    if n > 0 {
      ClocksBelow(run, n - 1, bound);
    }
  }
}
