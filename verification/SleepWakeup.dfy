/** proc.c:593-689: sleep and wakeup around a condition guarded by a spinlock `lk`, at the grain
    of single lock operations. `same` says that `lk` is ptable.lock itself, when sleep neither
    acquires ptable.lock nor releases `lk`. */
module SleepWakeup {
  datatype Pc =
    | Outside     // holds nothing
    | InLk        // holds lk
    | Tested      // holds lk and has found the condition false
    | HoldBoth    // sleep: ptable.lock acquired, lk not yet released
    | HoldPt      // sleep: lk released, about to mark itself SLEEPING
    | Asleep
    | Woken       // RUNNABLE again
    | Resumed     // back from sched, with ptable.lock
    | Changed     // holds lk and has made the condition true; wakeup is still to come
    | Waking      // wakeup: ptable.lock acquired, wakeup1 not yet run
    | WakeDone    // wakeup: wakeup1 has run

  const FREE := -1

  /** The holders of lk and ptable.lock (FREE if none), the condition, and where threads are. */
  datatype State = State(same: bool, lk: int, pt: int, cond: bool, pc: seq<Pc>)

  function LkHolder(s: State): (h: int) {
    if s.same then s.pt else s.lk
  }

  function PutLk(s: State, h: int): (r: State) {
    if s.same then s.(pt := h) else s.(lk := h)
  }

  function At(s: State, i: nat, x: Pc): (r: State)
    requires i < |s.pc|
  {
    s.(pc := s.pc[i := x])
  }

  datatype Event = AcquireLk(i: nat) | ReleaseLk(i: nat) | Test(i: nat) | Consume(i: nat)
                 | SleepLock(i: nat) | SleepUnlock(i: nat) | SleepMark(i: nat) | Resume(i: nat) | Return(i: nat)
                 | Change(i: nat) | WakeLock(i: nat) | Wake1(i: nat) | WakeUnlock(i: nat)

  predicate Enabled(s: State, e: Event) {
    && e.i < |s.pc|
    && match e
       case AcquireLk(i) => s.pc[i] == Outside && LkHolder(s) == FREE
       case ReleaseLk(i) => s.pc[i] == InLk
       case Test(i) => s.pc[i] == InLk && !s.cond
       case Consume(i) => s.pc[i] == InLk
       case SleepLock(i) => s.pc[i] == Tested && (s.same || s.pt == FREE)
       case SleepUnlock(i) => s.pc[i] == HoldBoth
       case SleepMark(i) => s.pc[i] == HoldPt
       case Resume(i) => s.pc[i] == Woken && s.pt == FREE
       case Return(i) => s.pc[i] == Resumed
       case Change(i) => s.pc[i] == InLk
       case WakeLock(i) => s.pc[i] == Changed && (s.same || s.pt == FREE)
       case Wake1(i) => s.pc[i] == Waking
       case WakeUnlock(i) => s.pc[i] == WakeDone
  }

  function Roused(pc: seq<Pc>): (r: seq<Pc>) {
    seq(|pc|, k requires 0 <= k < |pc| => if pc[k] == Asleep then Woken else pc[k])
  }

  function Step(s: State, e: Event): (r: State)
    requires Enabled(s, e)
    ensures |r.pc| == |s.pc| && r.same == s.same
  {
    match e
    case AcquireLk(i) => PutLk(At(s, i, InLk), i)
    case ReleaseLk(i) => PutLk(At(s, i, Outside), FREE)
    case Test(i) => At(s, i, Tested)
    case Consume(i) => s.(cond := false)
    case SleepLock(i) => if s.same then At(s, i, HoldPt) else At(s, i, HoldBoth).(pt := i)
    case SleepUnlock(i) => At(s, i, HoldPt).(lk := FREE)
    case SleepMark(i) => At(s, i, Asleep).(pt := FREE)
    case Resume(i) => At(s, i, Resumed).(pt := i)
    case Return(i) => if s.same then At(s, i, InLk) else At(s, i, Outside).(pt := FREE)
    case Change(i) => At(s, i, Changed).(cond := true)
    case WakeLock(i) => At(s, i, Waking).(pt := i)
    case Wake1(i) => At(s.(pc := Roused(s.pc)), i, WakeDone)
    case WakeUnlock(i) => if s.same then At(s, i, InLk) else At(s, i, InLk).(pt := FREE)
  }

  predicate HoldsLk(same: bool, x: Pc) {
    x in {InLk, Tested, HoldBoth, Changed, Waking, WakeDone} || (same && x in {HoldPt, Resumed})
  }

  predicate HoldsPt(same: bool, x: Pc) {
    x in {HoldBoth, HoldPt, Resumed, Waking, WakeDone} || (same && x in {InLk, Tested, Changed})
  }

  /** Some thread has made the condition true and has its call of wakeup1 still to come. */
  ghost predicate Pending(s: State) {
    exists j :: 0 <= j < |s.pc| && (s.pc[j] == Changed || s.pc[j] == Waking)
  }

  predicate GoingToSleep(x: Pc) {
    x in {Tested, HoldBoth, HoldPt, Asleep}
  }

  ghost predicate ThreadOk(s: State, i: nat)
    requires i < |s.pc|
  {
    && (HoldsLk(s.same, s.pc[i]) <==> LkHolder(s) == i)
    && (HoldsPt(s.same, s.pc[i]) <==> s.pt == i)
    && (s.same ==> s.pc[i] != HoldBoth)
    && (GoingToSleep(s.pc[i]) && s.cond ==> Pending(s))
  }

  ghost predicate Inv(s: State) {
    && (forall i: nat :: i < |s.pc| ==> ThreadOk(s, i))
    && FREE <= s.pt < |s.pc| && FREE <= s.lk < |s.pc|
  }

  lemma PendingStays(s: State, s': State, j: nat)
    requires j < |s.pc| == |s'.pc| && s'.pc[j] == s.pc[j] && (s.pc[j] == Changed || s.pc[j] == Waking)
    ensures Pending(s')
  {
  }

  lemma StepThread(s: State, e: Event, i: nat)
    requires Inv(s) && Enabled(s, e) && i < |s.pc|
    ensures ThreadOk(Step(s, e), i)
  {
    var s' := Step(s, e);
    assert ThreadOk(s, i) && ThreadOk(s, e.i);
    if GoingToSleep(s'.pc[i]) && s'.cond {
      if s.cond && GoingToSleep(s.pc[i]) {
        var j :| 0 <= j < |s.pc| && (s.pc[j] == Changed || s.pc[j] == Waking);
        assert ThreadOk(s, j);
        if e.i != j {
          PendingStays(s, s', j);
        } else if e.WakeLock? {
          assert s'.pc[j] == Waking;
        }
      } else if e.Change? {
        assert s'.pc[e.i] == Changed;
      }
    }
  }

  lemma StepInv(s: State, e: Event)
    requires Inv(s) && Enabled(s, e)
    ensures Inv(Step(s, e))
  {
    forall i: nat | i < |s.pc| ensures ThreadOk(Step(s, e), i) {
      StepThread(s, e, i);
    }
  }

  predicate StepAt(ss: seq<State>, es: seq<Event>, i: nat)
    requires i < |es| && i + 1 < |ss|
  {
    Enabled(ss[i], es[i]) && ss[i + 1] == Step(ss[i], es[i])
  }

  predicate Trace(ss: seq<State>, es: seq<Event>) {
    |ss| == |es| + 1 && forall i :: 0 <= i < |es| ==> StepAt(ss, es, i)
  }

  predicate Init(s: State) {
    s.lk == FREE && s.pt == FREE && forall i :: 0 <= i < |s.pc| ==> s.pc[i] == Outside
  }

  lemma {:induction false} RunInv(ss: seq<State>, es: seq<Event>, k: nat)
    requires Trace(ss, es) && Init(ss[0]) && k < |ss|
    ensures Inv(ss[k])
  {
    if k > 0 {
      RunInv(ss, es, k - 1);
      assert StepAt(ss, es, k - 1);
      StepInv(ss[k - 1], es[k - 1]);
    }
  }

  /** No wakeup is lost: whenever the condition holds and no thread has yet to issue its wakeup,
      nobody is asleep and nobody who found the condition false is on the way to sleep. */
  lemma NoLostWakeup(ss: seq<State>, es: seq<Event>, k: nat, i: nat)
    requires Trace(ss, es) && Init(ss[0]) && k < |ss| && i < |ss[k].pc|
    ensures ss[k].cond && !Pending(ss[k]) ==> !GoingToSleep(ss[k].pc[i])
  {
    RunInv(ss, es, k);
    assert ThreadOk(ss[k], i);
  }

  /** wakeup1 runs when no thread is between its test and SLEEPING, and leaves none asleep. */
  lemma WakeupReachesAll(ss: seq<State>, es: seq<Event>, k: nat, i: nat)
    requires Trace(ss, es) && Init(ss[0]) && k < |es| && es[k].Wake1? && i < |ss[k].pc|
    ensures i < |ss[k + 1].pc| && !GoingToSleep(ss[k + 1].pc[i])
  {
    RunInv(ss, es, k);
    assert StepAt(ss, es, k);
    assert ThreadOk(ss[k], i) && ThreadOk(ss[k], es[k].i);
  }

  /** Each of the two locks has at most one holder. */
  lemma LocksExclude(ss: seq<State>, es: seq<Event>, k: nat, i: nat, j: nat)
    requires Trace(ss, es) && Init(ss[0]) && k < |ss| && i < |ss[k].pc| && j < |ss[k].pc|
    ensures HoldsLk(ss[k].same, ss[k].pc[i]) && HoldsLk(ss[k].same, ss[k].pc[j]) ==> i == j
    ensures HoldsPt(ss[k].same, ss[k].pc[i]) && HoldsPt(ss[k].same, ss[k].pc[j]) ==> i == j
  {
    RunInv(ss, es, k);
    assert ThreadOk(ss[k], i) && ThreadOk(ss[k], j);
  }
}
