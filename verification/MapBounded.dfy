/** The bounded concurrent map: up to four workers share a counter, and the calls
    they await settle in any order. A step resumes one waiting worker. */
module MapBounded {
  import opened Texts

  const LIMIT: nat := 4

  /** How a call settles; call `i` is `operation(items[i])`. */
  datatype Outcome<+R> = Fulfilled(value: R) | Rejected

  datatype Worker = Running(index: nat) | Failed(index: nat) | Done

  /** `Promise.all` over the workers: settled by the first failure or the last to finish. */
  datatype Promise<+R> = Pending | Resolved(values: seq<R>) | Refused(index: nat)

  datatype State<+R> = State(
    size: nat, next: nat, claims: seq<nat>, result: seq<Option<R>>,
    workers: seq<Worker>, promise: Promise<R>)

  function Min(a: nat, b: nat): nat { if a < b then a else b }

  function Count<T>(s: seq<T>, p: T -> bool): (n: nat)
    ensures n <= |s|
  {
    if s == [] then 0 else Count(s[..|s| - 1], p) + (if p(s[|s| - 1]) then 1 else 0)
  }

  predicate IsRunning(w: Worker) { w.Running? }
  predicate IsFailed(w: Worker) { w.Failed? }
  predicate IsDone(w: Worker) { w.Done? }
  predicate IsFilled<R>(r: Option<R>) { r.Some? }

  function InFlight<R>(s: State<R>): nat { Count(s.workers, IsRunning) }
  function Failures<R>(s: State<R>): nat { Count(s.workers, IsFailed) }
  function Completed<R>(s: State<R>): nat { Count(s.result, IsFilled) }

  // ----- the steps -----

  /** Every worker runs up to its first `await`, claiming an index on the way. */
  function Start<R>(size: nat): State<R> {
    var width := Min(LIMIT, size);
    State(size, width, seq(width, (i: nat) => i), seq(size, _ => None), seq(width, (i: nat) => Running(i)),
          if width == 0 then Resolved([]) else Pending)
  }

  /** The values, once every slot is filled. */
  function Values<R>(result: seq<Option<R>>): seq<R>
    requires forall i :: 0 <= i < |result| ==> result[i].Some?
  {
    seq(|result|, i requires 0 <= i < |result| => result[i].value)
  }

  function Settle<R>(s: State<R>): Promise<R> {
    if !s.promise.Pending? then s.promise
    else if (forall k :: 0 <= k < |s.workers| ==> s.workers[k].Done?)
         && (forall i :: 0 <= i < |s.result| ==> s.result[i].Some?)
      then Resolved(Values(s.result))
    else Pending
  }

  /** Worker `k`'s call has settled: store and claim again, finish, or fail. */
  function Resume<R>(s: State<R>, k: nat, outcome: Outcome<R>): State<R>
    requires k < |s.workers| && s.workers[k].Running? && s.workers[k].index < |s.result|
  {
    var index := s.workers[k].index;
    match outcome
    case Rejected =>
      s.(workers := s.workers[k := Failed(index)],
         promise := if s.promise.Pending? then Refused(index) else s.promise)
    case Fulfilled(value) =>
      var stored := s.(result := s.result[index := Some(value)]);
      if s.next < s.size then
        stored.(workers := s.workers[k := Running(s.next)], next := s.next + 1, claims := s.claims + [s.next])
      else
        var finished := stored.(workers := s.workers[k := Done]);
        finished.(promise := Settle(finished))
  }

  // ----- what every step keeps -----

  predicate Owned(workers: seq<Worker>, i: nat) {
    exists k :: 0 <= k < |workers| && !workers[k].Done? && workers[k].index == i
  }

  /** The claims so far are 0, 1, 2 and so on, each once. */
  predicate InOrder(claims: seq<nat>) {
    forall i :: 0 <= i < |claims| ==> claims[i] == i
  }

  ghost predicate Inv<R>(s: State<R>, op: nat -> Outcome<R>) {
    && |s.result| == s.size && |s.workers| == Min(LIMIT, s.size) && s.next <= s.size
    && |s.claims| == s.next && InOrder(s.claims)
    && Stored(s, op) && Held(s, op) && Distinct(s.workers) && Covered(s) && Busy(s)
    && Conserved(s) && Reported(s, op)
  }

  ghost predicate Stored<R>(s: State<R>, op: nat -> Outcome<R>) {
    forall i :: 0 <= i < |s.result| && s.result[i].Some? ==> i < s.next && op(i) == Fulfilled(s.result[i].value)
  }

  /** A worker's index is claimed and not yet stored; a failed worker's call was rejected. */
  ghost predicate Held<R>(s: State<R>, op: nat -> Outcome<R>)
    requires s.next <= |s.result|
  {
    forall k :: 0 <= k < |s.workers| && !s.workers[k].Done? ==>
      && s.workers[k].index < s.next && s.result[s.workers[k].index].None?
      && (s.workers[k].Failed? ==> op(s.workers[k].index) == Rejected)
  }

  predicate Distinct(workers: seq<Worker>) {
    forall j, k :: 0 <= j < k < |workers| && !workers[j].Done? && !workers[k].Done?
      ==> workers[j].index != workers[k].index
  }

  ghost predicate Covered<R>(s: State<R>)
    requires s.next <= |s.result|
  {
    forall i: nat :: i < s.next && s.result[i].None? ==> Owned(s.workers, i)
  }

  ghost predicate Busy<R>(s: State<R>) {
    s.next < s.size ==> forall k :: 0 <= k < |s.workers| ==> !s.workers[k].Done?
  }

  ghost predicate Conserved<R>(s: State<R>) {
    s.next == Completed(s) + InFlight(s) + Failures(s)
  }

  ghost predicate Reported<R>(s: State<R>, op: nat -> Outcome<R>)
    requires |s.result| == s.size
  {
    match s.promise
    case Pending => (forall k :: 0 <= k < |s.workers| ==> !s.workers[k].Failed?)
                    && exists k :: 0 <= k < |s.workers| && s.workers[k].Running?
    case Refused(index) => exists k :: 0 <= k < |s.workers| && s.workers[k] == Failed(index)
    case Resolved(values) =>
      && (forall k :: 0 <= k < |s.workers| ==> s.workers[k].Done?)
      && |values| == s.size && (forall i :: 0 <= i < s.size ==> op(i) == Fulfilled(values[i]))
  }

  lemma {:induction false} CountUpdate<T>(s: seq<T>, p: T -> bool, k: nat, x: T)
    requires k < |s|
    ensures Count(s[k := x], p) == Count(s, p) - (if p(s[k]) then 1 else 0) + (if p(x) then 1 else 0)
  {
    var n := |s| - 1;
    if k < n {
      CountUpdate(s[..n], p, k, x);
      assert s[k := x][..n] == s[..n][k := x];
    } else {
      assert s[k := x][..n] == s[..n];
    }
  }

  lemma {:induction false} CountNone<T>(s: seq<T>, p: T -> bool)
    requires forall i :: 0 <= i < |s| ==> !p(s[i])
    ensures Count(s, p) == 0
  {
    if s != [] { CountNone(s[..|s| - 1], p); }
  }

  lemma {:induction false} CountAll<T>(s: seq<T>, p: T -> bool)
    requires forall i :: 0 <= i < |s| ==> p(s[i])
    ensures Count(s, p) == |s|
  {
    if s != [] { CountAll(s[..|s| - 1], p); }
  }

  /** Running, failed and done between them are all the workers. */
  lemma {:induction false} CountSplit(workers: seq<Worker>)
    ensures Count(workers, IsRunning) + Count(workers, IsFailed) + Count(workers, IsDone) == |workers|
  {
    if workers != [] { CountSplit(workers[..|workers| - 1]); }
  }

  lemma StartKeeps<R>(size: nat, op: nat -> Outcome<R>)
    ensures Inv(Start(size), op)
  {
    var s: State<R> := Start(size);
    CountAll(s.workers, IsRunning);
    CountNone(s.workers, IsFailed);
    CountNone(s.result, IsFilled);
    forall i: nat | i < s.next && s.result[i].None? ensures Owned(s.workers, i) {
      assert s.workers[i].index == i;
    }
    if size > 0 { assert s.workers[0].Running?; }
  }

  /** The counts after one worker changes and, if `filled`, one slot is stored. */
  lemma CountsAfter<R>(s: State<R>, t: State<R>, k: nat, filled: bool)
    requires k < |s.workers| && s.workers[k].Running? && s.workers[k].index < |s.result|
    requires s.result[s.workers[k].index].None? && |t.workers| == |s.workers|
    requires t.workers == s.workers[k := t.workers[k]]
    requires if filled then |t.result| == |s.result| && t.result[s.workers[k].index].Some?
                            && t.result == s.result[s.workers[k].index := t.result[s.workers[k].index]]
             else t.result == s.result
    ensures InFlight(t) == InFlight(s) - (if t.workers[k].Running? then 0 else 1)
    ensures Failures(t) == Failures(s) + (if t.workers[k].Failed? then 1 else 0)
    ensures Completed(t) == Completed(s) + (if filled then 1 else 0)
  {
    CountUpdate(s.workers, IsRunning, k, t.workers[k]);
    CountUpdate(s.workers, IsFailed, k, t.workers[k]);
    if filled {
      CountUpdate(s.result, IsFilled, s.workers[k].index, t.result[s.workers[k].index]);
    }
  }

  /** A worker that keeps its index, or another one, still owns what it owned. */
  lemma OwnedAfter(workers: seq<Worker>, k: nat, w: Worker, i: nat)
    requires k < |workers| && Owned(workers, i)
    requires !workers[k].Done? && workers[k].index == i ==> !w.Done? && w.index == i
    ensures Owned(workers[k := w], i)
  {
    var h :| 0 <= h < |workers| && !workers[h].Done? && workers[h].index == i;
    assert !workers[k := w][h].Done? && workers[k := w][h].index == i;
  }

  lemma ResumeRejected<R>(s: State<R>, k: nat, op: nat -> Outcome<R>)
    requires Inv(s, op) && k < |s.workers| && s.workers[k].Running? && op(s.workers[k].index).Rejected?
    ensures Inv(Resume(s, k, Rejected), op)
  {
    hide Count;
    var t := Resume(s, k, Rejected);
    CountsAfter(s, t, k, false);
    assert t.workers[k] == Failed(s.workers[k].index);
    forall i: nat | i < t.next && t.result[i].None? ensures Owned(t.workers, i) {
      OwnedAfter(s.workers, k, t.workers[k], i);
    }
    if s.promise.Refused? {
      var h :| 0 <= h < |s.workers| && s.workers[h] == Failed(s.promise.index);
      assert t.workers[h] == Failed(s.promise.index);
    }
  }

  lemma ResumeCovers<R>(s: State<R>, k: nat, value: R, op: nat -> Outcome<R>)
    requires Inv(s, op) && k < |s.workers| && s.workers[k].Running?
    ensures Covered(Resume(s, k, Fulfilled(value)))
  {
    var t := Resume(s, k, Fulfilled(value));
    forall i: nat | i < t.next && t.result[i].None? ensures Owned(t.workers, i) {
      if i == s.next {
        assert t.workers[k].index == i;
      } else {
        OwnedAfter(s.workers, k, t.workers[k], i);
      }
    }
  }

  /** All workers done, everything claimed: every slot is stored. */
  lemma {:induction false} AllFilled<R>(s: State<R>)
    requires |s.result| == s.next && Covered(s)
    requires forall k :: 0 <= k < |s.workers| ==> s.workers[k].Done?
    ensures forall i :: 0 <= i < |s.result| ==> s.result[i].Some?
  {
    forall i: nat | i < |s.result| ensures s.result[i].Some? {
      assert !Owned(s.workers, i);
    }
  }

  lemma ResumeStores<R>(s: State<R>, k: nat, value: R, op: nat -> Outcome<R>)
    requires Inv(s, op) && k < |s.workers| && s.workers[k].Running?
    requires op(s.workers[k].index) == Fulfilled(value)
    ensures var t := Resume(s, k, Fulfilled(value));
            Stored(t, op) && Held(t, op) && Distinct(t.workers) && Busy(t) && InOrder(t.claims)
  {
  }

  lemma ResumeReported<R>(s: State<R>, k: nat, value: R, op: nat -> Outcome<R>)
    requires Inv(s, op) && k < |s.workers| && s.workers[k].Running?
    requires op(s.workers[k].index) == Fulfilled(value)
    ensures Reported(Resume(s, k, Fulfilled(value)), op)
  {
    hide Covered;
    hide Distinct;
    hide InOrder;
    hide Conserved;
    hide Busy;
    var t := Resume(s, k, Fulfilled(value));
    ResumeCovers(s, k, value, op);
    ResumeStores(s, k, value, op);
    match s.promise {
      case Pending =>
        if forall h :: 0 <= h < |t.workers| ==> t.workers[h].Done? {
          assert t.workers[k].Done?;
          AllFilled(t);
        } else {
          var h :| 0 <= h < |t.workers| && !t.workers[h].Done?;
          assert !s.workers[h].Failed?;
          assert t.workers[h].Running?;
        }
      case Refused(index) =>
        var h :| 0 <= h < |s.workers| && s.workers[h] == Failed(index);
        assert t.workers[h] == Failed(index);
      case Resolved(_) =>
    }
  }

  lemma ResumeFulfilled<R>(s: State<R>, k: nat, value: R, op: nat -> Outcome<R>)
    requires Inv(s, op) && k < |s.workers| && s.workers[k].Running?
    requires op(s.workers[k].index) == Fulfilled(value)
    ensures Inv(Resume(s, k, Fulfilled(value)), op)
  {
    CountsAfter(s, Resume(s, k, Fulfilled(value)), k, true);
    ResumeCovers(s, k, value, op);
    ResumeStores(s, k, value, op);
    ResumeReported(s, k, value, op);
  }

  lemma ResumeKeeps<R>(s: State<R>, k: nat, op: nat -> Outcome<R>)
    requires Inv(s, op) && k < |s.workers| && s.workers[k].Running?
    ensures Inv(Resume(s, k, op(s.workers[k].index)), op)
    ensures var t := Resume(s, k, op(s.workers[k].index));
            Completed(t) + Failures(t) == Completed(s) + Failures(s) + 1
  {
    var outcome := op(s.workers[k].index);
    var t := Resume(s, k, outcome);
    CountsAfter(s, t, k, outcome.Fulfilled?);
    match outcome {
      case Rejected => ResumeRejected(s, k, op);
      case Fulfilled(value) => ResumeFulfilled(s, k, value, op);
    }
  }

  // ----- every interleaving -----

  /** A schedule names the worker to resume at each step. */
  ghost predicate ValidSchedule<R>(s: State<R>, op: nat -> Outcome<R>, schedule: seq<nat>)
    decreases |schedule|
  {
    schedule != [] ==>
      var k := schedule[0];
      && k < |s.workers| && s.workers[k].Running? && s.workers[k].index < |s.result|
      && ValidSchedule(Resume(s, k, op(s.workers[k].index)), op, schedule[1..])
  }

  ghost function RunSchedule<R>(s: State<R>, op: nat -> Outcome<R>, schedule: seq<nat>): State<R>
    requires ValidSchedule(s, op, schedule)
    decreases |schedule|
  {
    if schedule == [] then s
    else RunSchedule(Resume(s, schedule[0], op(s.workers[schedule[0]].index)), op, schedule[1..])
  }

  lemma {:induction false} ScheduleKeeps<R>(s: State<R>, op: nat -> Outcome<R>, schedule: seq<nat>)
    requires Inv(s, op) && ValidSchedule(s, op, schedule)
    ensures var t := RunSchedule(s, op, schedule);
            && Inv(t, op) && t.size == s.size
            && Completed(t) + Failures(t) == Completed(s) + Failures(s) + |schedule|
    decreases |schedule|
  {
    if schedule != [] {
      ResumeKeeps(s, schedule[0], op);
      ScheduleKeeps(Resume(s, schedule[0], op(s.workers[schedule[0]].index)), op, schedule[1..]);
    }
  }

  /** The width law: with `c` calls completed and `f` failed, exactly
      min(workers - f, size - c - f) are in flight. Before a first failure that is
      min(4, size - c): the bound is kept and never wasted. */
  lemma WidthLaw<R>(s: State<R>, op: nat -> Outcome<R>)
    requires Inv(s, op)
    ensures Failures(s) <= Min(LIMIT, s.size) && Completed(s) + Failures(s) <= s.size
    ensures InFlight(s) == Min(Min(LIMIT, s.size) - Failures(s), s.size - Completed(s) - Failures(s))
    ensures s.promise.Pending? ==> InFlight(s) == Min(4, s.size - Completed(s))
  {
    CountSplit(s.workers);
    if s.next < s.size { CountNone(s.workers, IsDone); }
    if s.promise.Pending? { CountNone(s.workers, IsFailed); }
  }

  /** The first rejection settles the promise, and nothing settles it again. */
  lemma SettledOnce<R>(s: State<R>, k: nat, outcome: Outcome<R>)
    requires k < |s.workers| && s.workers[k].Running? && s.workers[k].index < |s.result|
    ensures !s.promise.Pending? ==> Resume(s, k, outcome).promise == s.promise
    ensures s.promise.Pending? && outcome.Rejected? ==> Resume(s, k, outcome).promise == Refused(s.workers[k].index)
    ensures outcome.Fulfilled? && s.promise.Pending? ==> !Resume(s, k, outcome).promise.Refused?
  {
  }

  /** Once settled, whatever settles later is not reported. */
  lemma {:induction false} SettledStays<R>(s: State<R>, op: nat -> Outcome<R>, schedule: seq<nat>)
    requires !s.promise.Pending? && ValidSchedule(s, op, schedule)
    ensures RunSchedule(s, op, schedule).promise == s.promise
    decreases |schedule|
  {
    if schedule != [] {
      var k := schedule[0];
      SettledOnce(s, k, op(s.workers[k].index));
      SettledStays(Resume(s, k, op(s.workers[k].index)), op, schedule[1..]);
    }
  }

  lemma StartSize<R>(size: nat)
    ensures Start<R>(size).size == size
  {
  }

  /** Every schedule from the start: indexes are claimed in order and once each,
      no more than `size` calls settle, and the promise reports the truth. */
  lemma EveryInterleaving<R>(size: nat, op: nat -> Outcome<R>, schedule: seq<nat>)
    requires ValidSchedule(Start(size), op, schedule)
    ensures var s := RunSchedule(Start(size), op, schedule);
            && Inv(s, op) && |schedule| <= size
            && |s.claims| == s.next && InOrder(s.claims)
            && InFlight(s) <= LIMIT
            && (s.promise.Resolved? ==>
                  && |s.promise.values| == size
                  && forall i :: 0 <= i < size ==> op(i) == Fulfilled(s.promise.values[i]))
            && (s.promise.Refused? ==> op(s.promise.index) == Rejected)
  {
    hide Start;
    hide Count;
    hide Stored;
    hide Held;
    hide Distinct;
    hide Covered;
    hide Busy;
    hide Conserved;
    hide Reported;
    hide RunSchedule;
    hide ValidSchedule;
    StartSize<R>(size);
    StartKeeps(size, op);
    StartCounts<R>(size);
    ScheduleKeeps(Start(size), op, schedule);
    var s := RunSchedule(Start(size), op, schedule);
    WidthLaw(s, op);
    TruthOf(s, op);
  }

  lemma StartCounts<R>(size: nat)
    ensures Completed<R>(Start(size)) == 0 && Failures<R>(Start(size)) == 0
  {
    var s: State<R> := Start(size);
    CountNone(s.result, IsFilled);
    CountNone(s.workers, IsFailed);
  }

  lemma TruthOf<R>(s: State<R>, op: nat -> Outcome<R>)
    requires Inv(s, op)
    ensures s.promise.Resolved? ==> |s.promise.values| == s.size
    ensures s.promise.Resolved? ==> forall i :: 0 <= i < s.size ==> op(i) == Fulfilled(s.promise.values[i])
    ensures s.promise.Refused? ==> s.promise.index < s.size && op(s.promise.index) == Rejected
  {
    if s.promise.Refused? {
      var k :| 0 <= k < |s.workers| && s.workers[k] == Failed(s.promise.index);
      assert !s.workers[k].Done?;
    }
  }

  /** Nothing in flight: the promise is settled, and it resolved exactly when every
      call fulfilled. */
  lemma Quiescent<R>(s: State<R>, op: nat -> Outcome<R>)
    requires Inv(s, op) && InFlight(s) == 0
    ensures s.promise.Resolved? || s.promise.Refused?
    ensures s.promise.Resolved? <==> forall i :: 0 <= i < s.size ==> op(i).Fulfilled?
  {
    NoneRunning(s.workers);
    TruthOf(s, op);
  }

  lemma {:induction false} NoneRunning(workers: seq<Worker>)
    requires Count(workers, IsRunning) == 0
    ensures forall k :: 0 <= k < |workers| ==> !workers[k].Running?
  {
    if workers != [] { NoneRunning(workers[..|workers| - 1]); }
  }

  /** How much is still to settle. */
  function Remaining<R>(s: State<R>): int { s.size - Completed(s) - Failures(s) }

  lemma Progress<R>(s: State<R>, k: nat, op: nat -> Outcome<R>)
    requires Inv(s, op) && k < |s.workers| && s.workers[k].Running?
    ensures var t := Resume(s, k, op(s.workers[k].index));
            Inv(t, op) && t.size == s.size && 0 <= Remaining(t) < Remaining(s)
  {
    ResumeKeeps(s, k, op);
    WidthLaw(Resume(s, k, op(s.workers[k].index)), op);
  }

  lemma Resumable<R>(s: State<R>, k: nat, op: nat -> Outcome<R>)
    requires Inv(s, op) && k < |s.workers| && s.workers[k].Running?
    ensures s.workers[k].index < |s.result|
  {
  }

  lemma AtRest<R>(s: State<R>, op: nat -> Outcome<R>)
    requires Inv(s, op) && forall k :: 0 <= k < |s.workers| ==> !s.workers[k].Running?
    ensures s.promise.Resolved? || s.promise.Refused?
    ensures s.promise.Resolved? <==> forall i :: 0 <= i < s.size ==> op(i).Fulfilled?
  {
    CountNone(s.workers, IsRunning);
    Quiescent(s, op);
  }

  /** The pool run to rest, with the order in which calls settle left open. */
  method RunPool<R>(size: nat, op: nat -> Outcome<R>) returns (promise: Promise<R>)
    ensures promise.Resolved? || promise.Refused?
    ensures promise.Resolved? <==> forall i :: 0 <= i < size ==> op(i).Fulfilled?
    ensures promise.Resolved? ==> |promise.values| == size
    ensures promise.Resolved? ==> forall i :: 0 <= i < size ==> op(i) == Fulfilled(promise.values[i])
    ensures promise.Refused? ==> promise.index < size && op(promise.index) == Rejected
  {
    var s: State<R> := Start(size);
    StartKeeps(size, op);
    assert s.size == size;
    hide Inv;
    hide Start;
    hide Resume;
    hide Remaining;
    while exists k :: 0 <= k < |s.workers| && s.workers[k].Running?
      invariant Inv(s, op) && s.size == size
      decreases Remaining(s)
    {
      var k: nat :| k < |s.workers| && s.workers[k].Running?;
      Resumable(s, k, op);
      Progress(s, k, op);
      s := Resume(s, k, op(s.workers[k].index));
    }
    AtRest(s, op);
    TruthOf(s, op);
    promise := s.promise;
  }
}
