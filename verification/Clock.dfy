/** The Lamport clock: one shared 64-bit atomic.

    `Witnessed` is the clock's effect on unbounded time and is what the other
    modules use. The rest of the module is the concurrent clock itself: any
    number of threads interleaving atomic loads, weak compare-and-swaps (which
    may fail spuriously) and fetch-adds, with 64-bit wrap-around. */
module Clock {

  const LIMIT: nat := 0x1_0000_0000_0000_0000
  const MAX: u64 := 0xFFFF_FFFF_FFFF_FFFF

  type u64 = t: nat | t < LIMIT

  /** What one undisturbed `witness(t)` makes of a clock, on unbounded time. */
  function Witnessed(clock: nat, t: nat): (r: nat)
    ensures r > t && r >= clock && (r == clock || r == t + 1)
  {
    if t < clock then clock else t + 1
  }

  /** Addition of one on `u64`. */
  function Inc(t: u64): u64 {
    (t + 1) % LIMIT
  }

  /** Where a thread is inside `witness`. */
  datatype Pc =
    | Idle
    | Loading(t: u64)                // about to load the clock
    | Swapping(t: u64, current: u64) // loaded `current`, about to compare-and-swap

  /** The atomic, the threads, the times of the completed `witness` calls, and
      the results returned by `increment`, in order. */
  datatype Shared = Shared(value: u64, threads: seq<Pc>, witnessed: seq<u64>, issued: seq<u64>)

  datatype Action =
    | Call(i: nat, t: u64)
    | Load(i: nat)
    | Swap(i: nat, spurious: bool)
    | FetchAdd(i: nat)

  predicate Enabled(s: Shared, a: Action) {
    && a.i < |s.threads|
    && match a
       case Call(i, _) => s.threads[i].Idle?
       case Load(i) => s.threads[i].Loading?
       case Swap(i, _) => s.threads[i].Swapping?
       case FetchAdd(i) => s.threads[i].Idle?
  }

  function Step(s: Shared, a: Action): Shared
    requires Enabled(s, a)
  {
    match a
    case Call(i, t) => s.(threads := s.threads[i := Loading(t)])
    case Load(i) =>
      var t := s.threads[i].t;
      if t < s.value
      then s.(threads := s.threads[i := Idle], witnessed := s.witnessed + [t])
      else s.(threads := s.threads[i := Swapping(t, s.value)])
    case Swap(i, spurious) =>
      var t := s.threads[i].t;
      if !spurious && s.value == s.threads[i].current
      then s.(value := Inc(t), threads := s.threads[i := Idle], witnessed := s.witnessed + [t])
      else s.(threads := s.threads[i := Loading(t)])
    case FetchAdd(i) =>
      s.(value := Inc(s.value), issued := s.issued + [Inc(s.value)])
  }

  /** The two steps at which the 64-bit addition overflows. */
  predicate Wraps(s: Shared, a: Action)
    requires Enabled(s, a)
  {
    match a
    case Swap(i, spurious) => !spurious && s.value == s.threads[i].current && s.threads[i].t == MAX
    case FetchAdd(_) => s.value == MAX
    case _ => false
  }

  /** A thread only ever tries to swap a value that is not newer than its time. */
  predicate SwapsForward(s: Shared) {
    forall i :: 0 <= i < |s.threads| && s.threads[i].Swapping? ==> s.threads[i].current <= s.threads[i].t
  }

  /** What one step owes its caller: the clock does not go back, a `witness(t)`
      that returns leaves the clock beyond `t`, and `increment` returns a time
      beyond every earlier value. */
  predicate Honest(s: Shared, s': Shared) {
    && s'.value >= s.value
    && (|s'.witnessed| > |s.witnessed| ==> s'.witnessed[|s.witnessed|] < s'.value)
    && (|s'.issued| > |s.issued| ==> s.value < s'.issued[|s.issued|] <= s'.value)
  }

  /** A step meets its obligations exactly when its addition does not overflow. */
  lemma StepHonestIffNoWrap(s: Shared, a: Action)
    requires Enabled(s, a) && SwapsForward(s)
    ensures SwapsForward(Step(s, a))
    ensures Honest(s, Step(s, a)) <==> !Wraps(s, a)
  {
    var s' := Step(s, a);
    assert forall i :: 0 <= i < |s'.threads| && i != a.i ==> s'.threads[i] == s.threads[i];
    match a {
      case Swap(i, _) => assert s'.value == s.value || s'.value == Inc(s.threads[i].t);
      case _ =>
    }
  }

  predicate Inv(s: Shared) {
    && SwapsForward(s)
    && (forall i :: 0 <= i < |s.threads| && s.threads[i].Swapping? ==> s.threads[i].current <= s.value)
    && (forall k :: 0 <= k < |s.witnessed| ==> s.witnessed[k] < s.value)
    && (forall k :: 0 <= k < |s.issued| ==> s.issued[k] <= s.value)
    && (forall j, k :: 0 <= j < k < |s.issued| ==> s.issued[j] < s.issued[k])
  }

  lemma StepKeepsInv(s: Shared, a: Action)
    requires Inv(s) && Enabled(s, a) && !Wraps(s, a)
    ensures Inv(Step(s, a)) && Step(s, a).value >= s.value
  {
    StepHonestIffNoWrap(s, a);
  }

  /** Every action of the schedule is enabled and none of them overflows. */
  predicate Runnable(s: Shared, schedule: seq<Action>)
    decreases |schedule|
  {
    schedule == [] ||
    (Enabled(s, schedule[0]) && !Wraps(s, schedule[0]) && Runnable(Step(s, schedule[0]), schedule[1..]))
  }

  function Run(s: Shared, schedule: seq<Action>): Shared
    requires Runnable(s, schedule)
    decreases |schedule|
  {
    if schedule == [] then s else Run(Step(s, schedule[0]), schedule[1..])
  }

  function Start(threads: nat): Shared {
    Shared(0, seq(threads, _ => Idle), [], [])
  }

  lemma {:induction false} RunKeepsInv(s: Shared, schedule: seq<Action>)
    requires Inv(s) && Runnable(s, schedule)
    ensures Inv(Run(s, schedule)) && Run(s, schedule).value >= s.value
    decreases |schedule|
  {
    if schedule == [] {
    } else {
      StepKeepsInv(s, schedule[0]);
      RunKeepsInv(Step(s, schedule[0]), schedule[1..]);
    }
  }

  /** For any number of threads and any interleaving: the clock is beyond the
      time of every completed `witness`, and no two `increment`s returned the
      same time. */
  lemma ConcurrentClockIsSafe(threads: nat, schedule: seq<Action>)
    requires Runnable(Start(threads), schedule)
    ensures var s := Run(Start(threads), schedule);
            && (forall k :: 0 <= k < |s.witnessed| ==> s.witnessed[k] < s.value)
            && (forall j, k :: 0 <= j < k < |s.issued| ==> s.issued[j] != s.issued[k])
  {
    RunKeepsInv(Start(threads), schedule);
  }

  /** A compare-and-swap that fails other than spuriously has lost against
      another thread that moved the clock forward. */
  lemma LostSwapMeansProgress(threads: nat, schedule: seq<Action>, i: nat)
    requires Runnable(Start(threads), schedule)
    requires Enabled(Run(Start(threads), schedule), Swap(i, false))
    ensures var s := Run(Start(threads), schedule);
            Step(s, Swap(i, false)).threads[i].Loading? ==> s.value > s.threads[i].current
  {
    RunKeepsInv(Start(threads), schedule);
  }

  /** Every time that is being witnessed, or will be, is at most `top`. */
  predicate TimesBelow(s: Shared, schedule: seq<Action>, top: nat) {
    && (forall i :: 0 <= i < |s.threads| && !s.threads[i].Idle? ==> s.threads[i].t <= top)
    && (forall k :: 0 <= k < |schedule| && schedule[k].Call? ==> schedule[k].t <= top)
  }

  function Increments(schedule: seq<Action>): nat {
    if schedule == [] then 0
    else (if schedule[0].FetchAdd? then 1 else 0) + Increments(schedule[1..])
  }

  /** Every action of the schedule is enabled, overflowing or not. */
  predicate Possible(s: Shared, schedule: seq<Action>)
    decreases |schedule|
  {
    schedule == [] || (Enabled(s, schedule[0]) && Possible(Step(s, schedule[0]), schedule[1..]))
  }

  /** A bound a caller can check beforehand: if the largest witnessed time and
      the number of increments stay below 2^64 together, nothing overflows. */
  lemma {:induction false} BoundedTimesNeverWrap(s: Shared, schedule: seq<Action>, top: nat)
    requires Possible(s, schedule) && TimesBelow(s, schedule, top)
    requires s.value + Increments(schedule) < LIMIT && top + 1 + Increments(schedule) < LIMIT
    ensures Runnable(s, schedule)
    decreases |schedule|
  {
    if schedule == [] {
    } else {
      var a := schedule[0];
      var s' := Step(s, a);
      assert forall k :: 0 <= k < |schedule[1..]| ==> schedule[1..][k] == schedule[k + 1];
      assert forall i :: 0 <= i < |s'.threads| && i != a.i ==> s'.threads[i] == s.threads[i];
      BoundedTimesNeverWrap(s', schedule[1..], top);
    }
  }
}
