/**
What is asked of the backup thread is done: an interrupt that arrives in a blocking section
is handled, and a request to terminate makes the thread quit, whatever the order in which
those who owe a step take it, and before the main thread has to come back.
*/
module BackupProgress {
  import opened Options
  import opened DomainBackupThread

  /** The main thread is on its way into a blocking section, or in it. */
  predicate GoingToBlock(m: Main) {
    m.ExitCheck? || m.ExitLock? || m.ExitHold? || m.ExitUnlock? || m.ExitRelease? || m.Blocked?
  }

  predicate Terminating(m: Main) {
    m.TermLock? || m.TermHold? || m.TermUnlock? || m.TermRelease?
  }

  /** An interrupt is to be handled in a blocking section, or is being handled. */
  predicate ToServe(s: State) {
    GoingToBlock(s.main) && (s.pending || s.helper.Handling? || s.helper.Leaving?)
  }

  /** The main thread is terminating, or has left the slot and the backup thread has not. */
  predicate ToQuit(s: State) {
    Terminating(s.main) || (s.main.Vacant? && s.msg.Terminate?)
  }

  predicate Waiting(s: State) {
    ToServe(s) || ToQuit(s)
  }

  /** Steps that are owed: no new interrupt or domain, no spurious wake-up, no return of the main thread. */
  ghost predicate IsOwed(s: State, a: Action)
    requires CanAct(s, a)
  {
    match a
    case MainMove => !s.main.Blocked? && !s.main.Vacant?
    case HelperMove => true
    case SenderMove(i) => !s.senders[i].Elsewhere?
    case _ => false
  }

  // ----- A measure -----------------------------------------------------------

  function HelperRank(s: State): nat {
    match s.helper
    case Absent => 0
    case LastStore => 1
    case Quitting => 2
    case Leaving => if s.msg.Terminate? then 8 else if s.pending then 17 else 1
    case Handling => if s.msg.Terminate? then 9 else 2
    case WantDomain => 10
    case Unlocking => 11
    case ReadPending => if s.msg.Terminate? then 17 else 12
    case ReadMsg => if s.msg.Terminate? then 6 else 13
    case WantLock => if s.msg.Terminate? then 7 else 14
    case WantLockAgain => if s.msg.Terminate? then 7 else 14
    case Asleep => 15
    case Decided => 16
  }

  function MainRank(m: Main): nat {
    match m
    case ExitCheck => 5
    case ExitLock => 4
    case ExitHold => 3
    case ExitUnlock => 2
    case ExitRelease => 1
    case TermLock => 4
    case TermHold => 3
    case TermUnlock => 2
    case TermRelease => 1
    case _ => 0
  }

  function SenderRank(x: Sending): nat {
    match x
    case Elsewhere => 0
    case SigUnlock => 1
    case SigHold => 2
    case SigLock => 3
    case CheckMsg => 4
  }

  /** The senders that have at least `k` steps to go. */
  ghost function AtLeast(senders: map<nat, Sending>, k: nat): set<nat> {
    set i | i in senders && SenderRank(senders[i]) >= k
  }

  ghost function SendersLeft(senders: map<nat, Sending>): nat {
    |AtLeast(senders, 1)| + |AtLeast(senders, 2)| + |AtLeast(senders, 3)| + |AtLeast(senders, 4)|
  }

  ghost function Left(s: State): nat {
    HelperRank(s) + MainRank(s.main) + SendersLeft(s.senders)
  }

  lemma FewerAt(senders: map<nat, Sending>, i: nat, x: Sending, k: nat)
    requires i in senders && SenderRank(x) <= SenderRank(senders[i])
    ensures |AtLeast(senders[i := x], k)| ==
      |AtLeast(senders, k)| - if SenderRank(x) < k <= SenderRank(senders[i]) then 1 else 0
  {
    var a, b := AtLeast(senders, k), AtLeast(senders[i := x], k);
    if SenderRank(x) < k <= SenderRank(senders[i]) { assert b == a - {i}; } else { assert b == a; }
  }

  lemma SenderCloser(senders: map<nat, Sending>, i: nat, x: Sending)
    requires i in senders && SenderRank(x) < SenderRank(senders[i])
    ensures SendersLeft(senders[i := x]) < SendersLeft(senders)
  {
    hide AtLeast;
    FewerAt(senders, i, x, 1);
    FewerAt(senders, i, x, 2);
    FewerAt(senders, i, x, 3);
    FewerAt(senders, i, x, 4);
  }

  /** What was asked for is done, or the step comes closer to that. */
  ghost predicate Advances(s: State, a: Action)
    requires CanAct(s, a)
  {
    var s' := Act(s, a);
    !Waiting(s') || Left(s') < Left(s)
  }

  /** Every owed step does what was asked for or comes closer to that. */
  lemma EveryStepAdvances(s: State, a: Action)
    requires Inv(s) && Waiting(s) && CanAct(s, a) && IsOwed(s, a)
    ensures Advances(s, a)
  {
    hide Inv, Left;
    if a.SenderMove? { SenderAdvances(s, a.i); } else if a.MainMove? { MainAdvances(s); } else { HelperAdvances(s); }
  }

  lemma SenderAdvances(s: State, i: nat)
    requires CanAct(s, SenderMove(i)) && IsOwed(s, SenderMove(i))
    ensures Advances(s, SenderMove(i))
  {
    hide SendersLeft;
    SenderCloser(s.senders, i, MoveSender(s, i).senders[i]);
  }

  lemma MainAdvances(s: State)
    requires Inv(s) && Waiting(s) && CanAct(s, MainMove) && IsOwed(s, MainMove)
    ensures Advances(s, MainMove)
  {
    hide LocksRight, DomainLockRight, NoneLost, SendersLeft;
  }

  lemma HelperAdvances(s: State)
    requires Inv(s) && Waiting(s) && CanAct(s, HelperMove)
    ensures Advances(s, HelperMove)
  {
    hide Inv, Advances, CanAct;
    if ToServe(s) { HelperServes(s); } else { HelperQuits(s); }
  }

  lemma HelperServes(s: State)
    requires Inv(s) && ToServe(s) && CanAct(s, HelperMove)
    ensures Advances(s, HelperMove)
  {
    hide LocksRight, DomainLockRight, NoneLost, SendersLeft;
  }

  lemma HelperQuits(s: State)
    requires Inv(s) && ToQuit(s) && CanAct(s, HelperMove)
    ensures Advances(s, HelperMove)
  {
    hide LocksRight, DomainLockRight, NoneLost, SendersLeft;
  }

  // ----- What is owed can be done --------------------------------------------

  /** Locks are held by threads that exist. */
  ghost predicate OwnerExists(s: State) {
    s.lock.Some? && s.lock.value.Sender? ==> s.lock.value.id in s.senders
  }

  lemma OwnerStep(s: State, a: Action)
    requires CanAct(s, a) && OwnerExists(s)
    ensures OwnerExists(Act(s, a))
  {
  }

  ghost predicate DomainHolderExists(s: State) {
    s.domainLock.Some? ==> !s.domainLock.value.Sender?
  }

  lemma DomainHolderStep(s: State, a: Action)
    requires CanAct(s, a) && DomainHolderExists(s)
    ensures DomainHolderExists(Act(s, a))
  {
  }

  lemma HolderMoves(s: State) returns (a: Action)
    requires Inv(s) && OwnerExists(s) && Waiting(s) && s.lock.Some?
    ensures CanAct(s, a) && IsOwed(s, a)
  {
    a := match s.lock.value case MainThread => MainMove case Backup => HelperMove case Sender(i) => SenderMove(i);
  }

  /** With the lock free, a thread that owes a signal can go on. */
  lemma OwingMoves(s: State) returns (a: Action)
    requires s.lock.None? && Owed(s)
    ensures CanAct(s, a) && IsOwed(s, a)
  {
    if MainOwes(s.main) {
      a := MainMove;
    } else {
      var i :| i in s.senders && SenderOwes(s.senders[i]);
      a := SenderMove(i);
    }
  }

  /** No deadlock: until what was asked for is done, some owed step is possible. */
  lemma SomeStepIsPossible(s: State) returns (a: Action)
    requires Inv(s) && OwnerExists(s) && DomainHolderExists(s) && Waiting(s)
    ensures CanAct(s, a) && IsOwed(s, a)
  {
    if s.lock.Some? {
      a := HolderMoves(s);
    } else if s.helper.Absent? || (s.helper.WantDomain? && s.domainLock.Some?) {
      a := MainMove;
    } else if s.helper.Decided? || s.helper.Asleep? {
      a := OwingMoves(s);
    } else {
      a := HelperMove;
    }
  }

  // ----- The theorem ---------------------------------------------------------

  ghost predicate Sane(s: State) {
    Inv(s) && OwnerExists(s) && DomainHolderExists(s)
  }

  lemma SaneStep(s: State, a: Action)
    requires Sane(s) && CanAct(s, a)
    ensures Sane(Act(s, a))
  {
    hide Inv, Act, CanAct;
    StepInv(s, a);
    OwnerStep(s, a);
    DomainHolderStep(s, a);
  }

  lemma {:induction false} RunSane(t: seq<State>, acts: seq<Action>, i: nat)
    requires Run(t, acts) && i < |t|
    ensures Sane(t[i])
  {
    if i > 0 {
      hide Sane, Act, CanAct;
      RunSane(t, acts, i - 1);
      SaneStep(t[i - 1], acts[i - 1]);
    }
  }

  /** Owed steps from `s` on, with something to wait for before each of them. */
  ghost predicate GoingOn(s: State, t: seq<State>, acts: seq<Action>) {
    && |t| == |acts| + 1 && t[0] == s
    && forall i {:trigger acts[i]} :: 0 <= i < |acts| ==>
         Waiting(t[i]) && CanAct(t[i], acts[i]) && IsOwed(t[i], acts[i]) && t[i + 1] == Act(t[i], acts[i])
  }

  lemma Later(s: State, t: seq<State>, acts: seq<Action>)
    requires GoingOn(s, t, acts) && |acts| > 0
    ensures Waiting(s) && CanAct(s, acts[0]) && IsOwed(s, acts[0]) && t[1] == Act(s, acts[0])
    ensures GoingOn(t[1], t[1..], acts[1..]) && (|acts| > 1 ==> Waiting(t[1]))
  {
    hide CanAct, Act, IsOwed;
    var rest, later := acts[1..], t[1..];
    assert acts[0] == acts[0];
    forall i | 0 <= i < |rest|
      ensures Waiting(later[i]) && CanAct(later[i], rest[i]) && IsOwed(later[i], rest[i]) && later[i + 1] == Act(later[i], rest[i])
    {
      assert rest[i] == acts[i + 1] && later[i] == t[i + 1] && later[i + 1] == t[i + 2];
    }
    if |acts| > 1 { assert acts[1] == rest[0]; }
  }

  /** However they are ordered, no more than `Left(s) + 1` owed steps come before that. */
  lemma {:induction false} OnlySoManySteps(s: State, t: seq<State>, acts: seq<Action>)
    requires Sane(s) && Waiting(s) && GoingOn(s, t, acts)
    ensures |acts| <= Left(s) + 1
    ensures Sane(t[|acts|])
    decreases |acts|
  {
    hide CanAct, Act, IsOwed, Left, Inv;
    if |acts| > 0 {
      Later(s, t, acts);
      EveryStepAdvances(s, acts[0]);
      SaneStep(s, acts[0]);
      if Waiting(t[1]) {
        OnlySoManySteps(t[1], t[1..], acts[1..]);
        assert t[1..][|acts| - 1] == t[|acts|];
      }
    }
  }

  /** What was asked for can be brought to be done. */
  lemma {:induction false} CanBeServed(s: State) returns (t: seq<State>, acts: seq<Action>)
    requires Sane(s) && Waiting(s)
    ensures GoingOn(s, t, acts) && !Waiting(t[|acts|])
    decreases Left(s)
  {
    hide CanAct, Act, IsOwed, Left, Inv;
    var a := SomeStepIsPossible(s);
    EveryStepAdvances(s, a);
    SaneStep(s, a);
    var s' := Act(s, a);
    if Waiting(s') {
      var later, rest := CanBeServed(s');
      t, acts := [s] + later, [a] + rest;
      FirstStep(s, a, later, rest);
    } else {
      t, acts := [s] + [s'], [a] + [];
      FirstStep(s, a, [s'], []);
    }
  }

  lemma FirstStep(s: State, a: Action, later: seq<State>, rest: seq<Action>)
    requires Waiting(s) && CanAct(s, a) && IsOwed(s, a) && GoingOn(Act(s, a), later, rest)
    ensures GoingOn(s, [s] + later, [a] + rest)
  {
    hide CanAct, Act, IsOwed;
    var t, acts := [s] + later, [a] + rest;
    forall i | 0 <= i < |acts|
      ensures Waiting(t[i]) && CanAct(t[i], acts[i]) && IsOwed(t[i], acts[i]) && t[i + 1] == Act(t[i], acts[i])
    {
      if i > 0 { assert acts[i] == rest[i - 1]; }
    }
  }

  /**
  In every run, an interrupt pending in a blocking section is handled, and a request to
  terminate obeyed, after a bounded number of owed steps, whatever their order; until then
  another one is always possible.
  */
  lemma EveryRequestIsServed(t: seq<State>, acts: seq<Action>, i: nat, on: seq<State>, steps: seq<Action>)
    returns (on': seq<State>, steps': seq<Action>)
    requires Run(t, acts) && i < |t| && Waiting(t[i]) && GoingOn(t[i], on, steps)
    ensures |steps| <= Left(t[i]) + 1
    ensures Waiting(on[|steps|]) ==> GoingOn(on[|steps|], on', steps') && !Waiting(on'[|steps'|])
  {
    hide Sane, CanAct, Act, IsOwed, Left;
    RunSane(t, acts, i);
    OnlySoManySteps(t[i], on, steps);
    on', steps' := [], [];
    if Waiting(on[|steps|]) { on', steps' := CanBeServed(on[|steps|]); }
  }

  /** The backup thread takes the interrupt off, with the domain lock, and gives that back; then nothing is left to serve. */
  lemma ServedByBackup(s: State, a: Action)
    requires Inv(s) && ToServe(s) && CanAct(s, a) && IsOwed(s, a)
    ensures s.pending && !Act(s, a).pending ==> a.HelperMove? && s.helper.Handling? && s.domainLock == Some(Backup)
    ensures !Waiting(Act(s, a)) ==> a.HelperMove? && s.helper.Leaving? && !Act(s, a).pending && Act(s, a).domainLock.None?
  {
    hide NoneLost;
  }

  /** When nothing is left of a termination, both threads are gone and the slot can be used again. */
  lemma SlotIsFree(s: State, a: Action)
    requires Inv(s) && ToQuit(s) && CanAct(s, a) && IsOwed(s, a) && !Waiting(Act(s, a))
    ensures Act(s, a).main.Vacant? && Act(s, a).helper.Absent? && Act(s, a).msg.Init?
  {
    StepInv(s, a);
  }

  /** Sending an interrupt makes it pending, and polling in OCaml code takes it off. */
  lemma SendAndPoll(s: State, i: nat)
    requires CanAct(s, SenderMove(i)) && s.senders[i].Elsewhere?
    ensures Act(s, SenderMove(i)).pending && Act(s, SenderMove(i)).senders[i].CheckMsg?
    ensures CanAct(s, MainPoll) ==> !Act(s, MainPoll).pending && Act(s, MainPoll) == s.(pending := false)
  {
  }
}
