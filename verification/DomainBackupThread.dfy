/**
The backup thread of a domain, which serves interrupts while the main thread is in a
blocking section. Main thread, backup thread and any number of senders of interrupts take
atomic steps in any order; the question is whether a wake-up can be lost.
*/
module DomainBackupThread {
  import opened Options

  /** `backup_thread_msg` */
  datatype Msg = InBlockingSection | EnteringOCaml | Terminate | Init

  /** Who holds a lock. */
  datatype Holder = MainThread | Backup | Sender(id: nat)

  /** Where the main thread of the domain slot is. */
  datatype Main =
    | Vacant          // no domain uses the slot
    | Installing      // has the domain lock, about to look for an old backup thread
    | Yielding        // gave the old backup thread a chance
    | Running         // OCaml code
    | ExitCheck       // stored the message, about to look for interrupts
    | ExitLock        // about to signal: take the lock,
    | ExitHold        // signal,
    | ExitUnlock      // and release it
    | ExitRelease     // about to release the domain lock
    | Blocked
    | EnterStore      // has the domain lock again, about to store the message
    | TermLock        // asked the backup thread to terminate, about to signal
    | TermHold
    | TermUnlock
    | TermRelease

  /** Where the backup thread is. */
  datatype Helper =
    | Absent
    | WantLock        // starting, or woken up
    | ReadMsg
    | ReadPending     // saw a blocking section
    | Decided         // about to wait on the condition variable
    | Asleep
    | Unlocking       // saw an interrupt
    | WantDomain
    | Handling        // has the domain lock
    | Leaving
    | WantLockAgain
    | Quitting        // saw the request to terminate
    | LastStore

  /** Where a thread in `caml_send_interrupt` is. */
  datatype Sending =
    | Elsewhere
    | CheckMsg        // has queued the interrupt
    | SigLock
    | SigHold
    | SigUnlock

  datatype State = State(
    msg: Msg,
    pending: bool,
    lock: Option<Holder>,           // backup_thread_lock
    domainLock: Option<Holder>,
    main: Main,
    helper: Helper,
    senders: map<nat, Sending>)

  ghost predicate InitState(s: State) {
    && s.msg == Init && !s.pending && s.lock == None && s.domainLock == None
    && s.main == Vacant && s.helper == Absent
    && forall i :: i in s.senders ==> s.senders[i] == Elsewhere
  }

  datatype Action =
    | MainMove        // the next step of the main thread
    | MainPoll        // OCaml code looks for interrupts
    | MainTerminate
    | HelperMove
    | SpuriousWakeup
    | SenderMove(i: nat)

  predicate NeedsLock(m: Main) {
    m.ExitLock? || m.TermLock?
  }

  predicate NeedsDomainLock(m: Main) {
    m.Vacant? || m.Yielding? || m.Blocked?
  }

  ghost predicate CanAct(s: State, a: Action) {
    match a
    case MainMove => (NeedsLock(s.main) ==> s.lock == None) && (NeedsDomainLock(s.main) ==> s.domainLock == None)
    case MainPoll => s.main.Running?
    case MainTerminate => s.main.Running?
    case HelperMove =>
      && !s.helper.Absent? && !s.helper.Asleep?
      && (s.helper.WantLock? || s.helper.WantLockAgain? ==> s.lock == None)
      && (s.helper.WantDomain? ==> s.domainLock == None)
    case SpuriousWakeup => s.helper.Asleep?
    case SenderMove(i) => i in s.senders && (s.senders[i].SigLock? ==> s.lock == None)
  }

  /** A signal wakes the backup thread if it waits. */
  function Signalled(h: Helper): Helper {
    if h.Asleep? then WantLock else h
  }

  ghost function MoveMain(s: State): State {
    match s.main
    case Vacant => s.(main := Installing, domainLock := Some(MainThread))
    case Installing =>
      if s.msg.Init? then s.(main := Running, msg := EnteringOCaml, helper := WantLock)
      else s.(main := Yielding, domainLock := None)
    case Yielding => s.(main := Installing, domainLock := Some(MainThread))
    case Running => s.(main := ExitCheck, msg := InBlockingSection)
    case ExitCheck => s.(main := if s.pending then ExitLock else ExitRelease)
    case ExitLock => s.(main := ExitHold, lock := Some(MainThread))
    case ExitHold => s.(main := ExitUnlock, helper := Signalled(s.helper))
    case ExitUnlock => s.(main := ExitRelease, lock := None)
    case ExitRelease => s.(main := Blocked, domainLock := None)
    case Blocked => s.(main := EnterStore, domainLock := Some(MainThread))
    case EnterStore => s.(main := Running, msg := EnteringOCaml)
    case TermLock => s.(main := TermHold, lock := Some(MainThread))
    case TermHold => s.(main := TermUnlock, helper := Signalled(s.helper))
    case TermUnlock => s.(main := TermRelease, lock := None)
    case TermRelease => s.(main := Vacant, domainLock := None)
  }

  ghost function MoveHelper(s: State): State {
    match s.helper
    case Absent => s
    case WantLock => s.(helper := ReadMsg, lock := Some(Backup))
    case ReadMsg => s.(helper := if s.msg.Terminate? then Quitting else if s.msg.InBlockingSection? then ReadPending else Decided)
    case ReadPending => s.(helper := if s.pending then Unlocking else Decided)
    case Decided => s.(helper := Asleep, lock := None)
    case Asleep => s
    case Unlocking => s.(helper := WantDomain, lock := None)
    case WantDomain => s.(helper := Handling, domainLock := Some(Backup))
    case Handling => s.(helper := Leaving, pending := false)
    case Leaving => s.(helper := WantLockAgain, domainLock := None)
    case WantLockAgain => s.(helper := ReadMsg, lock := Some(Backup))
    case Quitting => s.(helper := LastStore, lock := None)
    case LastStore => s.(helper := Absent, msg := Init)
  }

  ghost function MoveSender(s: State, i: nat): State
    requires i in s.senders
  {
    match s.senders[i]
    case Elsewhere => s.(senders := s.senders[i := CheckMsg], pending := true)
    case CheckMsg => s.(senders := s.senders[i := if s.msg.InBlockingSection? then SigLock else Elsewhere])
    case SigLock => s.(senders := s.senders[i := SigHold], lock := Some(Sender(i)))
    case SigHold => s.(senders := s.senders[i := SigUnlock], helper := Signalled(s.helper))
    case SigUnlock => s.(senders := s.senders[i := Elsewhere], lock := None)
  }

  ghost function Act(s: State, a: Action): State
    requires CanAct(s, a)
  {
    match a
    case MainMove => MoveMain(s)
    case MainPoll => s.(pending := false)
    case MainTerminate => s.(main := TermLock, msg := Terminate)
    case HelperMove => MoveHelper(s)
    case SpuriousWakeup => s.(helper := WantLock)
    case SenderMove(i) => MoveSender(s, i)
  }

  ghost predicate Run(t: seq<State>, acts: seq<Action>) {
    && |t| == |acts| + 1 && InitState(t[0])
    && forall i {:trigger acts[i]} :: 0 <= i < |acts| ==> CanAct(t[i], acts[i]) && t[i + 1] == Act(t[i], acts[i])
  }

  // ----- Invariants ----------------------------------------------------------

  /** There is something for the backup thread to do. */
  predicate Wanted(s: State) {
    s.msg.Terminate? || (s.msg.InBlockingSection? && s.pending)
  }

  predicate MainOwes(m: Main) {
    m.ExitCheck? || m.ExitLock? || m.ExitHold? || m.TermLock? || m.TermHold?
  }

  predicate SenderOwes(x: Sending) {
    x.CheckMsg? || x.SigLock? || x.SigHold?
  }

  /** Somebody is still going to look, or to signal. */
  ghost predicate Owed(s: State) {
    MainOwes(s.main) || exists i :: i in s.senders && SenderOwes(s.senders[i])
  }

  ghost predicate LocksRight(s: State) {
    && (s.lock == Some(MainThread) <==> s.main.ExitHold? || s.main.ExitUnlock? || s.main.TermHold? || s.main.TermUnlock?)
    && (s.lock == Some(Backup) <==>
          s.helper.ReadMsg? || s.helper.ReadPending? || s.helper.Decided? || s.helper.Unlocking? || s.helper.Quitting?)
    && (forall i :: i in s.senders ==> (s.lock == Some(Sender(i)) <==> s.senders[i].SigHold? || s.senders[i].SigUnlock?))
  }

  /** OCaml code and the handling of interrupts exclude each other. */
  ghost predicate DomainLockRight(s: State) {
    && (s.domainLock == Some(MainThread) <==> !NeedsDomainLock(s.main))
    && (s.domainLock == Some(Backup) <==> s.helper.Handling? || s.helper.Leaving?)
  }

  ghost predicate MessageRight(s: State) {
    && (s.msg.EnteringOCaml? <==> s.main.Running?)
    && (s.msg.InBlockingSection? <==> s.main.ExitCheck? || s.main.ExitLock? || s.main.ExitHold? || s.main.ExitUnlock?
                                      || s.main.ExitRelease? || s.main.Blocked? || s.main.EnterStore?)
    && (s.msg.Init? <==> s.helper.Absent?)
    && (s.helper.Quitting? || s.helper.LastStore? ==> s.msg.Terminate?)
  }

  /** The backup thread neither sleeps nor is about to, unless somebody owes it a signal. */
  ghost predicate NoneLost(s: State) {
    && (Wanted(s) && (s.helper.Decided? || s.helper.Asleep?) ==> Owed(s))
    && (s.msg.Terminate? && (s.helper.ReadPending? || s.helper.Decided? || s.helper.Asleep?) ==> s.main.TermLock? || s.main.TermHold?)
  }

  ghost predicate Inv(s: State) {
    LocksRight(s) && DomainLockRight(s) && MessageRight(s) && NoneLost(s)
  }

  lemma MainLocks(s: State)
    requires LocksRight(s) && DomainLockRight(s) && CanAct(s, MainMove)
    requires s.main.Installing? && s.msg.Init? ==> s.helper.Absent?
    ensures LocksRight(MoveMain(s)) && DomainLockRight(MoveMain(s))
  {
  }

  lemma MainMessage(s: State)
    requires MessageRight(s)
    ensures MessageRight(MoveMain(s))
  {
  }

  /** The main thread stops owing by signalling, or by seeing that no interrupt is pending. */
  lemma MainLosesNone(s: State)
    requires LocksRight(s) && MessageRight(s) && NoneLost(s)
    ensures NoneLost(MoveMain(s))
  {
    assert MoveMain(s).senders == s.senders;
  }

  lemma StepMain(s: State)
    requires Inv(s) && CanAct(s, MainMove)
    ensures Inv(MoveMain(s))
  {
    MainLocks(s);
    MainMessage(s);
    MainLosesNone(s);
  }

  lemma HelperLocks(s: State)
    requires LocksRight(s) && DomainLockRight(s) && CanAct(s, HelperMove)
    ensures LocksRight(MoveHelper(s)) && DomainLockRight(MoveHelper(s))
  {
  }

  /** What it read while holding the lock lets the backup thread go to sleep. */
  lemma HelperLosesNone(s: State)
    requires MessageRight(s) && NoneLost(s)
    ensures MessageRight(MoveHelper(s)) && NoneLost(MoveHelper(s))
  {
    assert MoveHelper(s).senders == s.senders;
  }

  lemma StepHelper(s: State)
    requires Inv(s) && CanAct(s, HelperMove)
    ensures Inv(MoveHelper(s))
  {
    HelperLocks(s);
    HelperLosesNone(s);
  }

  lemma SenderLocks(s: State, i: nat)
    requires LocksRight(s) && DomainLockRight(s) && CanAct(s, SenderMove(i))
    ensures LocksRight(MoveSender(s, i)) && DomainLockRight(MoveSender(s, i))
  {
  }

  /** A sender that stops owing has signalled, or has seen that no signal is needed. */
  lemma SenderLosesNone(s: State, i: nat)
    requires LocksRight(s) && NoneLost(s) && CanAct(s, SenderMove(i))
    ensures NoneLost(MoveSender(s, i))
  {
    var s' := MoveSender(s, i);
    forall j | j in s.senders && j != i ensures j in s'.senders && s'.senders[j] == s.senders[j] {}
    if s.senders[i].Elsewhere? || (s.senders[i].CheckMsg? && s.msg.InBlockingSection?) || s.senders[i].SigLock? {
      assert SenderOwes(s'.senders[i]);
    } else if Wanted(s') && (s'.helper.Decided? || s'.helper.Asleep?) {
      assert Owed(s);
      if !MainOwes(s.main) {
        var j :| j in s.senders && SenderOwes(s.senders[j]);
        assert j in s'.senders && (j == i || SenderOwes(s'.senders[j]));
      }
    }
  }

  lemma StepSender(s: State, i: nat)
    requires Inv(s) && CanAct(s, SenderMove(i))
    ensures Inv(MoveSender(s, i))
  {
    SenderLocks(s, i);
    SenderLosesNone(s, i);
  }

  lemma StepInv(s: State, a: Action)
    requires Inv(s) && CanAct(s, a)
    ensures Inv(Act(s, a))
  {
    if a.MainMove? { StepMain(s); }
    else if a.HelperMove? { StepHelper(s); }
    else if a.SenderMove? { StepSender(s, a.i); }
  }

  lemma {:induction false} RunInv(t: seq<State>, acts: seq<Action>, i: nat)
    requires Run(t, acts) && i < |t|
    ensures Inv(t[i])
  {
    if i > 0 {
      RunInv(t, acts, i - 1);
      StepInv(t[i - 1], acts[i - 1]);
    }
  }

  // ----- Results -------------------------------------------------------------

  /** In a blocking section with an interrupt pending, the backup thread is not asleep unless a signal is still owed to it. */
  lemma NoLostWakeup(t: seq<State>, acts: seq<Action>, i: nat)
    requires Run(t, acts) && i < |t| && t[i].msg.InBlockingSection? && t[i].pending && t[i].helper.Asleep?
    ensures t[i].main.ExitCheck? || t[i].main.ExitLock? || t[i].main.ExitHold?
      || exists j :: j in t[i].senders && SenderOwes(t[i].senders[j])
  {
    RunInv(t, acts, i);
  }

  /** The request to terminate is not lost either. */
  lemma NoLostTermination(t: seq<State>, acts: seq<Action>, i: nat)
    requires Run(t, acts) && i < |t| && t[i].msg.Terminate? && t[i].helper.Asleep?
    ensures t[i].main.TermLock? || t[i].main.TermHold?
  {
    RunInv(t, acts, i);
  }

  /** Woken up while wanted, it goes on to handle the interrupt or to quit, not back to sleep. */
  lemma WokenDoesNotSleep(t: seq<State>, acts: seq<Action>, i: nat)
    requires Run(t, acts) && i < |acts| && acts[i].HelperMove? && t[i + 1].helper.Decided?
    ensures !Wanted(t[i]) || Owed(t[i])
  {
    RunInv(t, acts, i);
    RunInv(t, acts, i + 1);
    assert !MainOwes(t[i].main) && Owed(t[i + 1]) ==> exists j :: j in t[i].senders && SenderOwes(t[i].senders[j]) by {
      assert t[i + 1].senders == t[i].senders && t[i + 1].main == t[i].main;
    }
  }

  /** Interrupts are taken off only by whoever has the domain lock, and never by both threads at once. */
  lemma HandledUnderDomainLock(t: seq<State>, acts: seq<Action>, i: nat)
    requires Run(t, acts) && i < |acts| && t[i].pending && !t[i + 1].pending
    ensures (acts[i].MainPoll? && t[i].domainLock == Some(MainThread)) || (acts[i].HelperMove? && t[i].domainLock == Some(Backup))
    ensures !(t[i].main.Running? && t[i].helper.Handling?)
  {
    assert CanAct(t[i], acts[i]);
    RunInv(t, acts, i);
  }

  /** The transitions of the message that are taken; termination is asked for from OCaml code. */
  predicate Follows(m: Msg, m': Msg) {
    match m
    case Init => m' == EnteringOCaml
    case EnteringOCaml => m' == InBlockingSection || m' == Terminate
    case InBlockingSection => m' == EnteringOCaml
    case Terminate => m' == Init
  }

  lemma MessageStep(s: State, a: Action)
    requires MessageRight(s) && CanAct(s, a)
    ensures Act(s, a).msg != s.msg ==> Follows(s.msg, Act(s, a).msg)
  {
  }

  /** The message goes round its cycle: no other transition is taken in any run. */
  lemma MessageCycle(t: seq<State>, acts: seq<Action>, i: nat)
    requires Run(t, acts) && i < |acts|
    ensures t[i + 1].msg == t[i].msg || Follows(t[i].msg, t[i + 1].msg)
  {
    RunInv(t, acts, i);
    hide LocksRight, DomainLockRight, MessageRight, NoneLost, Act, CanAct;
    MessageStep(t[i], acts[i]);
  }
}
