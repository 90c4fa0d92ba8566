/**
Freedom from deadlock of the stop-the-world protocol: a section that was begun comes to its
end by steps that the participants owe it anyway. Nobody has to make a new request, to
create or to terminate a domain, or to be woken up without a reason; and whatever order
such steps are taken in, only so many of them fit into the section.
*/
module DomainProgress {
  import opened Options
  import opened DomainStopTheWorld

  /**
   * Steps that go on with what was begun: no new request, termination or creation, no
   * wake-up of a thread whose condition variable was not signalled, and no polling where
   * there is nothing to handle.
   */
  predicate GoesOn(s: State, a: Action)
    requires Enabled(s, a)
  {
    match a
    case Request(_, _) => false
    case Terminate(_) => false
    case Spawn(_) => false
    case StartPolling(d) => s.pending[d]
    case WakeRequest(d) => d !in s.sleepers
    case SpawnLock(c) => c !in s.waiters
    case _ => true
  }

  // ----- A measure of what is left to do -------------------------------------

  /** How far a domain is from having nothing to do, when `n` domains may have to be interrupted. */
  function Rank(n: nat, pc: PC, pending: bool): nat {
    (if pending then 16 else 0) +
    match pc
    case Off => 0
    case Mutator => 1
    case Polling => if pending then 0 else 2
    case LastUnlocking => 2
    case TermHolding => 2
    case LastHolding => 3
    case TermLocking => 3
    case Holding(_) => 3
    case LastLocking => 4
    case Trying(_) => 4
    case Asleep(_) => 4
    case Decrementing => 5
    case Calling => 6
    case Waiting => 7
    case Releasing => 7
    case Arriving => 8
    case Entering => 9
    case Sending(next, _) => if next <= n then 32 * (n + 1 - next) else 32
    case Claiming(_) => 32 * (n + 2)
  }

  function CreatorRank(c: Creator, waits: bool): nat {
    match c
    case Resting => 0
    case Locking(_, _) => if waits then 0 else 2
    case Checking(_, _) => 1
  }

  function Sum(ranks: seq<nat>): nat {
    if ranks == [] then 0 else Sum(ranks[..|ranks| - 1]) + ranks[|ranks| - 1]
  }

  lemma {:induction false} SumUpdate(ranks: seq<nat>, i: nat, r: nat)
    requires i < |ranks|
    ensures Sum(ranks[i := r]) + ranks[i] == Sum(ranks) + r
  {
    var n := |ranks| - 1;
    if i < n {
      SumUpdate(ranks[..n], i, r);
      assert ranks[i := r][..n] == ranks[..n][i := r];
    } else {
      assert ranks[i := r][..n] == ranks[..n];
    }
  }

  function RankAt(s: State, d: nat): nat
    requires d < |s.pc| == |s.pending|
  {
    Rank(|s.order|, s.pc[d], s.pending[d])
  }

  function Ranks(s: State): (r: seq<nat>)
    requires |s.pc| == |s.pending|
    ensures |r| == |s.pc| && forall d :: 0 <= d < |r| ==> r[d] == RankAt(s, d)
  {
    seq(|s.pc|, d requires 0 <= d < |s.pc| => RankAt(s, d))
  }

  function CreatorRanks(s: State): (r: seq<nat>)
    ensures |r| == |s.creators| && forall c :: 0 <= c < |r| ==> r[c] == CreatorRank(s.creators[c], c in s.waiters)
  {
    seq(|s.creators|, c requires 0 <= c < |s.creators| => CreatorRank(s.creators[c], c in s.waiters))
  }

  function Remaining(s: State): nat
    requires |s.pc| == |s.pending|
  {
    Sum(Ranks(s)) + Sum(CreatorRanks(s))
  }

  /** A step of one domain that comes closer to rest. */
  lemma OneCloser(s: State, s': State, d: nat)
    requires d < |s.pc| == |s.pending| == |s'.pc| == |s'.pending| && |s'.order| == |s.order|
    requires forall e :: 0 <= e < |s.pc| && e != d ==> s'.pc[e] == s.pc[e] && s'.pending[e] == s.pending[e]
    requires s'.creators == s.creators && s'.waiters == s.waiters
    requires RankAt(s', d) < RankAt(s, d)
    ensures Remaining(s') < Remaining(s)
  {
    hide Rank, Sum;
    assert Ranks(s') == Ranks(s)[d := RankAt(s', d)];
    SumUpdate(Ranks(s), d, RankAt(s', d));
    assert CreatorRanks(s') == CreatorRanks(s);
  }

  /** The leader interrupts another domain: it comes closer by more than the other falls back. */
  lemma TwoCloser(s: State, s': State, d: nat, t: nat)
    requires d < |s.pc| == |s.pending| == |s'.pc| == |s'.pending| && |s'.order| == |s.order| && t < |s.pc| && t != d
    requires forall e :: 0 <= e < |s.pc| && e != d && e != t ==> s'.pc[e] == s.pc[e] && s'.pending[e] == s.pending[e]
    requires s'.creators == s.creators && s'.waiters == s.waiters
    requires RankAt(s', d) + RankAt(s', t) < RankAt(s, d) + RankAt(s, t)
    ensures Remaining(s') < Remaining(s)
  {
    hide Rank, Sum;
    assert Ranks(s') == Ranks(s)[d := RankAt(s', d)][t := RankAt(s', t)];
    SumUpdate(Ranks(s), d, RankAt(s', d));
    SumUpdate(Ranks(s)[d := RankAt(s', d)], t, RankAt(s', t));
    assert CreatorRanks(s') == CreatorRanks(s);
  }

  lemma CreatorCloser(s: State, s': State, c: nat)
    requires |s.pc| == |s.pending| && s'.pc == s.pc && s'.pending == s.pending && s'.order == s.order && c < |s.creators|
    requires |s'.creators| == |s.creators|
    requires forall e :: 0 <= e < |s.creators| && e != c ==>
      s'.creators[e] == s.creators[e] && (e in s'.waiters <==> e in s.waiters)
    requires CreatorRank(s'.creators[c], c in s'.waiters) < CreatorRank(s.creators[c], c in s.waiters)
    ensures Remaining(s') < Remaining(s)
  {
    hide Rank, Sum, CreatorRank;
    assert Ranks(s') == Ranks(s);
    assert CreatorRanks(s') == CreatorRanks(s)[c := CreatorRank(s'.creators[c], c in s'.waiters)];
    SumUpdate(CreatorRanks(s), c, CreatorRank(s'.creators[c], c in s'.waiters));
  }

  /** The step ends the section, or it comes closer to that. */
  ghost predicate Advances(s: State, a: Action)
    requires Enabled(s, a) && |s.pc| == |s.pending|
  {
    var s' := Apply(s, a);
    s'.leader.None? || (|s'.pc| == |s'.pending| && Remaining(s') < Remaining(s))
  }

  lemma CreatorAdvances(s: State, a: Action)
    requires |s.pc| == |s.pending| && Enabled(s, a) && GoesOn(s, a) && s.leader.Some? && IsCreatorAction(a)
    ensures Advances(s, a)
  {
    CreatorCloser(s, Apply(s, a), a.c);
  }

  lemma InterruptAdvances(s: State, d: nat)
    requires Enabled(s, Interrupt(d)) && s.participating <= |s.order|
    ensures Advances(s, Interrupt(d))
  {
    hide Remaining;
    var i, s' := s.pc[d].next, Apply(s, Interrupt(d));
    if i < s.participating && s.order[i] != d && s.order[i] < |s.pc| {
      TwoCloser(s, s', d, s.order[i]);
    } else {
      OneCloser(s, s', d);
    }
  }

  /** No domain in the section has an interrupt pending. */
  lemma NotPending(s: State, m: Monitor, d: nat)
    requires Inv(s, m) && d < |s.pc| && InSection(s.pc[d])
    ensures !s.pending[d]
  {
    TheDomain(s, m, d);
  }

  lemma BarrierAdvances(s: State, a: Action)
    requires Enabled(s, a) && (a.TestBarrier? || a.Arrive? || a.Release? || a.Wake?)
    ensures Advances(s, a)
  {
    hide Remaining;
    OneCloser(s, Apply(s, a), a.d);
  }

  lemma CallAdvances(s: State, a: Action)
    requires Enabled(s, a) && (a.Call? || a.Decrement?) && !s.pending[a.d]
    ensures Advances(s, a)
  {
    hide Remaining;
    OneCloser(s, Apply(s, a), a.d);
  }

  lemma SectionAdvances(s: State, m: Monitor, a: Action)
    requires Inv(s, m) && Enabled(s, a) && IsSectionAction(a)
    ensures |s.pc| == |s.pending| && Advances(s, a)
  {
    Basics(s, m);
    hide Inv, Remaining;
    if a.ClearLeader? {
      assert Apply(s, a).leader.None?;
    } else {
      hide Apply, Advances;
      if a.Call? || a.Decrement? { NotPending(s, m, a.d); CallAdvances(s, a); } else { BarrierAdvances(s, a); }
    }
  }

  lemma RequestAdvances(s: State, a: Action)
    requires Enabled(s, a) && GoesOn(s, a) && s.leader.Some? && (a.TryLock? || a.TestRequest? || a.WakeRequest?)
    ensures Advances(s, a)
  {
    hide Remaining;
    OneCloser(s, Apply(s, a), a.d);
  }

  lemma PollAdvances(s: State, a: Action)
    requires Enabled(s, a) && GoesOn(s, a) && (a.SetUp? || a.StartPolling? || a.Poll?)
    ensures Advances(s, a)
  {
    hide Remaining;
    OneCloser(s, Apply(s, a), a.d);
  }

  lemma LockAdvances(s: State, a: Action)
    requires Enabled(s, a) && (a.LastLock? || a.LastUnlock? || a.TermLock?)
    ensures Advances(s, a)
  {
    hide Remaining;
    OneCloser(s, Apply(s, a), a.d);
  }

  lemma LeaveAdvances(s: State, d: nat)
    requires Enabled(s, Leave(d))
    ensures Advances(s, Leave(d))
  {
    hide Remaining;
    OneCloser(s, Apply(s, Leave(d)), d);
  }

  /** Every step that goes on with what was begun ends the section or comes closer to its end. */
  lemma EveryStepAdvances(s: State, m: Monitor, a: Action)
    requires Inv(s, m) && Enabled(s, a) && GoesOn(s, a) && s.leader.Some?
    ensures |s.pc| == |s.pending| && Advances(s, a)
  {
    Basics(s, m);
    hide Inv, Remaining, Advances, Apply, Enabled;
    if IsCreatorAction(a) { CreatorAdvances(s, a); }
    else if IsSectionAction(a) { SectionAdvances(s, m, a); }
    else if a.Interrupt? { InterruptAdvances(s, a.d); }
    else if a.Leave? { LeaveAdvances(s, a.d); }
    else if a.LastLock? || a.LastUnlock? || a.TermLock? { LockAdvances(s, a); }
    else if a.TryLock? || a.TestRequest? || a.WakeRequest? { RequestAdvances(s, a); }
    else { PollAdvances(s, a); }
  }

  // ----- What is owed can be done --------------------------------------------

  ghost predicate SomeLast(s: State) {
    exists d :: 0 <= d < |s.pc| && IsLast(s.pc[d])
  }

  ghost predicate SomeReleaser(s: State) {
    exists d :: 0 <= d < |s.pc| && s.pc[d].Releasing?
  }

  ghost predicate OwnerExists(s: State) {
    s.lock.Some? ==> match s.lock.value case Domain(d) => d < |s.pc| case Spawner(c) => c < |s.creators|
  }

  /** Nobody sleeps on a condition variable whose condition holds. */
  ghost predicate NobodyForgotten(s: State) {
    && (s.sleepers != {} ==> s.leader.None? && s.suspended > 0)
    && (s.waiters != {} ==> s.leader.Some?)
  }

  /** Only participants that have finished may have left. */
  ghost predicate OwingAreLive(m: Monitor) {
    m.Within? ==> forall d :: d in m.participants ==> d in m.live || d in m.finished
  }

  /** When all have finished, one of them is about to end the section. */
  ghost predicate LastExists(s: State, m: Monitor) {
    IsSetUp(s, m) && m.finished == m.participants ==> SomeLast(s)
  }

  /** When all have arrived at the closed barrier, one of them is about to open it. */
  ghost predicate ReleaserExists(s: State, m: Monitor) {
    IsSetUp(s, m) && !s.released && m.arrived == m.participants ==> SomeReleaser(s)
  }

  ghost predicate WaitersArrived(s: State, m: Monitor) {
    m.Within? ==> forall d :: 0 <= d < |s.pc| && s.pc[d].Waiting? ==> d in m.arrived
  }

  ghost predicate Lively(s: State, m: Monitor) {
    && OwnerExists(s) && NobodyForgotten(s) && OwingAreLive(m)
    && LastExists(s, m) && ReleaserExists(s, m) && WaitersArrived(s, m)
  }

  lemma LockedGoesOn(s: State, d: nat) returns (a: Action)
    requires |s.pc| == |s.pending| == |s.order| && d < |s.pc| && HoldsLock(s.pc[d])
    ensures Enabled(s, a) && GoesOn(s, a)
  {
    a := match s.pc[d]
      case Holding(_) => TestRequest(d)
      case Claiming(_) => SetUp(d)
      case Sending(_, _) => Interrupt(d)
      case LastHolding => ClearLeader(d)
      case LastUnlocking => LastUnlock(d)
      case _ => Leave(d);
  }

  lemma TestsAgain(s: State, c: nat) returns (a: Action)
    requires c < |s.creators| && s.creators[c].Checking?
    ensures Enabled(s, a) && GoesOn(s, a)
  {
    a := SpawnTest(c);
  }

  lemma Holder(s: State)
    requires LockHeld(s) && OwnerExists(s) && s.lock.Some?
    ensures match s.lock.value
      case Domain(d) => d < |s.pc| && HoldsLock(s.pc[d])
      case Spawner(c) => c < |s.creators| && s.creators[c].Checking?
  {
  }

  /** Whoever holds the lock can go on. */
  lemma HolderGoesOn(s: State, m: Monitor) returns (a: Action)
    requires Inv(s, m) && Lively(s, m) && s.lock.Some?
    ensures Enabled(s, a) && GoesOn(s, a)
  {
    Basics(s, m);
    LockOf(s, m);
    Holder(s);
    hide Inv, Lively, LockHeld, HoldsLock, GoesOn, Enabled;
    match s.lock.value
    case Spawner(c) => a := TestsAgain(s, c);
    case Domain(d) => a := LockedGoesOn(s, d);
  }

  /** With the lock free, a domain that was interrupted can go on. */
  lemma InterruptedGoesOn(s: State, d: nat) returns (a: Action)
    requires |s.pc| == |s.pending| == |s.order| && d < |s.pc| && s.pending[d] && !s.pc[d].Off? && NobodyForgotten(s)
    requires s.lock.None? && s.leader.Some? && !HoldsLock(s.pc[d]) && !InSection(s.pc[d])
    ensures Enabled(s, a) && GoesOn(s, a)
  {
    a := match s.pc[d]
      case Mutator => StartPolling(d)
      case Polling => Poll(d)
      case Trying(_) => TryLock(d)
      case Asleep(_) => WakeRequest(d)
      case LastLocking => LastLock(d)
      case _ => TermLock(d);
  }

  /** So can a domain in the section, unless it waits at the closed barrier. */
  lemma ParticipantGoesOn(s: State, d: nat) returns (a: Action)
    requires |s.pc| == |s.pending| == |s.order| && d < |s.pc| && InSection(s.pc[d]) && !(s.pc[d].Waiting? && !s.released)
    ensures Enabled(s, a) && GoesOn(s, a)
  {
    a := match s.pc[d]
      case Entering => TestBarrier(d)
      case Arriving => Arrive(d)
      case Releasing => Release(d)
      case Waiting => Wake(d)
      case Calling => Call(d)
      case _ => Decrement(d);
  }

  /** With the lock free, all interrupts have been sent. */
  lemma NobodyLeads(s: State, m: Monitor, d: nat)
    requires Inv(s, m) && s.lock.None? && d < |s.pc|
    ensures !HoldsLock(s.pc[d]) && !Leads(s.pc[d]) && (m.Within? ==> IsSetUp(s, m) && !Unsent(s, m.leader, d))
  {
    assert !HoldsLock(s.pc[d]);
    if m.Within? { assert !HoldsLock(s.pc[m.leader]); }
  }

  /** With the lock free, a participant that owes the section something can go on, or waits at the closed barrier. */
  lemma OwingGoesOn(s: State, m: Monitor, d: nat) returns (a: Option<Action>)
    requires Inv(s, m) && Lively(s, m) && s.lock.None? && s.leader.Some?
    requires m.Within? && d in m.participants && d !in m.finished
    ensures a.Some? ==> Enabled(s, a.value) && GoesOn(s, a.value)
    ensures a.None? ==> d < |s.pc| && s.pc[d].Waiting? && !s.released
  {
    Basics(s, m);
    assert d in Live(s);
    NobodyLeads(s, m, d);
    TheDomain(s, m, d);
    hide Inv, Unsent;
    if s.pc[d].Waiting? && !s.released {
      a := None;
    } else if InSection(s.pc[d]) {
      var b := ParticipantGoesOn(s, d);
      a := Some(b);
    } else {
      var b := InterruptedGoesOn(s, d);
      a := Some(b);
    }
  }

  /** While the barrier is closed nobody has run or finished, and somebody has not arrived or is about to open it. */
  lemma ClosedBarrier(s: State, m: Monitor)
    requires Inv(s, m) && m.Within? && !s.released
    ensures IsSetUp(s, m) && m.ran == {} == m.finished
  {
  }

  lemma Missing(a: set<nat>, b: set<nat>) returns (x: nat)
    requires a <= b && a != b
    ensures x in b && x !in a
  {
    x :| x in b && x !in a;
  }

  lemma ReleaserGoesOn(s: State) returns (a: Action)
    requires |s.pc| == |s.pending| == |s.order| && SomeReleaser(s)
    ensures Enabled(s, a) && GoesOn(s, a)
  {
    var d :| 0 <= d < |s.pc| && s.pc[d].Releasing?;
    a := Release(d);
  }

  /** Nobody who waits at the barrier has yet to arrive there. */
  lemma MissingDoNotWait(s: State, m: Monitor, e: nat)
    requires Lively(s, m) && m.Within? && e !in m.arrived
    ensures !(e < |s.pc| && s.pc[e].Waiting?)
  {
  }

  lemma HasReleaser(s: State, m: Monitor)
    requires Lively(s, m) && IsSetUp(s, m) && !s.released && m.arrived == m.participants
    ensures SomeReleaser(s)
  {
  }

  lemma BarrierGoesOn(s: State, m: Monitor) returns (a: Action)
    requires Inv(s, m) && Lively(s, m) && s.lock.None? && s.leader.Some? && m.Within? && !s.released
    ensures Enabled(s, a) && GoesOn(s, a)
  {
    Basics(s, m);
    ClosedBarrier(s, m);
    hide Inv, Lively, Enabled, GoesOn, SomeReleaser;
    if m.arrived == m.participants {
      HasReleaser(s, m);
      a := ReleaserGoesOn(s);
    } else {
      var e := Missing(m.arrived, m.participants);
      MissingDoNotWait(s, m, e);
      var b := OwingGoesOn(s, m, e);
      a := b.value;
    }
  }

  lemma SectionIsOn(s: State, m: Monitor)
    requires Inv(s, m) && s.leader.Some?
    ensures m.Within?
  {
  }

  lemma LastGoesOn(s: State, m: Monitor) returns (a: Action)
    requires Inv(s, m) && Lively(s, m) && s.lock.None? && IsSetUp(s, m) && m.finished == m.participants
    ensures Enabled(s, a) && GoesOn(s, a)
  {
    Basics(s, m);
    var d :| 0 <= d < |s.pc| && IsLast(s.pc[d]);
    NobodyLeads(s, m, d);
    hide Inv;
    a := LastLock(d);
  }

  /** No deadlock: while a section is on, some step that goes on with it is possible. */
  lemma SomeStepIsPossible(s: State, m: Monitor) returns (a: Action)
    requires Inv(s, m) && Lively(s, m) && s.leader.Some?
    ensures Enabled(s, a) && GoesOn(s, a)
  {
    Basics(s, m);
    SectionIsOn(s, m);
    hide Inv, Lively, Enabled, GoesOn;
    if s.lock.Some? {
      a := HolderGoesOn(s, m);
    } else {
      NobodyLeads(s, m, m.leader);
      if m.finished == m.participants {
        a := LastGoesOn(s, m);
      } else {
        var d := Missing(m.finished, m.participants);
        var b := OwingGoesOn(s, m, d);
        if b.Some? { a := b.value; } else { a := BarrierGoesOn(s, m); }
      }
    }
  }

  // ----- Every step keeps it so ----------------------------------------------

  /** The event that a step makes visible. */
  function EventOf(s: State, a: Action): Option<Event>
    requires Enabled(s, a)
  {
    match a
    case TestRequest(d) =>
      if s.leader.None? && s.suspended == 0 then Some(Claimed(d, Participants(s), s.pc[d].sync)) else None
    case Arrive(d) => Some(Arrived(d))
    case Call(d) => Some(Ran(d))
    case Decrement(d) => Some(Finished(d))
    case ClearLeader(d) => Some(Ended)
    case Leave(d) =>
      if s.pending[d] || !(IndexOf(s.order, d) < s.participating <= |s.order|) then None else Some(Event.Left(d))
    case SpawnTest(c) =>
      if s.leader.None? && s.participating < |s.order| && s.order[s.participating] < |s.pc|
      then Some(Joined(s.order[s.participating])) else None
    case _ => None
  }

  function Next(m: Monitor, e: Option<Event>): Monitor {
    if e.Some? then Observe(m, e.value) else m
  }

  predicate IsLockAction(a: Action) {
    a.LastLock? || a.LastUnlock? || a.TermLock? || a.Leave?
  }

  predicate IsAsideAction(a: Action) {
    a.Request? || a.TryLock? || a.WakeRequest? || a.StartPolling? || a.Poll? || a.Terminate?
  }

  /** What a step of a domain leaves alone. */
  ghost predicate ActorMoves(s: State, a: Action)
    requires Enabled(s, a) && !IsCreatorAction(a)
  {
    var s' := Apply(s, a);
    && |s'.pc| == |s.pc| && s'.pc == s.pc[a.d := s'.pc[a.d]] && s'.creators == s.creators
    && s'.log == s.log + (if EventOf(s, a).Some? then [EventOf(s, a).value] else [])
    && (s'.lock == s.lock || s'.lock.None? || s'.lock == Some(Domain(a.d)))
    && s'.suspended == s.suspended
    && (a.ClearLeader? || (s'.waiters == s.waiters && (s'.leader == s.leader || (s.suspended == 0 && s'.leader.Some?))))
    && (s'.sleepers <= s.sleepers || (s.suspended != 0 && s.leader.None? && s'.leader.None?))
  }

  lemma SectionActor(s: State, a: Action)
    requires Enabled(s, a) && IsSectionAction(a)
    ensures ActorMoves(s, a)
  {
  }

  lemma ClaimActor(s: State, a: Action)
    requires Enabled(s, a) && a.TestRequest?
    ensures ActorMoves(s, a)
  {
  }

  lemma SendActor(s: State, a: Action)
    requires Enabled(s, a) && (a.SetUp? || a.Interrupt?)
    ensures ActorMoves(s, a)
  {
  }

  lemma LockActor(s: State, a: Action)
    requires Enabled(s, a) && IsLockAction(a)
    ensures ActorMoves(s, a)
  {
  }

  lemma AsideActor(s: State, a: Action)
    requires Enabled(s, a) && IsAsideAction(a)
    ensures ActorMoves(s, a)
  {
  }

  lemma Actor(s: State, a: Action)
    requires Enabled(s, a) && !IsCreatorAction(a)
    ensures ActorMoves(s, a)
  {
    hide ActorMoves, Enabled;
    if IsSectionAction(a) { SectionActor(s, a); }
    else if a.TestRequest? { ClaimActor(s, a); }
    else if IsLeaderAction(a) { SendActor(s, a); }
    else if IsLockAction(a) { LockActor(s, a); }
    else { AsideActor(s, a); }
  }

  lemma Logged(s: State, a: Action)
    requires Enabled(s, a)
    ensures Apply(s, a).log == s.log + if EventOf(s, a).Some? then [EventOf(s, a).value] else []
  {
    if !IsCreatorAction(a) {
      Actor(s, a);
      hide Enabled, Apply, EventOf;
    }
  }

  lemma OwnerStep(s: State, a: Action)
    requires Enabled(s, a) && OwnerExists(s)
    ensures OwnerExists(Apply(s, a))
  {
    if !IsCreatorAction(a) {
      Actor(s, a);
      assert a.d < |s.pc|;
      hide Enabled, Apply, EventOf;
    }
  }

  lemma CreatorForgetsNobody(s: State, a: Action)
    requires Enabled(s, a) && NobodyForgotten(s) && IsCreatorAction(a)
    requires a.SpawnTest? && s.creators[a.c].suspending ==> s.suspended > 0
    ensures NobodyForgotten(Apply(s, a))
  {
  }

  lemma SuspendersCount(s: State, m: Monitor, a: Action)
    requires Inv(s, m) && Enabled(s, a) && IsCreatorAction(a)
    ensures a.SpawnTest? ==> a.c < |s.creators| && s.creators[a.c].Checking?
    ensures a.SpawnTest? && s.creators[a.c].suspending ==> s.suspended > 0
  {
    if a.SpawnTest? { SuspenderCounts(s, m, a.c); }
    hide Inv;
  }

  lemma ActorForgetsNobody(s: State, a: Action)
    requires Enabled(s, a) && !IsCreatorAction(a) && !a.ClearLeader? && NobodyForgotten(s)
    ensures NobodyForgotten(Apply(s, a))
  {
    hide Enabled, Apply, EventOf;
    Actor(s, a);
  }

  lemma EndForgetsNobody(s: State, d: nat)
    requires Enabled(s, ClearLeader(d)) && NobodyForgotten(s) && s.leader.Some?
    ensures NobodyForgotten(Apply(s, ClearLeader(d)))
  {
  }

  lemma EndsWithin(s: State, m: Monitor, d: nat)
    requires Inv(s, m) && Enabled(s, ClearLeader(d))
    ensures s.leader.Some?
  {
    assert IsLast(s.pc[d]);
  }

  lemma ForgottenStep(s: State, m: Monitor, a: Action)
    requires Inv(s, m) && Enabled(s, a) && NobodyForgotten(s)
    ensures NobodyForgotten(Apply(s, a))
  {
    hide Inv, Apply, Enabled;
    if IsCreatorAction(a) {
      SuspendersCount(s, m, a);
      CreatorForgetsNobody(s, a);
    } else if a.ClearLeader? {
      EndsWithin(s, m, a.d);
      EndForgetsNobody(s, a.d);
    } else {
      ActorForgetsNobody(s, a);
    }
  }

  lemma LiveStep(m: Monitor, e: Event)
    requires OwingAreLive(m)
    ensures OwingAreLive(Observe(m, e))
  {
  }

  /** An event within a section, other than its claim, changes only what it is about. */
  lemma WithinBefore(m: Monitor, e: Option<Event>)
    requires Next(m, e).Within? && (e.Some? ==> !e.value.Claimed?)
    ensures m.Within? && Next(m, e).participants == m.participants && Next(m, e).leader == m.leader
    ensures m.arrived <= Next(m, e).arrived
    ensures (e.Some? ==> !e.value.Finished?) ==> Next(m, e).finished == m.finished
    ensures (e.Some? ==> !e.value.Arrived?) ==> Next(m, e).arrived == m.arrived
  {
  }

  lemma WhoseEvent(s: State, a: Action)
    requires Enabled(s, a) && EventOf(s, a).Some?
    ensures EventOf(s, a).value.Claimed? ==>
      a.TestRequest? && a.d == EventOf(s, a).value.leader && Apply(s, a).pc == s.pc[a.d := Claiming(s.pc[a.d].sync)]
    ensures EventOf(s, a).value.Finished? ==> a.Decrement?
    ensures EventOf(s, a).value.Arrived? ==> a.Arrive?
  {
    hide Participants;
  }

  /** During a section a step moves nobody but the domain that takes it. */
  lemma OthersStay(s: State, a: Action, e: nat)
    requires Enabled(s, a) && e < |s.pc| && s.leader.Some? && (!IsCreatorAction(a) ==> a.d != e)
    ensures |Apply(s, a).pc| == |s.pc| && Apply(s, a).pc[e] == s.pc[e]
  {
    if !IsCreatorAction(a) {
      Actor(s, a);
      hide Apply, EventOf, Enabled;
    }
  }

  /** Within a section that was set up, the step before was within it, too. */
  lemma StillWithin(s: State, m: Monitor, a: Action)
    requires Inv(s, m) && Enabled(s, a)
    requires var s', m' := Apply(s, a), Next(m, EventOf(s, a)); IsSetUp(s', m') && !a.SetUp?
    ensures var m' := Next(m, EventOf(s, a));
      && IsSetUp(s, m) && m'.Within? && m'.participants == m.participants
      && (a.Decrement? || m'.finished == m.finished) && (a.Arrive? || m'.arrived == m.arrived) && m.arrived <= m'.arrived
  {
    Basics(s, m);
    if EventOf(s, a).Some? { WhoseEvent(s, a); }
    WithinBefore(m, EventOf(s, a));
    assert s.leader.Some? && (s.pc[m.leader].Claiming? && !IsCreatorAction(a) ==> a.d != m.leader);
    hide Inv, Enabled, Apply, EventOf;
    if s.pc[m.leader].Claiming? { OthersStay(s, a, m.leader); }
  }

  lemma SameLast(s: State, a: Action)
    requires Enabled(s, a) && SomeLast(s) && s.leader.Some? && !a.ClearLeader?
    ensures SomeLast(Apply(s, a))
  {
    var d :| 0 <= d < |s.pc| && IsLast(s.pc[d]);
    if !IsCreatorAction(a) && a.d == d {
      assert a == LastLock(d);
      assert IsLast(Apply(s, a).pc[d]);
    } else {
      OthersStay(s, a, d);
      hide Apply, Enabled;
    }
  }

  lemma CountedToZero(s: State, m: Monitor, d: nat)
    requires Inv(s, m) && Enabled(s, Decrement(d)) && Observe(m, Finished(d)).Within?
    requires Observe(m, Finished(d)).finished == m.participants
    ensures SomeLast(Apply(s, Decrement(d)))
  {
    StepDecrement(s, m, d);
    var s', m' := Apply(s, Decrement(d)), Observe(m, Finished(d));
    TheDomain(s, m, d);
    assert IsSetUp(s', m');
    assert m'.participants - m'.finished == {};
    assert IsLast(s'.pc[d]);
  }

  lemma LastStep(s: State, m: Monitor, a: Action)
    requires Inv(s, m) && Enabled(s, a) && LastExists(s, m)
    ensures LastExists(Apply(s, a), Next(m, EventOf(s, a)))
  {
    var s', m' := Apply(s, a), Next(m, EventOf(s, a));
    if IsSetUp(s', m') && m'.finished == m'.participants {
      if a.SetUp? {
        NobodyYet(s, m, a.d);
        LeaderTakesPart(s, m);
      } else {
        StillWithin(s, m, a);
        if a.Decrement? { CountedToZero(s, m, a.d); }
        else if a.ClearLeader? { assert false; }
        else { assert s.leader.Some?; SameLast(s, a); }
      }
    }
  }

  lemma SameReleaser(s: State, a: Action)
    requires Enabled(s, a) && SomeReleaser(s) && s.leader.Some?
    ensures SomeReleaser(Apply(s, a)) || Apply(s, a).released
  {
    var d :| 0 <= d < |s.pc| && s.pc[d].Releasing?;
    if !IsCreatorAction(a) && a.d == d {
      assert a == Release(d);
    } else {
      OthersStay(s, a, d);
      hide Apply, Enabled;
    }
  }

  lemma AllArrived(s: State, m: Monitor, d: nat)
    requires Inv(s, m) && Enabled(s, Arrive(d)) && Observe(m, Arrived(d)).Within?
    requires Observe(m, Arrived(d)).arrived == m.participants
    ensures SomeReleaser(Apply(s, Arrive(d)))
  {
    StepArrive(s, m, d);
    var s', m' := Apply(s, Arrive(d)), Observe(m, Arrived(d));
    TheDomain(s, m, d);
    assert s.numDomains == |m.participants| && s'.arrived == |m'.arrived|;
    assert s'.pc[d].Releasing?;
  }

  lemma ReleasedStays(s: State, a: Action)
    requires Enabled(s, a) && s.released && !a.SetUp?
    ensures Apply(s, a).released
  {
  }

  lemma ReleaserStep(s: State, m: Monitor, a: Action)
    requires Inv(s, m) && Enabled(s, a) && ReleaserExists(s, m)
    ensures ReleaserExists(Apply(s, a), Next(m, EventOf(s, a)))
  {
    var s', m' := Apply(s, a), Next(m, EventOf(s, a));
    if IsSetUp(s', m') && !s'.released && m'.arrived == m'.participants {
      if a.SetUp? {
        NobodyYet(s, m, a.d);
        LeaderTakesPart(s, m);
      } else {
        StillWithin(s, m, a);
        if s.released { ReleasedStays(s, a); }
        if a.Arrive? { AllArrived(s, m, a.d); } else { assert s.leader.Some?; SameReleaser(s, a); }
      }
    }
  }

  lemma WaitsAfterArriving(s: State, a: Action, d: nat)
    requires Enabled(s, a) && d < |s.pc| && !IsCreatorAction(a) && a.d == d && Apply(s, a).pc[d].Waiting?
    ensures a.Arrive?
  {
    hide Participants, IndexOf, Removed;
  }

  lemma WaitingStep(s: State, m: Monitor, a: Action)
    requires Inv(s, m) && Enabled(s, a) && WaitersArrived(s, m)
    requires Inv(Apply(s, a), Next(m, EventOf(s, a)))
    ensures WaitersArrived(Apply(s, a), Next(m, EventOf(s, a)))
  {
    var s', m' := Apply(s, a), Next(m, EventOf(s, a));
    forall d | m'.Within? && 0 <= d < |s'.pc| && s'.pc[d].Waiting? ensures d in m'.arrived {
      assert AtBarrier(s'.pc[d]);
      assert IsSetUp(s', m');
      if a.SetUp? { NobodyYet(s, m, a.d); } else { WaiterArrived(s, m, a, d); }
    }
  }

  lemma ArrivesAt(s: State, m: Monitor, a: Action)
    requires Enabled(s, a) && a.Arrive? && Next(m, EventOf(s, a)).Within?
    ensures a.d in Next(m, EventOf(s, a)).arrived
  {
  }

  lemma WithinHasLeader(s: State, m: Monitor)
    requires Inv(s, m) && m.Within?
    ensures s.leader.Some?
  {
  }

  lemma SameDomains(s: State, a: Action)
    requires Enabled(s, a)
    ensures |Apply(s, a).pc| == |s.pc|
  {
    if !IsCreatorAction(a) {
      hide Enabled, Apply, EventOf;
      Actor(s, a);
    }
  }

  lemma WaiterArrived(s: State, m: Monitor, a: Action, d: nat)
    requires Inv(s, m) && Enabled(s, a) && WaitersArrived(s, m) && !a.SetUp?
    requires IsSetUp(Apply(s, a), Next(m, EventOf(s, a))) && d < |Apply(s, a).pc| && Apply(s, a).pc[d].Waiting?
    ensures d in Next(m, EventOf(s, a)).arrived
  {
    hide Inv, Apply, Enabled, EventOf;
    StillWithin(s, m, a);
    WithinHasLeader(s, m);
    SameDomains(s, a);
    if !IsCreatorAction(a) && a.d == d {
      WaitsAfterArriving(s, a, d);
      ArrivesAt(s, m, a);
    } else {
      OthersStay(s, a, d);
    }
  }

  lemma LivelyStep(s: State, m: Monitor, a: Action)
    requires Inv(s, m) && Lively(s, m) && Enabled(s, a) && Inv(Apply(s, a), Next(m, EventOf(s, a)))
    ensures Lively(Apply(s, a), Next(m, EventOf(s, a)))
  {
    hide Inv, Apply, EventOf, Enabled, OwnerExists, NobodyForgotten, OwingAreLive, LastExists, ReleaserExists, WaitersArrived;
    OwnerStep(s, a);
    ForgottenStep(s, m, a);
    if EventOf(s, a).Some? { LiveStep(m, EventOf(s, a).value); }
    LastStep(s, m, a);
    ReleaserStep(s, m, a);
    WaitingStep(s, m, a);
  }

  /** The invariants, with the monitor that the log of the state determines. */
  ghost predicate Sane(s: State) {
    Inv(s, Verdict({}, s.log)) && Lively(s, Verdict({}, s.log))
  }

  lemma SaneStep(s: State, a: Action)
    requires Sane(s) && Enabled(s, a)
    ensures Sane(Apply(s, a))
  {
    hide Inv, Apply, EventOf, Enabled, Lively;
    var m := Verdict({}, s.log);
    VerdictFollows(s, a);
    Logged(s, a);
    if EventOf(s, a).Some? { VerdictOfExtension({}, s.log, EventOf(s, a).value); } else { assert s.log + [] == s.log; }
    LivelyStep(s, m, a);
  }

  lemma InitSane(s: State)
    requires Init(s)
    ensures Sane(s)
  {
    InitInv(s);
    assert Verdict({}, s.log) == Between({});
    hide Inv;
  }

  lemma {:induction false} RunSane(states: seq<State>, actions: seq<Action>, i: nat)
    requires Run(states, actions) && i < |states|
    ensures Sane(states[i])
  {
    hide Sane, Init, Enabled, Apply;
    if i == 0 {
      InitSane(states[0]);
    } else {
      RunSane(states, actions, i - 1);
      SaneStep(states[i - 1], actions[i - 1]);
    }
  }

  // ----- The theorems --------------------------------------------------------

  /** Steps that go on with a section, which was not over before the last of them. */
  ghost predicate GoingOn(s: State, states: seq<State>, actions: seq<Action>) {
    && |states| == |actions| + 1 && states[0] == s
    && forall i {:trigger actions[i]} :: 0 <= i < |actions| ==>
         && states[i].leader.Some? && Enabled(states[i], actions[i]) && GoesOn(states[i], actions[i])
         && states[i + 1] == Apply(states[i], actions[i])
  }

  lemma StepOfSane(s: State, a: Action)
    requires Sane(s) && s.leader.Some? && Enabled(s, a) && GoesOn(s, a)
    ensures |s.pc| == |s.pending| && |Apply(s, a).pc| == |Apply(s, a).pending|
    ensures Sane(Apply(s, a)) && (Apply(s, a).leader.None? || Remaining(Apply(s, a)) < Remaining(s))
  {
    hide Inv, Apply, Enabled, GoesOn, Lively, Remaining;
    EveryStepAdvances(s, Verdict({}, s.log), a);
    SaneStep(s, a);
    Basics(Apply(s, a), Verdict({}, Apply(s, a).log));
  }

  lemma Measurable(s: State)
    requires Sane(s)
    ensures |s.pc| == |s.pending|
  {
    hide Lively;
  }

  /** No livelock: however they are ordered, no more than `Remaining(s)` such steps fit into the section. */
  lemma {:induction false} OnlySoManySteps(s: State, states: seq<State>, actions: seq<Action>)
    requires Sane(s) && GoingOn(s, states, actions)
    ensures |s.pc| == |s.pending| && |actions| <= Remaining(s) + 1
    ensures forall i :: 0 <= i < |states| ==> Sane(states[i])
    decreases |actions|
  {
    hide Sane, Apply, Enabled, GoesOn, Remaining;
    Measurable(s);
    if |actions| > 0 {
      var s' := states[1];
      Later(s, states, actions);
      StepOfSane(s, actions[0]);
      OnlySoManySteps(s', states[1..], actions[1..]);
      forall i | 0 <= i < |states| ensures Sane(states[i]) { if i > 0 { assert states[i] == states[1..][i - 1]; } }
    }
  }

  lemma Later(s: State, states: seq<State>, actions: seq<Action>)
    requires GoingOn(s, states, actions) && |actions| > 0
    ensures states[1] == Apply(s, actions[0]) && GoingOn(states[1], states[1..], actions[1..])
    ensures s.leader.Some? && Enabled(s, actions[0]) && GoesOn(s, actions[0])
    ensures |actions| > 1 ==> states[1].leader.Some?
  {
    hide Apply, Enabled, GoesOn;
    var rest, later := actions[1..], states[1..];
    assert actions[0] == actions[0];
    forall i | 0 <= i < |rest|
      ensures later[i].leader.Some? && Enabled(later[i], rest[i]) && GoesOn(later[i], rest[i]) && later[i + 1] == Apply(later[i], rest[i])
    {
      assert rest[i] == actions[i + 1] && later[i] == states[i + 1] && later[i + 1] == states[i + 2];
    }
    if |actions| > 1 { assert actions[1] == rest[0]; }
  }

  lemma NextStep(s: State) returns (a: Action)
    requires Sane(s) && s.leader.Some?
    ensures Enabled(s, a) && GoesOn(s, a)
  {
    hide Inv, Lively, Enabled, GoesOn;
    a := SomeStepIsPossible(s, Verdict({}, s.log));
  }

  /** A section that was begun can be brought to its end. */
  lemma {:induction false} SectionCanEnd(s: State) returns (states: seq<State>, actions: seq<Action>)
    requires Sane(s) && s.leader.Some?
    ensures GoingOn(s, states, actions) && states[|actions|].leader.None?
    decreases if |s.pc| == |s.pending| then Remaining(s) else 0
  {
    hide Sane, Apply, Enabled, GoesOn, Remaining;
    Measurable(s);
    var a := NextStep(s);
    StepOfSane(s, a);
    var s' := Apply(s, a);
    if s'.leader.None? {
      states, actions := [s] + [s'], [a] + [];
      FirstStep(s, a, [s'], []);
    } else {
      var later, rest := SectionCanEnd(s');
      states, actions := [s] + later, [a] + rest;
      FirstStep(s, a, later, rest);
    }
  }

  lemma FirstStep(s: State, a: Action, later: seq<State>, rest: seq<Action>)
    requires s.leader.Some? && Enabled(s, a) && GoesOn(s, a) && GoingOn(Apply(s, a), later, rest)
    ensures GoingOn(s, [s] + later, [a] + rest)
  {
    hide Apply, Enabled, GoesOn;
    var states, actions := [s] + later, [a] + rest;
    forall i | 0 <= i < |actions|
      ensures states[i].leader.Some? && Enabled(states[i], actions[i]) && GoesOn(states[i], actions[i]) && states[i + 1] == Apply(states[i], actions[i])
    {
      if i > 0 { assert actions[i] == rest[i - 1]; }
    }
  }

  /**
   * Freedom from deadlock: from every state of every run in which a section is on, steps
   * that go on with it lead to its end, and whatever such steps have been taken, another
   * one is possible until the section is over.
   */
  lemma EverySectionEnds(states: seq<State>, actions: seq<Action>, i: nat, on: seq<State>, steps: seq<Action>)
    returns (on': seq<State>, steps': seq<Action>)
    requires Run(states, actions) && i < |states| && GoingOn(states[i], on, steps)
    ensures |states[i].pc| == |states[i].pending| && |steps| <= Remaining(states[i]) + 1
    ensures var s := on[|steps|]; s.leader.Some? ==> GoingOn(s, on', steps') && on'[|steps'|].leader.None?
  {
    hide Sane, Apply, Enabled, GoesOn, Remaining, Init;
    RunSane(states, actions, i);
    OnlySoManySteps(states[i], on, steps);
    on', steps' := [], [];
    if on[|steps|].leader.Some? { on', steps' := SectionCanEnd(on[|steps|]); }
  }

  /** No thread sleeps on a condition variable after what it waits for has come. */
  lemma NobodyOversleeps(states: seq<State>, actions: seq<Action>, i: nat)
    requires Run(states, actions) && i < |states|
    ensures var s := states[i];
      && (s.sleepers != {} ==> s.leader.None? && s.suspended > 0)
      && (s.waiters != {} ==> s.leader.Some?)
  {
    RunSane(states, actions, i);
    hide Inv;
  }
}
