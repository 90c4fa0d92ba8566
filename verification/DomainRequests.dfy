/**
What becomes of requests: a section has the flag its leader asked for, a request is given
up only for the reasons the runtime gives, and domains join, leave and lead when nothing
stands in their way.
*/
module DomainRequests {
  import opened Options
  import opened DomainStopTheWorld
  import opened DomainProgress

  // ----- A section is what was asked for -------------------------------------

  /** The flag a domain carries while its request is under way. */
  function Flag(pc: PC): Option<bool> {
    match pc
    case Trying(sync) => Some(sync)
    case Holding(sync) => Some(sync)
    case Asleep(sync) => Some(sync)
    case Claiming(sync) => Some(sync)
    case Sending(_, sync) => Some(sync)
    case _ => None
  }

  /** What `d` asked for last. */
  function Asked(actions: seq<Action>, d: nat): Option<bool> {
    if actions == [] then None
    else
      var n := |actions| - 1;
      match actions[n]
      case Request(e, sync) => if e == d then Some(sync) else Asked(actions[..n], d)
      case _ => Asked(actions[..n], d)
  }

  /** A flag comes from a request, and is carried on. */
  lemma FlagStep(s: State, a: Action)
    requires Enabled(s, a) && !IsCreatorAction(a)
    ensures var f := Flag(Apply(s, a).pc[a.d]); f.Some? ==> f == if a.Request? then Some(a.sync) else Flag(s.pc[a.d])
  {
    if a.Request? {
    } else if IsSectionAction(a) || IsLockAction(a) {
      NoFlag(s, a);
    } else if IsLeaderAction(a) {
      LeaderFlag(s, a);
    } else {
      AsideFlag(s, a);
    }
  }

  lemma NoFlag(s: State, a: Action)
    requires Enabled(s, a) && (IsSectionAction(a) || IsLockAction(a))
    ensures Flag(Apply(s, a).pc[a.d]).None?
  {
    hide Participants, IndexOf, Removed;
  }

  lemma LeaderFlag(s: State, a: Action)
    requires Enabled(s, a) && IsLeaderAction(a)
    ensures var f := Flag(Apply(s, a).pc[a.d]); f.Some? ==> f == Flag(s.pc[a.d])
  {
    hide Participants;
  }

  lemma AsideFlag(s: State, a: Action)
    requires Enabled(s, a) && IsAsideAction(a) && !a.Request?
    ensures var f := Flag(Apply(s, a).pc[a.d]); f.Some? ==> f == Flag(s.pc[a.d])
  {
  }

  lemma FlagOfOthers(s: State, a: Action, d: nat)
    requires Enabled(s, a) && d < |s.pc| && (!IsCreatorAction(a) ==> a.d != d)
    ensures |Apply(s, a).pc| == |s.pc| && (Flag(Apply(s, a).pc[d]).Some? ==> Flag(Apply(s, a).pc[d]) == Flag(s.pc[d]))
  {
    if !IsCreatorAction(a) {
      hide Enabled, Apply, EventOf;
      Actor(s, a);
    }
  }

  lemma {:induction false} FlagIsAsked(states: seq<State>, actions: seq<Action>, i: nat, d: nat)
    requires Run(states, actions) && i < |states| && d < |states[i].pc|
    ensures Flag(states[i].pc[d]).Some? ==> Asked(actions[..i], d) == Flag(states[i].pc[d])
  {
    if i == 0 {
      assert states[0].pc[d].Off?;
    } else {
      var s, a := states[i - 1], actions[i - 1];
      assert actions[..i][..i - 1] == actions[..i - 1] && actions[..i][i - 1] == a;
      SameDomains(s, a);
      FlagIsAsked(states, actions, i - 1, d);
      hide Enabled, Apply, Flag, Init;
      if !IsCreatorAction(a) && a.d == d { FlagStep(s, a); } else { FlagOfOthers(s, a, d); }
    }
  }

  lemma ClaimCarriesFlag(s: State, a: Action, e: Event)
    requires Enabled(s, a) && e.Claimed? && Apply(s, a).log == s.log + [e]
    ensures e.leader < |s.pc| && Flag(s.pc[e.leader]) == Some(e.sync)
  {
    Logged(s, a);
    assert (s.log + [e])[|s.log|] == e;
    hide Apply;
    assert EventOf(s, a) == Some(e);
  }

  /** In every run, a section is synchronous exactly when its leader asked for that. */
  lemma ClaimIsWhatWasAsked(states: seq<State>, actions: seq<Action>, i: nat, e: Event)
    requires Run(states, actions) && i < |actions| && e.Claimed? && states[i + 1].log == states[i].log + [e]
    ensures Asked(actions[..i], e.leader) == Some(e.sync)
  {
    hide Enabled, Apply, Init, Flag, Asked;
    ClaimCarriesFlag(states[i], actions[i], e);
    FlagIsAsked(states, actions, i, e.leader);
  }

  // ----- When a request is given up ------------------------------------------

  /** The request of the domain ends without a section of its own. */
  predicate GivesUp(s: State, a: Action)
    requires Enabled(s, a)
  {
    && (a.Request? || a.TryLock? || a.TestRequest? || a.WakeRequest?)
    && Flag(Apply(s, a).pc[a.d]).None?
  }

  /**
   * A request is given up exactly when there is a leader already or the lock is not to be
   * had at the first attempt, never because requests are suspended; and then the domain
   * polls for the interrupt it may have been sent.
   */
  lemma GivenUpOnlyIf(s: State, a: Action)
    requires Enabled(s, a)
    ensures GivesUp(s, a) <==>
      || ((a.Request? || a.TestRequest?) && s.leader.Some?)
      || (a.TryLock? && s.lock.Some?)
    ensures GivesUp(s, a) ==> Apply(s, a).pc[a.d].Polling?
  {
    hide Participants, IndexOf, Removed;
  }

  /** Requests are made to wait exactly when they are suspended and nobody leads. */
  lemma MadeToWaitIff(s: State, d: nat)
    requires Enabled(s, TestRequest(d))
    ensures Apply(s, TestRequest(d)).pc[d].Asleep? <==> s.leader.None? && s.suspended != 0
    ensures Apply(s, TestRequest(d)).pc[d].Claiming? <==> s.leader.None? && s.suspended == 0
  {
    hide Participants;
  }

  // ----- What succeeds when nothing is in the way ----------------------------

  /** The state after some steps, each of which must be possible. */
  function After(s: State, actions: seq<Action>): Option<State> {
    if actions == [] then Some(s)
    else
      var n := |actions| - 1;
      var s' := After(s, actions[..n]);
      if s'.None? || !Enabled(s'.value, actions[n]) then None else Some(Apply(s'.value, actions[n]))
  }

  lemma AfterStep(s: State, actions: seq<Action>, a: Action)
    ensures After(s, actions + [a]) ==
      var s' := After(s, actions); if s'.None? || !Enabled(s'.value, a) then None else Some(Apply(s'.value, a))
  {
    assert (actions + [a])[..|actions|] == actions;
  }

  lemma ThreeSteps(s: State, a: Action, b: Action, c: Action, s1: State, s2: State)
    requires Enabled(s, a) && s1 == Apply(s, a) && Enabled(s1, b) && s2 == Apply(s1, b) && Enabled(s2, c)
    ensures After(s, [a] + [b] + [c]) == Some(Apply(s2, c))
  {
    hide Enabled, Apply;
    assert After(s, []) == Some(s);
    AfterStep(s, [], a);
    assert [] + [a] == [a];
    AfterStep(s, [a], b);
    AfterStep(s, [a] + [b], c);
  }

  /** With no leader, a free lock and nothing suspended, a request leads to a section with its own flag. */
  lemma RequestIsGranted(s: State, d: nat, sync: bool) returns (r: State)
    requires Enabled(s, Request(d, sync)) && s.leader.None? && s.lock.None? && s.suspended == 0
    ensures After(s, [Request(d, sync)] + [TryLock(d)] + [TestRequest(d)]) == Some(r)
    ensures r.leader == Some(d) && r.log == s.log + [Claimed(d, Participants(s), sync)] && r.pc[d] == Claiming(sync)
  {
    var s1 := Apply(s, Request(d, sync));
    var s2 := Apply(s1, TryLock(d));
    r := Apply(s2, TestRequest(d));
    hide After;
    ThreeSteps(s, Request(d, sync), TryLock(d), TestRequest(d), s1, s2);
    assert Participants(s2) == Participants(s);
  }

  /** Setting the request up closes the enter barrier exactly for a synchronous section of several domains. */
  lemma BarrierIsClosed(s: State, d: nat, sync: bool)
    requires Enabled(s, SetUp(d)) && s.pc[d] == Claiming(sync) && s.released
    ensures !Apply(s, SetUp(d)).released <==> sync && s.participating != 1
    ensures Apply(s, SetUp(d)).numDomains == s.participating == Apply(s, SetUp(d)).stillProcessing
  {
  }

  /** A domain that terminates leaves when it gets the lock and has no interrupt pending. */
  lemma TerminationLeaves(s: State, m: Monitor, d: nat) returns (r: State)
    requires Inv(s, m) && Enabled(s, Terminate(d)) && s.lock.None? && !s.pending[d]
    ensures After(s, [Terminate(d)] + [TermLock(d)] + [Leave(d)]) == Some(r)
    ensures r.log == s.log + [Event.Left(d)] && d !in Live(r) && r.participating == s.participating - 1 && r.lock.None?
  {
    Basics(s, m);
    assert d in Live(s);
    IndexOfParticipant(s, d);
    var s2 := GetsTermLock(s, d);
    hide Inv, After, Live, IndexOf;
    ThreeSteps(s, Terminate(d), TermLock(d), Leave(d), Apply(s, Terminate(d)), s2);
    r := LeavesNow(s2, d);
  }

  lemma GetsTermLock(s: State, d: nat) returns (s2: State)
    requires Enabled(s, Terminate(d)) && s.lock.None?
    ensures Enabled(Apply(s, Terminate(d)), TermLock(d)) && s2 == Apply(Apply(s, Terminate(d)), TermLock(d))
    ensures s2 == At(s, d, TermHolding).(lock := Some(Domain(d))) && Enabled(s2, Leave(d))
  {
    var s1 := Apply(s, Terminate(d));
    s2 := Apply(s1, TermLock(d));
  }

  lemma LeavesNow(s: State, d: nat) returns (r: State)
    requires Enabled(s, Leave(d)) && !s.pending[d] && IndexOf(s.order, d) < s.participating <= |s.order|
    ensures r == Apply(s, Leave(d)) && r.log == s.log + [Event.Left(d)] && d !in Live(r)
    ensures r.participating == s.participating - 1 && r.lock.None?
  {
    r := Apply(s, Leave(d));
  }

  /** A domain is created in the next free slot when no section is on, and not at all when there is none. */
  lemma CreationJoins(s: State, c: nat) returns (r: State)
    requires Enabled(s, Spawn(c)) && s.lock.None? && s.leader.None? && |s.order| == |s.pc|
    requires forall i :: 0 <= i < |s.order| ==> s.order[i] < |s.order|
    ensures After(s, [Spawn(c)] + [SpawnLock(c)] + [SpawnTest(c)]) == Some(r)
    ensures r.lock.None? && r.creators[c].Resting?
    ensures s.participating < |s.order| ==>
      r.log == s.log + [Joined(s.order[s.participating])] && r.participating == s.participating + 1
    ensures s.participating >= |s.order| ==> r.log == s.log && r.pc == s.pc
  {
    var s2 := GetsSpawnLock(s, c);
    hide After;
    ThreeSteps(s, Spawn(c), SpawnLock(c), SpawnTest(c), Apply(s, Spawn(c)), s2);
    r := JoinsNow(s2, c);
  }

  lemma GetsSpawnLock(s: State, c: nat) returns (s2: State)
    requires Enabled(s, Spawn(c)) && s.lock.None?
    ensures Enabled(Apply(s, Spawn(c)), SpawnLock(c)) && s2 == Apply(Apply(s, Spawn(c)), SpawnLock(c)) && Enabled(s2, SpawnTest(c))
    ensures s2.pc == s.pc && s2.order == s.order && s2.participating == s.participating && s2.log == s.log && s2.leader == s.leader
    ensures |s2.creators| == |s.creators| && s2.creators[c] == Checking(1, false)
  {
    var s1 := Apply(s, Spawn(c));
    s2 := Apply(s1, SpawnLock(c));
  }

  lemma JoinsNow(s: State, c: nat) returns (r: State)
    requires Enabled(s, SpawnTest(c)) && s.leader.None? && |s.order| == |s.pc|
    requires forall i :: 0 <= i < |s.order| ==> s.order[i] < |s.order|
    ensures r == Apply(s, SpawnTest(c)) && r.lock.None? && c < |r.creators| && r.creators[c].Resting?
    ensures s.participating < |s.order| ==>
      r.log == s.log + [Joined(s.order[s.participating])] && r.participating == s.participating + 1
    ensures s.participating >= |s.order| ==> r.log == s.log && r.pc == s.pc
  {
    r := Apply(s, SpawnTest(c));
  }

  // ----- Waiting for at most two sections ------------------------------------

  /** How often thread `c` has waited for the end of a section since it began to create a domain. */
  function Waits(states: seq<State>, actions: seq<Action>, i: nat, c: nat): nat
    requires i <= |actions| < |states|
  {
    if i == 0 then 0
    else if actions[i - 1] == Spawn(c) then 0
    else Waits(states, actions, i - 1, c) + if actions[i - 1] == SpawnTest(c) && states[i - 1].leader.Some? then 1 else 0
  }

  /** The counter is one more than that; from the second time on requests are suspended. */
  ghost predicate Patience(cr: Creator, waits: nat) {
    !cr.Resting? ==> cr.waited == waits + 1 && (cr.suspending <==> waits >= 2)
  }

  lemma {:induction false} CreatorStep(s: State, a: Action, c: nat, waits: nat)
    requires Enabled(s, a) && c < |s.creators| && Patience(s.creators[c], waits)
    ensures |Apply(s, a).creators| == |s.creators|
    ensures Patience(Apply(s, a).creators[c],
      if a == Spawn(c) then 0 else waits + if a == SpawnTest(c) && s.leader.Some? then 1 else 0)
  {
    if !IsCreatorAction(a) {
      Actor(s, a);
      hide Enabled, Apply, EventOf;
    }
  }

  /** In every run, a thread that creates a domain suspends requests when it has to wait for a second section, and not before. */
  lemma {:induction false} SuspendsAtSecondWait(states: seq<State>, actions: seq<Action>, i: nat, c: nat)
    requires Run(states, actions) && i < |states| && c < |states[i].creators|
    ensures var cr := states[i].creators[c];
      !cr.Resting? ==> cr.waited == Waits(states, actions, i, c) + 1 && (cr.suspending <==> Waits(states, actions, i, c) >= 2)
  {
    if i == 0 {
      assert states[0].creators[c].Resting?;
    } else {
      var s, a := states[i - 1], actions[i - 1];
      SameCreators(s, a);
      SuspendsAtSecondWait(states, actions, i - 1, c);
      hide Enabled, Apply, Init;
      CreatorStep(s, a, c, Waits(states, actions, i - 1, c));
    }
  }

  lemma SameCreators(s: State, a: Action)
    requires Enabled(s, a)
    ensures |Apply(s, a).creators| == |s.creators|
  {
    if !IsCreatorAction(a) {
      Actor(s, a);
      hide Enabled, Apply, EventOf;
    }
  }

  // ----- Who sleeps ----------------------------------------------------------

  /** Only domains that wait to make a request, and threads that wait to create a domain, are on the condition variables. */
  ghost predicate SleepersSleep(s: State) {
    && (forall d :: d in s.sleepers ==> d < |s.pc| && s.pc[d].Asleep?)
    && (forall c :: c in s.waiters ==> c < |s.creators| && s.creators[c].Locking?)
  }

  lemma SleepersStep(s: State, a: Action)
    requires Enabled(s, a) && SleepersSleep(s) && (s.sleepers != {} ==> s.leader.None?)
    requires a.SpawnTest? && s.leader.None? && s.participating < |s.order| && s.order[s.participating] < |s.pc| ==>
      s.pc[s.order[s.participating]].Off?
    ensures SleepersSleep(Apply(s, a))
  {
    if IsCreatorAction(a) {
      hide Participants;
    } else if a.WakeRequest? || a.TestRequest? {
      hide Participants;
    } else {
      OthersSleepOn(s, a);
    }
  }

  lemma OthersSleepOn(s: State, a: Action)
    requires Enabled(s, a) && SleepersSleep(s) && !IsCreatorAction(a) && !a.WakeRequest? && !a.TestRequest?
    ensures SleepersSleep(Apply(s, a))
  {
    SameSleepers(s, a);
    Actor(s, a);
    assert !s.pc[a.d].Asleep?;
    hide Enabled, Apply, EventOf;
  }

  lemma SameSleepers(s: State, a: Action)
    requires Enabled(s, a) && !IsCreatorAction(a) && !a.WakeRequest? && !a.TestRequest?
    ensures Apply(s, a).sleepers == s.sleepers && Apply(s, a).waiters <= s.waiters
  {
    hide Participants, IndexOf, Removed;
  }

  lemma {:induction false} SleepersAreAsleep(states: seq<State>, actions: seq<Action>, i: nat)
    requires Run(states, actions) && i < |states|
    ensures SleepersSleep(states[i])
  {
    if i > 0 {
      var s, a := states[i - 1], actions[i - 1];
      SleepersAreAsleep(states, actions, i - 1);
      NobodyOversleeps(states, actions, i - 1);
      AssertionsHold(states, actions, i - 1);
      hide Apply, Enabled, SleepersSleep;
      SleepersStep(s, a);
    }
  }
}
