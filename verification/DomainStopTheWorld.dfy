/**
The stop-the-world (STW) protocol of the multicore runtime: how a domain becomes
leader, interrupts every registered domain, runs the section with them, and how
domains join and leave the set of participants meanwhile.

The machine below takes one atomic step at a time, in any interleaving, over the
shared fields of the runtime. Beside it stands a small monitor that reads only the
visible events of a run and says what a correct run looks like; the main theorem is
that no run is ever refused by the monitor.
*/
module DomainStopTheWorld {

  import opened Options

  // ----- What a correct run looks like --------------------------------------

  /** The events a run makes visible. */
  datatype Event =
    | Claimed(leader: nat, participants: set<nat>, sync: bool)
    | Arrived(domain: nat)       // at the enter barrier
    | Ran(domain: nat)           // the section's callback
    | Finished(domain: nat)      // took itself off the still-processing counter
    | Ended
    | Joined(domain: nat)
    | Left(domain: nat)

  /** The monitor: between sections, within one, or refused. */
  datatype Monitor =
    | Refused
    | Between(live: set<nat>)
    | Within(live: set<nat>, leader: nat, participants: set<nat>, sync: bool,
             arrived: set<nat>, ran: set<nat>, finished: set<nat>)

  /** Only a synchronous section of several domains has an enter barrier. */
  predicate HasBarrier(sync: bool, participants: set<nat>) {
    sync && |participants| != 1
  }

  function Observe(m: Monitor, e: Event): Monitor {
    match e
    case Claimed(d, p, sync) =>
      // at most one section; it captures exactly the live domains
      if m.Between? && p == m.live && d in p then Within(m.live, d, p, sync, {}, {}, {}) else Refused
    case Arrived(d) =>
      if m.Within? && HasBarrier(m.sync, m.participants) && d in m.participants && d !in m.arrived
      then m.(arrived := m.arrived + {d}) else Refused
    case Ran(d) =>
      // once per participant, and after everyone has arrived
      if m.Within? && d in m.participants && d !in m.ran
         && (HasBarrier(m.sync, m.participants) ==> m.arrived == m.participants)
      then m.(ran := m.ran + {d}) else Refused
    case Finished(d) =>
      if m.Within? && d in m.ran && d !in m.finished
      then m.(finished := m.finished + {d}) else Refused
    case Ended =>
      if m.Within? && m.ran == m.participants && m.finished == m.participants
      then Between(m.live) else Refused
    case Joined(d) =>
      if m.Between? && d !in m.live then Between(m.live + {d}) else Refused
    case Left(d) =>
      if m.Refused? || d !in m.live then Refused
      else if m.Between? then Between(m.live - {d})
      else if d in m.participants && d !in m.finished then Refused
      else m.(live := m.live - {d})
  }

  /** The monitor's verdict on a whole log, starting with the domains live at start-up. */
  function Verdict(live: set<nat>, log: seq<Event>): Monitor {
    if log == [] then Between(live)
    else Observe(Verdict(live, log[..|log| - 1]), log[|log| - 1])
  }

  lemma VerdictOfExtension(live: set<nat>, log: seq<Event>, e: Event)
    ensures Verdict(live, log + [e]) == Observe(Verdict(live, log), e)
  {
    assert (log + [e])[..|log|] == log;
  }

  // ----- The machine --------------------------------------------------------

  /** Where the thread holding a domain's lock is in the protocol. */
  datatype PC =
    | Off                        // free slot
    | Mutator
    | Polling                    // about to test `pending`
    | Trying(sync: bool)         // saw no leader, about to try the lock
    | Holding(sync: bool)        // has the lock, about to test for a leader
    | Asleep(sync: bool)         // waits for requests to be allowed again
    | Claiming(sync: bool)       // stored itself in stw_leader
    | Sending(next: nat, sync: bool)
    | Entering                   // handler: about to test the enter barrier
    | Arriving
    | Releasing                  // was the last to arrive
    | Waiting
    | Calling                    // about to run the callback
    | Decrementing
    | LastLocking                // brought the counter to zero
    | LastHolding
    | LastUnlocking
    | TermLocking
    | TermHolding

  /** Where a thread that creates a domain is. */
  datatype Creator =
    | Resting
    | Locking(waited: nat, suspending: bool)   // or on the condition variable, if among the waiters
    | Checking(waited: nat, suspending: bool)  // has the lock

  datatype Owner = Domain(d: nat) | Spawner(c: nat)

  /** `Max_stws_before_suspend` */
  const MAX_STWS_BEFORE_SUSPEND := 2

  datatype State = State(
    pc: seq<PC>,
    pending: seq<bool>,
    order: seq<nat>,             // stw_domains.domains
    participating: nat,          // stw_domains.participating_domains
    leader: Option<nat>,         // stw_leader
    lock: Option<Owner>,         // all_domains_lock
    suspended: nat,              // stw_requests_suspended
    sleepers: set<nat>,          // domains on requests_suspended_cond
    waiters: set<nat>,           // creating threads on all_domains_cond
    numDomains: nat,             // stw_request.num_domains
    stillProcessing: int,        // stw_request.num_domains_still_processing
    arrived: nat,                // stw_request.domains_still_running
    released: bool,
    creators: seq<Creator>,
    log: seq<Event>)             // history of the run

  /** One atomic step, by a domain or by a thread that creates one. */
  datatype Action =
    | Request(d: nat, sync: bool)
    | TryLock(d: nat)
    | TestRequest(d: nat)
    | WakeRequest(d: nat)
    | SetUp(d: nat)
    | Interrupt(d: nat)
    | StartPolling(d: nat)
    | Poll(d: nat)
    | TestBarrier(d: nat)
    | Arrive(d: nat)
    | Release(d: nat)
    | Wake(d: nat)
    | Call(d: nat)
    | Decrement(d: nat)
    | LastLock(d: nat)
    | ClearLeader(d: nat)
    | LastUnlock(d: nat)
    | Terminate(d: nat)
    | TermLock(d: nat)
    | Leave(d: nat)
    | Spawn(c: nat)
    | SpawnLock(c: nat)
    | SpawnTest(c: nat)

  predicate IsCreatorAction(a: Action) {
    a.Spawn? || a.SpawnLock? || a.SpawnTest?
  }

  /** May the step be taken now? Blocking steps wait here; tests are always possible. */
  predicate Enabled(s: State, a: Action) {
    if IsCreatorAction(a) then
      && a.c < |s.creators|
      && (if a.Spawn? then s.creators[a.c].Resting?
          else if a.SpawnLock? then s.creators[a.c].Locking? && s.lock.None?
          else s.creators[a.c].Checking?)
    else
      && a.d < |s.pc| == |s.pending| == |s.order|
      && match a {
           case Request(d, _) => s.pc[d].Mutator?
           case TryLock(d) => s.pc[d].Trying?
           case TestRequest(d) => s.pc[d].Holding?
           case WakeRequest(d) => s.pc[d].Asleep? && s.lock.None?
           case SetUp(d) => s.pc[d].Claiming?
           case Interrupt(d) => s.pc[d].Sending?
           case StartPolling(d) => s.pc[d].Mutator?
           case Poll(d) => s.pc[d].Polling?
           case TestBarrier(d) => s.pc[d].Entering?
           case Arrive(d) => s.pc[d].Arriving?
           case Release(d) => s.pc[d].Releasing?
           case Wake(d) => s.pc[d].Waiting? && s.released
           case Call(d) => s.pc[d].Calling?
           case Decrement(d) => s.pc[d].Decrementing?
           case LastLock(d) => s.pc[d].LastLocking? && s.lock.None?
           case ClearLeader(d) => s.pc[d].LastHolding?
           case LastUnlock(d) => s.pc[d].LastUnlocking?
           case Terminate(d) => s.pc[d].Mutator?
           case TermLock(d) => s.pc[d].TermLocking? && s.lock.None?
           case Leave(d) => s.pc[d].TermHolding?
           case _ => false
         }
  }

  function At(s: State, d: nat, pc: PC): (r: State)
    requires d < |s.pc|
  {
    s.(pc := s.pc[d := pc])
  }

  function Log(s: State, e: Event): State {
    s.(log := s.log + [e])
  }

  function IndexOf(order: seq<nat>, d: nat): (i: nat)
    ensures i <= |order|
    ensures i < |order| ==> order[i] == d
    ensures forall j :: 0 <= j < i ==> order[j] != d
  {
    if order == [] || order[0] == d then 0 else 1 + IndexOf(order[1..], d)
  }

  /** The participants: the prefix of the domain array in use. */
  function Participants(s: State): set<nat> {
    set i | 0 <= i < s.participating && i < |s.order| :: s.order[i]
  }

  /** The swap of `remove_from_stw_domains`. */
  function Removed(order: seq<nat>, participating: nat, i: nat): (r: seq<nat>)
    requires i < participating <= |order|
  {
    order[i := order[participating - 1]][participating - 1 := order[i]]
  }

  function Claim(s: State, d: nat, sync: bool): State
    requires d < |s.pc|
  {
    Log(At(s, d, Claiming(sync)).(leader := Some(d)), Claimed(d, Participants(s), sync))
  }

  function SetUpRequest(s: State, d: nat, sync: bool): State
    requires d < |s.pc|
  {
    var s' := At(s, d, Sending(0, sync)).(numDomains := s.participating, stillProcessing := s.participating);
    if sync && s.participating != 1 then s'.(arrived := 0, released := false) else s'
  }

  function SendTo(s: State, d: nat, i: nat, sync: bool, target: nat): State
    requires d < |s.pc|
  {
    At(s, d, Sending(i + 1, sync))
    .(pending := if target != d && target < |s.pending| then s.pending[target := true] else s.pending)
  }

  function ArriveAtBarrier(s: State, d: nat): State
    requires d < |s.pc|
  {
    Log(At(s, d, if s.arrived + 1 == s.numDomains then Releasing else Waiting).(arrived := s.arrived + 1),
        Arrived(d))
  }

  function DecrementStillProcessing(s: State, d: nat): State
    requires d < |s.pc|
  {
    Log(At(s, d, if s.stillProcessing - 1 == 0 then LastLocking else Mutator)
        .(stillProcessing := s.stillProcessing - 1), Finished(d))
  }

  /** Clears the leader and wakes the threads that wait for the end of the section. */
  function EndSection(s: State, d: nat): State
    requires d < |s.pc|
  {
    Log(At(s, d, LastUnlocking).(leader := None, waiters := {}), Ended)
  }

  function LeaveSet(s: State, d: nat, i: nat): State
    requires d < |s.pc| && i < s.participating <= |s.order|
  {
    Log(At(s, d, Off).(lock := None, order := Removed(s.order, s.participating, i),
                       participating := s.participating - 1), Left(d))
  }

  function JoinSet(s: State, d: nat): State
    requires d < |s.pc|
  {
    Log(At(s, d, Mutator).(participating := s.participating + 1), Joined(d))
  }

  /** A creating thread is done with waiting; the last to suspend requests wakes those who want to make one. */
  function StopWaiting(s: State, c: nat, suspending: bool): State
    requires c < |s.creators|
  {
    var suspended := if suspending && s.suspended > 0 then s.suspended - 1 else s.suspended;
    s.(creators := s.creators[c := Resting], lock := None, suspended := suspended,
       sleepers := if suspending && suspended == 0 then {} else s.sleepers)
  }

  function Apply(s: State, a: Action): State
    requires Enabled(s, a)
  {
    match a
    case Request(d, sync) =>
      At(s, d, if s.leader.None? then Trying(sync) else Polling)
    case TryLock(d) =>
      if s.lock.None? then At(s, d, Holding(s.pc[d].sync)).(lock := Some(Domain(d)))
      else At(s, d, Polling)
    case TestRequest(d) =>
      if s.leader.Some? then At(s, d, Polling).(lock := None)
      else if s.suspended != 0 then At(s, d, Asleep(s.pc[d].sync)).(lock := None, sleepers := s.sleepers + {d})
      else Claim(s, d, s.pc[d].sync)
    case WakeRequest(d) =>
      At(s, d, Holding(s.pc[d].sync)).(lock := Some(Domain(d)), sleepers := s.sleepers - {d})
    case SetUp(d) =>
      SetUpRequest(s, d, s.pc[d].sync)
    case Interrupt(d) =>
      var i, sync := s.pc[d].next, s.pc[d].sync;
      if i < s.participating && i < |s.order| then SendTo(s, d, i, sync, s.order[i])
      else At(s, d, if sync && s.numDomains != 1 then Arriving else Calling).(lock := None)
    case StartPolling(d) => At(s, d, Polling)
    case Poll(d) =>
      if s.pending[d] then At(s, d, Entering).(pending := s.pending[d := false])
      else At(s, d, Mutator)
    case TestBarrier(d) => At(s, d, if s.released then Calling else Arriving)
    case Arrive(d) => ArriveAtBarrier(s, d)
    case Release(d) => At(s, d, Calling).(released := true)
    case Wake(d) => At(s, d, Calling)
    case Call(d) => Log(At(s, d, Decrementing), Ran(d))
    case Decrement(d) => DecrementStillProcessing(s, d)
    case LastLock(d) => At(s, d, LastHolding).(lock := Some(Domain(d)))
    case ClearLeader(d) => EndSection(s, d)
    case LastUnlock(d) => At(s, d, Mutator).(lock := None)
    case Terminate(d) => At(s, d, TermLocking)
    case TermLock(d) => At(s, d, TermHolding).(lock := Some(Domain(d)))
    case Leave(d) =>
      var i := IndexOf(s.order, d);
      if s.pending[d] || !(i < s.participating <= |s.order|) then At(s, d, Mutator).(lock := None)
      else LeaveSet(s, d, i)
    case Spawn(c) => s.(creators := s.creators[c := Locking(1, false)])
    case SpawnLock(c) =>
      s.(creators := s.creators[c := Checking(s.creators[c].waited, s.creators[c].suspending)],
         lock := Some(Spawner(c)), waiters := s.waiters - {c})
    case SpawnTest(c) =>
      var Checking(waited, suspending) := s.creators[c];
      if s.leader.Some? then
        var suspends := !suspending && waited >= MAX_STWS_BEFORE_SUSPEND;
        s.(creators := s.creators[c := Locking(waited + 1, suspending || suspends)], lock := None,
           suspended := if suspends then s.suspended + 1 else s.suspended, waiters := s.waiters + {c})
      else
        var s' := StopWaiting(s, c, suspending);
        if s.participating < |s.order| && s.order[s.participating] < |s.pc| then
          JoinSet(s', s.order[s.participating])
        else s'   // no free slot: creation fails
  }

  /** Start-up: no domain yet, any number of slots and of creating threads. */
  predicate Init(s: State) {
    && |s.pc| == |s.pending| == |s.order|
    && (forall d :: 0 <= d < |s.pc| ==> s.pc[d].Off? && !s.pending[d] && s.order[d] == d)
    && s.participating == 0 && s.leader.None? && s.lock.None? && s.suspended == 0 && s.sleepers == {} == s.waiters
    && s.released
    && (forall c :: 0 <= c < |s.creators| ==> s.creators[c].Resting?)
    && s.log == []
  }

  /** A run: the states visited by taking the given steps one after the other. */
  ghost predicate Run(states: seq<State>, actions: seq<Action>) {
    && |states| == |actions| + 1
    && Init(states[0])
    && forall i {:trigger actions[i]} :: 0 <= i < |actions| ==>
         Enabled(states[i], actions[i]) && states[i + 1] == Apply(states[i], actions[i])
  }

  // ----- The invariant ------------------------------------------------------

  predicate HoldsLock(pc: PC) {
    pc.Holding? || pc.Claiming? || pc.Sending? || pc.LastHolding? || pc.LastUnlocking? || pc.TermHolding?
  }

  /** Between picking up the section and leaving it. */
  predicate InSection(pc: PC) {
    pc.Entering? || pc.Arriving? || pc.Releasing? || pc.Waiting? || pc.Calling? || pc.Decrementing?
  }

  predicate IsLast(pc: PC) {
    pc.LastLocking? || pc.LastHolding?
  }

  predicate Leads(pc: PC) {
    pc.Claiming? || pc.Sending?
  }

  function Live(s: State): set<nat> {
    set d | 0 <= d < |s.pc| && !s.pc[d].Off?
  }

  ghost predicate Shape(s: State) {
    && |s.pc| == |s.pending| == |s.order|
    && s.participating <= |s.order|
    && (forall i :: 0 <= i < |s.order| ==> s.order[i] < |s.order|)
    && (forall i, j :: 0 <= i < j < |s.order| ==> s.order[i] != s.order[j])
    && Participants(s) == Live(s)
  }

  /** The lock is held by whoever believes so. */
  ghost predicate LockHeld(s: State) {
    && (forall d :: 0 <= d < |s.pc| ==> (HoldsLock(s.pc[d]) <==> s.lock == Some(Domain(d))))
    && (forall c :: 0 <= c < |s.creators| ==> (s.creators[c].Checking? <==> s.lock == Some(Spawner(c))))
  }

  /** The monitor and the machine agree on whether a section is active, and on whom. */
  ghost predicate SectionAgrees(s: State, m: Monitor) {
    && !m.Refused?
    && m.live == Live(s)
    && (s.leader.None? <==> m.Between?)
    && (m.Within? ==>
          && s.leader == Some(m.leader)
          && m.leader in m.participants
          && m.leader < |s.pc|
          && m.live <= m.participants
          && m.finished <= m.ran <= m.participants
          && m.arrived <= m.participants)
  }

  /** The leader `l` has not interrupted `d` yet. */
  ghost predicate Unsent(s: State, l: nat, d: nat)
    requires l < |s.pc|
  {
    || s.pc[l].Claiming?
    || (s.pc[l].Sending? && d != l
        && exists i :: s.pc[l].next <= i < s.participating && i < |s.order| && s.order[i] == d)
  }

  /** A domain is somewhere in the section: it is a participant that has not finished. */
  ghost predicate SectionOk(s: State, m: Monitor, d: nat)
    requires d < |s.pc| == |s.pending|
  {
    InSection(s.pc[d]) ==>
      && m.Within? && d in m.participants && d !in m.finished
      && !s.pending[d]
      && m.leader < |s.pc| && !Unsent(s, m.leader, d)
      && (d in m.ran <==> s.pc[d].Decrementing?)
  }

  /** A pending interrupt is one of the current section, not taken up yet. */
  ghost predicate PendingOk(s: State, m: Monitor, d: nat)
    requires d < |s.pc| == |s.pending|
  {
    s.pending[d] ==>
      && m.Within? && d in m.participants && d !in m.ran && d != m.leader
      && m.leader < |s.pc| && !Unsent(s, m.leader, d)
  }

  ghost predicate LeaderOk(s: State, m: Monitor, d: nat)
    requires d < |s.pc|
  {
    Leads(s.pc[d]) ==>
      && m.Within? && m.leader == d && d !in m.ran
      && m.sync == s.pc[d].sync && m.live == m.participants
  }

  /** Whoever still owes the section will be, is, or has been asked to take part. */
  ghost predicate OwingOk(s: State, m: Monitor, d: nat)
    requires d < |s.pc| == |s.pending|
  {
    m.Within? && d in m.participants && d !in m.finished ==>
      || s.pending[d]
      || InSection(s.pc[d])
      || Leads(s.pc[d])
      || (m.leader < |s.pc| && Unsent(s, m.leader, d))
  }

  /** Only domains that were asked have run the callback. */
  ghost predicate RanOk(s: State, m: Monitor, d: nat)
    requires d < |s.pc|
  {
    m.Within? && d in m.ran ==> m.leader < |s.pc| && !Unsent(s, m.leader, d)
  }

  /** Exactly one domain brings the counter to zero, when everybody has finished. */
  ghost predicate LastOk(s: State, m: Monitor) {
    && (forall d :: 0 <= d < |s.pc| && IsLast(s.pc[d]) ==> m.Within? && m.finished == m.participants)
    && (forall d, e :: 0 <= d < |s.pc| && 0 <= e < |s.pc| && IsLast(s.pc[d]) && IsLast(s.pc[e]) ==> d == e)
  }

  ghost predicate DomainOk(s: State, m: Monitor, d: nat)
    requires d < |s.pc| == |s.pending|
  {
    SectionOk(s, m, d) && PendingOk(s, m, d) && LeaderOk(s, m, d) && OwingOk(s, m, d) && RanOk(s, m, d)
  }

  ghost predicate DomainsOk(s: State, m: Monitor)
    requires |s.pc| == |s.pending|
  {
    forall d :: 0 <= d < |s.pc| ==> DomainOk(s, m, d)
  }

  /** The request's fields have been set for the current section. */
  ghost predicate IsSetUp(s: State, m: Monitor) {
    m.Within? && m.leader < |s.pc| && !s.pc[m.leader].Claiming?
  }

  ghost predicate CountersAgree(s: State, m: Monitor) {
    IsSetUp(s, m) ==>
      && s.numDomains == |m.participants|
      && s.stillProcessing == |m.participants - m.finished|
  }

  predicate AtBarrier(pc: PC) {
    pc.Arriving? || pc.Releasing? || pc.Waiting?
  }

  ghost predicate BarrierOk(s: State, m: Monitor)
    requires |s.pc| == |s.pending|
  {
    if IsSetUp(s, m) && HasBarrier(m.sync, m.participants) then
      && s.arrived == |m.arrived|
      && (s.released ==> m.arrived == m.participants)
      && (!s.released ==> m.ran == {})
      && forall d :: 0 <= d < |s.pc| ==>
           && (s.pc[d].Releasing? ==> m.arrived == m.participants)
           && (s.pc[d].Calling? ==> s.released)
           && (d in m.arrived ==> !s.pc[d].Entering? && !s.pc[d].Arriving? && !s.pending[d]
                                  && !Leads(s.pc[d]) && !Unsent(s, m.leader, d))
    else
      && s.released
      && (m.Within? ==> m.arrived == {} && (!IsSetUp(s, m) ==> m.ran == {}))
      && forall d :: 0 <= d < |s.pc| ==> !AtBarrier(s.pc[d])
  }

  function Suspending(s: State): set<nat> {
    set c | 0 <= c < |s.creators| && !s.creators[c].Resting? && s.creators[c].suspending
  }

  ghost predicate Inv(s: State, m: Monitor) {
    && Shape(s) && LockHeld(s) && SectionAgrees(s, m) && DomainsOk(s, m) && LastOk(s, m)
    && CountersAgree(s, m) && BarrierOk(s, m)
    && s.suspended == |Suspending(s)|
  }

  lemma TheDomain(s: State, m: Monitor, d: nat)
    requires |s.pc| == |s.pending| && DomainsOk(s, m) && d < |s.pc|
    ensures DomainOk(s, m, d)
  {
    assert DomainOk(s, m, d);
  }

  lemma Basics(s: State, m: Monitor)
    requires Inv(s, m)
    ensures |s.pc| == |s.pending| == |s.order| && s.participating <= |s.order| && !m.Refused?
    ensures m.Within? ==> m.leader < |s.pc| && m.finished <= m.ran <= m.participants && m.arrived <= m.participants
    ensures m.Within? ==> m.live <= m.participants
  {
  }

  lemma InitInv(s: State)
    requires Init(s)
    ensures Inv(s, Verdict({}, s.log))
  {
    assert Verdict({}, s.log) == Between({});
    assert Suspending(s) == {} && Live(s) == {} == Participants(s);
  }

  // ----- Every step keeps it ------------------------------------------------

  /** Steps that move one running domain leave the membership alone. */
  lemma KeepsShape(s: State, s': State, m: Monitor, d: nat)
    requires Shape(s) && SectionAgrees(s, m) && d < |s.pc|
    requires !s.pc[d].Off? && |s'.pc| == |s.pc| && s'.pc == s.pc[d := s'.pc[d]] && !s'.pc[d].Off?
    requires |s'.pending| == |s.pending| && s'.order == s.order && s'.participating == s.participating
    requires s'.leader == s.leader && s'.creators == s.creators
    ensures Shape(s') && SectionAgrees(s', m) && Live(s') == Live(s) && Suspending(s') == Suspending(s)
  {
    assert Participants(s') == Participants(s) && Live(s') == Live(s) && Suspending(s') == Suspending(s);
  }

  /** The monitors differ at most in what they record about `d`. */
  ghost predicate SameBut(m: Monitor, m': Monitor, d: nat) {
    if m.Within? then
      && m'.Within?
      && m'.live == m.live && m'.leader == m.leader && m'.participants == m.participants && m'.sync == m.sync
      && (forall e :: e != d ==> (e in m.ran <==> e in m'.ran))
      && (forall e :: e != d ==> (e in m.finished <==> e in m'.finished))
    else m' == m
  }

  /** A step of `d` that interrupts nobody is harmless to the others. */
  lemma OthersOk(s: State, s': State, m: Monitor, m': Monitor, d: nat)
    requires DomainOkExcept(s, m, d) && SameBut(m, m', d)
    requires |s'.pc| == |s.pc| == |s'.pending|
    requires forall e :: 0 <= e < |s.pc| && e != d ==> s'.pc[e] == s.pc[e] && s'.pending[e] == s.pending[e]
    requires m.Within? ==> m.leader < |s.pc| && SameUnsent(s, s', m.leader)
    ensures DomainOkExcept(s', m', d)
  {
    forall e | 0 <= e < |s.pc| && e != d ensures DomainOk(s', m', e) {
      assert DomainOk(s, m, e);
    }
  }

  ghost predicate DomainOkExcept(s: State, m: Monitor, d: nat) {
    |s.pc| == |s.pending| && forall e :: 0 <= e < |s.pc| && e != d ==> DomainOk(s, m, e)
  }

  ghost predicate SameUnsent(s: State, s': State, l: nat)
    requires l < |s.pc| == |s'.pc|
  {
    forall e: nat :: Unsent(s', l, e) <==> Unsent(s, l, e)
  }

  lemma UnsentKept(s: State, s': State, l: nat)
    requires l < |s.pc| == |s'.pc|
    requires s'.order == s.order && s'.participating == s.participating
    requires (Leads(s.pc[l]) || Leads(s'.pc[l])) ==> s'.pc[l] == s.pc[l]
    ensures SameUnsent(s, s', l)
  {
  }

  /** The holder of the lock may pass it on, and anybody may take it when it is free. */
  ghost predicate PassesLock(s: State, d: nat, pc: PC, lock: Option<Owner>)
    requires d < |s.pc|
  {
    || (lock == s.lock && HoldsLock(pc) == HoldsLock(s.pc[d]))
    || (HoldsLock(s.pc[d]) && !HoldsLock(pc) && lock == None)
    || (s.lock.None? && HoldsLock(pc) && lock == Some(Domain(d)))
  }

  lemma LockPassed(s: State, d: nat, pc: PC, lock: Option<Owner>, sleepers: set<nat>)
    requires LockHeld(s) && d < |s.pc| && PassesLock(s, d, pc, lock)
    ensures LockHeld(At(s, d, pc).(lock := lock, sleepers := sleepers))
  {
    assert HoldsLock(s.pc[d]) <==> s.lock == Some(Domain(d));
  }

  /** Positions a domain may take while it has no part in the section. */
  predicate Aside(pc: PC) {
    !InSection(pc) && !Leads(pc) && !pc.Off?
  }

  lemma DomainAside(s: State, s': State, m: Monitor, d: nat)
    requires d < |s.pc| == |s'.pc| == |s.pending| && s'.pending == s.pending && DomainOk(s, m, d)
    requires Aside(s.pc[d]) && Aside(s'.pc[d])
    requires m.Within? ==> m.leader < |s.pc| && SameUnsent(s, s', m.leader)
    ensures DomainOk(s', m, d)
  {
  }

  lemma BarrierAside(s: State, s': State, m: Monitor, d: nat)
    requires d < |s.pc| == |s'.pc| == |s.pending| && s'.pending == s.pending && BarrierOk(s, m) && CountersAgree(s, m)
    requires s'.pc == s.pc[d := s'.pc[d]] && Aside(s.pc[d]) && Aside(s'.pc[d])
    requires s'.arrived == s.arrived && s'.released == s.released
    requires s'.numDomains == s.numDomains && s'.stillProcessing == s.stillProcessing
    requires m.Within? ==> m.leader < |s.pc| && SameUnsent(s, s', m.leader)
    ensures BarrierOk(s', m) && CountersAgree(s', m)
  {
  }

  /** Moving one domain between positions outside the section, and passing the lock on. */
  lemma QuietMove(s: State, m: Monitor, d: nat, pc: PC, lock: Option<Owner>, sleepers: set<nat>)
    requires Inv(s, m) && d < |s.pc| && Aside(s.pc[d]) && Aside(pc)
    requires IsLast(s.pc[d]) == IsLast(pc) && PassesLock(s, d, pc, lock)
    ensures Inv(At(s, d, pc).(lock := lock, sleepers := sleepers), m)
  {
    var s' := At(s, d, pc).(lock := lock, sleepers := sleepers);
    hide Shape, LockHeld, SectionAgrees, DomainsOk, BarrierOk, CountersAgree, Suspending, SameUnsent, DomainOk,
      DomainOkExcept, PassesLock, LastOk;
    Basics(s, m);
    TheDomain(s, m, d);
    LastAside(s, s', m, d);
    KeepsShape(s, s', m, d);
    LockPassed(s, d, pc, lock, sleepers);
    if m.Within? { UnsentKept(s, s', m.leader); }
    DomainAside(s, s', m, d);
    AllButOne(s, m, d);
    OthersOk(s, s', m, m, d);
    AllAndOne(s', m, d);
    BarrierAside(s, s', m, d);
  }

  lemma LastAside(s: State, s': State, m: Monitor, d: nat)
    requires LastOk(s, m) && d < |s.pc| == |s'.pc| && s'.pc == s.pc[d := s'.pc[d]] && IsLast(s.pc[d]) == IsLast(s'.pc[d])
    ensures LastOk(s', m)
  {
  }

  lemma AllButOne(s: State, m: Monitor, d: nat)
    requires |s.pc| == |s.pending| && DomainsOk(s, m)
    ensures DomainOkExcept(s, m, d)
  {
  }

  lemma AllAndOne(s: State, m: Monitor, d: nat)
    requires d < |s.pc| && DomainOkExcept(s, m, d) && |s.pc| == |s.pending| && DomainOk(s, m, d)
    ensures DomainsOk(s, m)
  {
  }

  lemma StepClaim(s: State, m: Monitor, d: nat, sync: bool)
    requires Inv(s, m) && d < |s.pc| && s.pc[d] == Holding(sync) && s.leader.None?
    ensures Inv(Claim(s, d, sync), Observe(m, Claimed(d, Participants(s), sync)))
  {
    var s', m' := Claim(s, d, sync), Observe(m, Claimed(d, Participants(s), sync));
    assert Participants(s') == Participants(s) && Live(s') == Live(s) && Suspending(s') == Suspending(s);
    assert d in Live(s);
    assert DomainsOk(s', m') by {
      forall e | 0 <= e < |s'.pc| ensures DomainOk(s', m', e) { assert DomainOk(s, m, e); }
    }
    hide DomainsOk, Participants, Live, Suspending;
    BarrierAtClaim(s, s', m, m', d);
  }

  /** Between sections the barrier is open and nobody is at it. */
  lemma BarrierAtClaim(s: State, s': State, m: Monitor, m': Monitor, d: nat)
    requires |s.pc| == |s.pending| && BarrierOk(s, m) && m.Between? && d < |s.pc| && s'.pending == s.pending
    requires s'.released == s.released && |s'.pc| == |s.pc| && s'.pc == s.pc[d := s'.pc[d]] && s'.pc[d].Claiming?
    requires m'.Within? && m'.leader == d && m'.arrived == {} == m'.ran
    ensures BarrierOk(s', m') && CountersAgree(s', m')
  {
  }

  lemma {:induction false} PrefixCount(order: seq<nat>, n: nat)
    requires n <= |order|
    requires forall i, j :: 0 <= i < j < |order| ==> order[i] != order[j]
    ensures |set i | 0 <= i < n :: order[i]| == n
  {
    if n > 0 {
      PrefixCount(order, n - 1);
      assert (set i | 0 <= i < n :: order[i]) == (set i | 0 <= i < n - 1 :: order[i]) + {order[n - 1]};
    }
  }

  lemma ParticipantsCount(s: State)
    requires Shape(s)
    ensures |Participants(s)| == s.participating
  {
    PrefixCount(s.order, s.participating);
    assert Participants(s) == set i | 0 <= i < s.participating :: s.order[i];
  }

  /** Before the first interrupt is sent, nobody is in the section. */
  lemma NobodyYet(s: State, m: Monitor, d: nat)
    requires Inv(s, m) && d < |s.pc| && s.pc[d].Claiming?
    ensures m.Within? && m.leader == d && m.ran == {} == m.finished == m.arrived && m.sync == s.pc[d].sync
    ensures m.participants == Participants(s) == Live(s) && s.participating == |m.participants| && s.released
    ensures forall e :: 0 <= e < |s.pc| ==> !s.pending[e] && !InSection(s.pc[e]) && !IsLast(s.pc[e])
    ensures forall e :: 0 <= e < |s.pc| && Leads(s.pc[e]) ==> e == d
  {
    assert DomainOk(s, m, d);
    ParticipantsCount(s);
    forall e | 0 <= e < |s.pc|
      ensures !s.pending[e] && !InSection(s.pc[e]) && !IsLast(s.pc[e]) && (Leads(s.pc[e]) ==> e == d)
    {
      assert DomainOk(s, m, e);
    }
  }

  lemma StepSetUp(s: State, m: Monitor, d: nat, sync: bool)
    requires Inv(s, m) && d < |s.pc| && s.pc[d] == Claiming(sync)
    ensures Inv(SetUpRequest(s, d, sync), m)
  {
    hide Shape, LockHeld, SectionAgrees, DomainsOk, LastOk, BarrierOk, Suspending, DomainOk, CountersAgree;
    var s' := SetUpRequest(s, d, sync);
    Basics(s, m);
    NobodyYet(s, m, d);
    KeepsShape(s, s', m, d);
    forall e | 0 <= e < |s'.pc| ensures DomainOk(s', m, e) { DomainSetUp(s, s', m, d, e); }
    DomainsTogether(s', m);
    RequestSetUp(s, s', m, d);
  }

  lemma DomainsTogether(s: State, m: Monitor)
    requires |s.pc| == |s.pending| && forall e :: 0 <= e < |s.pc| ==> DomainOk(s, m, e)
    ensures DomainsOk(s, m)
  {
  }

  /** At the beginning of the section everybody but the leader waits for an interrupt. */
  lemma DomainSetUp(s: State, s': State, m: Monitor, d: nat, e: nat)
    requires d < |s.pc| == |s.pending| == |s.order| && e < |s.pc| && s.pc[d].Claiming? && s'.pending == s.pending
    requires s'.pc == s.pc[d := Sending(0, s.pc[d].sync)] && s'.order == s.order && s'.participating == s.participating
    requires m.Within? && m.leader == d && m.ran == {} == m.finished && m.sync == s.pc[d].sync
    requires m.participants == Participants(s) == m.live
    requires !s.pending[e] && !InSection(s.pc[e]) && (Leads(s.pc[e]) ==> e == d)
    ensures DomainOk(s', m, e)
  {
    assert e in m.participants ==> e in Participants(s);
  }

  lemma RequestSetUp(s: State, s': State, m: Monitor, d: nat)
    requires d < |s.pc| == |s.pending| && s.pc[d].Claiming? && s' == SetUpRequest(s, d, s.pc[d].sync)
    requires LockHeld(s) && LastOk(s, m) && s.released && m.Within? && s.participating == |m.participants|
    requires m.leader == d && m.ran == {} == m.finished == m.arrived && m.sync == s.pc[d].sync
    requires forall e :: 0 <= e < |s.pc| ==> !s.pending[e] && !InSection(s.pc[e]) && !IsLast(s.pc[e])
    ensures LockHeld(s') && LastOk(s', m) && CountersAgree(s', m) && BarrierOk(s', m)
  {
    assert m.participants - m.finished == m.participants;
  }

  /** The leader is about to interrupt `order[i]`. */
  ghost predicate CanSend(s: State, m: Monitor, d: nat, i: nat, sync: bool) {
    Inv(s, m) && d < |s.pc| && s.pc[d] == Sending(i, sync) && i < s.participating
  }

  /** After an interrupt only its target has stopped waiting for one. */
  lemma UnsentAfterSend(s: State, d: nat, i: nat, sync: bool, e: nat)
    requires Shape(s) && d < |s.pc| && s.pc[d] == Sending(i, sync) && i < s.participating
    ensures Unsent(SendTo(s, d, i, sync, s.order[i]), d, e) <==> Unsent(s, d, e) && e != s.order[i]
  {
    var s' := SendTo(s, d, i, sync, s.order[i]);
    if Unsent(s, d, e) && e != s.order[i] {
      var j :| i <= j < s.participating && s.order[j] == e;
      assert s'.order[j] == e;
    }
    if Unsent(s', d, e) {
      var j :| i + 1 <= j < s'.participating && s'.order[j] == e;
      assert s.order[j] == e && s.order[i] != s.order[j];
    }
  }

  lemma DomainAfterSend(s: State, m: Monitor, d: nat, i: nat, sync: bool, e: nat)
    requires CanSend(s, m, d, i, sync) && e < |s.pc|
    ensures DomainOk(SendTo(s, d, i, sync, s.order[i]), m, e)
  {
    var target := s.order[i];
    assert DomainOk(s, m, d) && DomainOk(s, m, e);
    assert target in Participants(s);
    assert target != d ==> Unsent(s, d, target);
    UnsentAfterSend(s, d, i, sync, e);
  }

  lemma BarrierAfterSend(s: State, m: Monitor, d: nat, i: nat, sync: bool)
    requires CanSend(s, m, d, i, sync) && m.Within? && m.leader == d
    ensures BarrierOk(SendTo(s, d, i, sync, s.order[i]), m)
  {
    var s' := SendTo(s, d, i, sync, s.order[i]);
    assert s.order[i] != d ==> Unsent(s, d, s.order[i]);
    forall e | 0 <= e < |s'.pc| ensures Unsent(s', d, e) ==> Unsent(s, d, e) {
      UnsentAfterSend(s, d, i, sync, e);
    }
  }

  lemma StepSend(s: State, m: Monitor, d: nat, i: nat, sync: bool)
    requires CanSend(s, m, d, i, sync)
    ensures Inv(SendTo(s, d, i, sync, s.order[i]), m)
    ensures !s.pending[s.order[i]]
  {
    hide DomainOk, BarrierOk, Shape, SectionAgrees, Suspending, LockHeld, LastOk, DomainsOk;
    Basics(s, m);
    var s' := SendTo(s, d, i, sync, s.order[i]);
    SenderFacts(s, m, d, i, sync);
    forall e | 0 <= e < |s'.pc| ensures DomainOk(s', m, e) { DomainAfterSend(s, m, d, i, sync, e); }
    DomainsTogether(s', m);
    BarrierAfterSend(s, m, d, i, sync);
    KeepsShape(s, s', m, d);
    LockLastSame(s, s', m, d);
  }

  lemma LockLastSame(s: State, s': State, m: Monitor, d: nat)
    requires LockHeld(s) && LastOk(s, m) && d < |s.pc| == |s'.pc| && s'.pc == s.pc[d := s'.pc[d]]
    requires HoldsLock(s'.pc[d]) == HoldsLock(s.pc[d]) && IsLast(s'.pc[d]) == IsLast(s.pc[d])
    requires s'.lock == s.lock && s'.creators == s.creators
    ensures LockHeld(s') && LastOk(s', m)
  {
  }

  lemma SenderFacts(s: State, m: Monitor, d: nat, i: nat, sync: bool)
    requires CanSend(s, m, d, i, sync)
    ensures |s.pc| == |s.pending| && s.order[i] < |s.pending| && !s.pending[s.order[i]] && m.Within? && m.leader == d
  {
    var target := s.order[i];
    TheDomain(s, m, d);
    TheDomain(s, m, target);
    assert target != d ==> Unsent(s, d, target);
  }

  /** Moving a domain towards the barrier or round it, without touching the barrier. */
  lemma BarrierAfterMove(s: State, s': State, m: Monitor, d: nat)
    requires d < |s.pc| == |s.pending| == |s'.pc| == |s'.pending| && BarrierOk(s, m)
    requires m.Within? && m.leader < |s.pc| && IsSetUp(s, m) && IsSetUp(s', m)
    requires s'.pc == s.pc[d := s'.pc[d]] && SameUnsent(s, s', m.leader)
    requires forall e :: 0 <= e < |s.pc| && s'.pending[e] ==> s.pending[e]
    requires s'.arrived == s.arrived && s'.released == s.released
    requires d !in m.arrived && !s'.pc[d].Releasing?
    requires AtBarrier(s'.pc[d]) ==> HasBarrier(m.sync, m.participants)
    requires s'.pc[d].Calling? ==> s.released
    ensures BarrierOk(s', m)
  {
  }

  /** A step of `d` inside the section, described by its new position alone. */
  lemma SectionMove(s: State, s': State, m: Monitor, m': Monitor, d: nat)
    requires Shape(s) && SectionAgrees(s, m) && DomainsOk(s, m) && s.suspended == |Suspending(s)|
    requires m.Within? && SameBut(m, m', d)
    requires d < |s.pc| && !s.pc[d].Off? && |s'.pc| == |s.pc| == |s'.pending|
    requires s'.pc == s.pc[d := s'.pc[d]] && !s'.pc[d].Off?
    requires forall e :: 0 <= e < |s.pc| && e != d ==> s'.pending[e] == s.pending[e]
    requires s'.order == s.order && s'.participating == s.participating
    requires s'.leader == s.leader && s'.creators == s.creators && s'.suspended == s.suspended
    requires SameUnsent(s, s', m.leader) && DomainOk(s', m', d)
    requires m'.finished <= m'.ran <= m'.participants && m'.arrived <= m'.participants
    ensures Shape(s') && SectionAgrees(s', m') && DomainsOk(s', m') && s'.suspended == |Suspending(s')|
  {
    KeepsShape(s, s', m, d);
    OthersOk(s, s', m, m', d);
  }

  /** Outside the lock and before the end, moves change neither the holder nor the last. */
  lemma LockLastKept(s: State, s': State, m: Monitor, m': Monitor, d: nat)
    requires LockHeld(s) && LastOk(s, m) && d < |s.pc| && m.Within?
    requires |s'.pc| == |s.pc| && s'.pc == s.pc[d := s'.pc[d]] && s'.creators == s.creators
    requires s'.lock == if HoldsLock(s.pc[d]) then None else s.lock
    requires !HoldsLock(s'.pc[d]) && !IsLast(s.pc[d]) && !IsLast(s'.pc[d])
    requires m'.Within? && m'.participants == m.participants && m.finished <= m'.finished <= m'.participants
    ensures LockHeld(s') && LastOk(s', m')
  {
  }

  lemma AllSent(s: State, s': State, m: Monitor, d: nat, i: nat, sync: bool)
    requires d < |s.pc| == |s.pending| == |s'.pc| && s'.pending == s.pending && s.pc[d] == Sending(i, sync) && i >= s.participating
    requires DomainOk(s, m, d) && s'.pc == s.pc[d := s'.pc[d]] && s'.order == s.order && s'.participating == s.participating
    requires s'.pc[d].Arriving? || s'.pc[d].Calling?
    requires m.Within? ==> m.leader in m.participants && m.finished <= m.ran
    ensures m.Within? && m.leader == d && m.sync == sync && SameUnsent(s, s', d)
    ensures DomainOk(s', m, d)
  {
  }

  lemma NotArrivedYet(s: State, m: Monitor, d: nat)
    requires d < |s.pc| == |s.pending| && BarrierOk(s, m) && CountersAgree(s, m)
    requires m.Within? && m.leader == d && s.pc[d].Sending?
    ensures IsSetUp(s, m) && s.numDomains == |m.participants| && d !in m.arrived
    ensures !HasBarrier(m.sync, m.participants) ==> s.released
  {
  }

  lemma LeaderTakesPart(s: State, m: Monitor)
    requires SectionAgrees(s, m) && m.Within?
    ensures m.leader in m.participants
  {
  }

  lemma StepSendDone(s: State, m: Monitor, d: nat, i: nat, sync: bool)
    requires Inv(s, m) && d < |s.pc| && s.pc[d] == Sending(i, sync) && i >= s.participating
    ensures Inv(At(s, d, if sync && s.numDomains != 1 then Arriving else Calling).(lock := None), m)
  {
    hide Shape, LockHeld, SectionAgrees, DomainsOk, LastOk, BarrierOk, Suspending, SameUnsent, DomainOk, CountersAgree;
    var s' := At(s, d, if sync && s.numDomains != 1 then Arriving else Calling).(lock := None);
    Basics(s, m);
    TheDomain(s, m, d);
    if m.Within? { LeaderTakesPart(s, m); }
    AllSent(s, s', m, d, i, sync);
    NotArrivedYet(s, m, d);
    BarrierAfterMove(s, s', m, d);
    SectionMove(s, s', m, m, d);
    LockLastKept(s, s', m, m, d);
    CountersKept(s, s', m);
  }

  lemma CountersKept(s: State, s': State, m: Monitor)
    requires CountersAgree(s, m) && s'.numDomains == s.numDomains && s'.stillProcessing == s.stillProcessing
    requires IsSetUp(s, m)
    ensures CountersAgree(s', m)
  {
  }

  lemma BarrierAfterTakeUp(s: State, s': State, m: Monitor, d: nat)
    requires d < |s.pc| == |s.pending| == |s'.pc| == |s'.pending| && BarrierOk(s, m) && PendingOk(s, m, d)
    requires s.pc[d].Polling? && s.pending[d]
    requires s' == At(s, d, Entering).(pending := s.pending[d := false])
    ensures BarrierOk(s', m)
  {
    UnsentKept(s, s', m.leader);
    BarrierAfterMove(s, s', m, d);
  }

  /** A domain takes up its interrupt. */
  lemma StepTakeUp(s: State, m: Monitor, d: nat)
    requires Inv(s, m) && d < |s.pc| && s.pc[d].Polling? && s.pending[d]
    ensures Inv(At(s, d, Entering).(pending := s.pending[d := false]), m)
  {
    var s' := At(s, d, Entering).(pending := s.pending[d := false]);
    TheDomain(s, m, d);
    UnsentKept(s, s', m.leader);
    assert DomainOk(s', m, d) by { TheDomain(s, m, d); }
    BarrierAfterTakeUp(s, s', m, d);
    SectionMove(s, s', m, m, d);
    LockLastKept(s, s', m, m, d);
  }

  lemma BarrierAtEntry(s: State, m: Monitor, d: nat)
    requires d < |s.pc| == |s.pending| && BarrierOk(s, m) && DomainOk(s, m, d) && s.pc[d].Entering?
    ensures m.Within? && (s.released <==> !HasBarrier(m.sync, m.participants))
    ensures d !in m.arrived && IsSetUp(s, m)
  {
  }

  /** Moving on within the section, before the callback is run. */
  lemma DomainMovesOn(s: State, s': State, m: Monitor, d: nat)
    requires d < |s.pc| == |s.pending| == |s'.pc| && s'.pending == s.pending && DomainOk(s, m, d)
    requires InSection(s.pc[d]) && InSection(s'.pc[d]) && !s.pc[d].Decrementing? && !s'.pc[d].Decrementing?
    requires m.Within? && m.leader < |s.pc| && SameUnsent(s, s', m.leader)
    ensures DomainOk(s', m, d)
  {
  }

  /** The handler goes round the barrier exactly when the section has none. */
  lemma StepTestBarrier(s: State, m: Monitor, d: nat)
    requires Inv(s, m) && d < |s.pc| && s.pc[d].Entering?
    ensures Inv(At(s, d, if s.released then Calling else Arriving), m)
    ensures m.Within? && (s.released <==> !HasBarrier(m.sync, m.participants))
  {
    hide Shape, LockHeld, SectionAgrees, DomainsOk, LastOk, BarrierOk, Suspending, SameUnsent, DomainOk, HasBarrier, CountersAgree;
    var s' := At(s, d, if s.released then Calling else Arriving);
    Basics(s, m);
    TheDomain(s, m, d);
    BarrierAtEntry(s, m, d);
    UnsentKept(s, s', m.leader);
    DomainMovesOn(s, s', m, d);
    BarrierAfterMove(s, s', m, d);
    SectionMove(s, s', m, m, d);
    LockLastKept(s, s', m, m, d);
    CountersKept(s, s', m);
  }

  lemma SameSize(a: set<nat>, b: set<nat>)
    requires a <= b && |a| == |b|
    ensures a == b
  {
    assert |b - a| == |b| - |a|;
  }

  lemma BarrierAfterArrival(s: State, m: Monitor, d: nat)
    requires d < |s.pc| == |s.pending| && SectionOk(s, m, d) && s.pc[d].Arriving?
    requires BarrierOk(s, m) && CountersAgree(s, m) && m.arrived <= m.participants
    ensures m.Within? && BarrierOk(ArriveAtBarrier(s, d), Observe(m, Arrived(d)))
    ensures Observe(m, Arrived(d)) == m.(arrived := m.arrived + {d})
  {
    var s', m' := ArriveAtBarrier(s, d), m.(arrived := m.arrived + {d});
    UnsentKept(s, s', m.leader);
    if |m'.arrived| == |m.participants| { SameSize(m'.arrived, m.participants); }
  }

  lemma StepArrive(s: State, m: Monitor, d: nat)
    requires Inv(s, m) && d < |s.pc| && s.pc[d].Arriving?
    ensures Inv(ArriveAtBarrier(s, d), Observe(m, Arrived(d)))
  {
    var s', m' := ArriveAtBarrier(s, d), Observe(m, Arrived(d));
    TheDomain(s, m, d);
    BarrierAfterArrival(s, m, d);
    UnsentKept(s, s', m.leader);
    assert DomainOk(s', m', d);
    SectionMove(s, s', m, m', d);
    LockLastKept(s, s', m, m', d);
  }

  lemma BarrierAfterPassing(s: State, m: Monitor, d: nat)
    requires d < |s.pc| == |s.pending| && SectionOk(s, m, d)
    requires s.pc[d].Releasing? || (s.pc[d].Waiting? && s.released)
    requires BarrierOk(s, m)
    ensures m.Within? && BarrierOk(At(s, d, Calling).(released := true), m)
  {
    UnsentKept(s, At(s, d, Calling).(released := true), m.leader);
  }

  /** Leaving the barrier, as the last to arrive or woken up by it. */
  lemma StepPass(s: State, m: Monitor, d: nat)
    requires Inv(s, m) && d < |s.pc| && (s.pc[d].Releasing? || (s.pc[d].Waiting? && s.released))
    ensures Inv(At(s, d, Calling).(released := true), m)
  {
    var s' := At(s, d, Calling).(released := true);
    TheDomain(s, m, d);
    BarrierAfterPassing(s, m, d);
    UnsentKept(s, s', m.leader);
    assert DomainOk(s', m, d);
    SectionMove(s, s', m, m, d);
    LockLastKept(s, s', m, m, d);
  }

  lemma BarrierAfterCall(s: State, m: Monitor, d: nat)
    requires d < |s.pc| == |s.pending| && SectionOk(s, m, d) && s.pc[d].Calling? && BarrierOk(s, m)
    ensures m.Within? && Observe(m, Ran(d)) == m.(ran := m.ran + {d})
    ensures BarrierOk(Log(At(s, d, Decrementing), Ran(d)), Observe(m, Ran(d)))
  {
    UnsentKept(s, Log(At(s, d, Decrementing), Ran(d)), m.leader);
  }

  lemma StepCall(s: State, m: Monitor, d: nat)
    requires Inv(s, m) && d < |s.pc| && s.pc[d].Calling?
    ensures Inv(Log(At(s, d, Decrementing), Ran(d)), Observe(m, Ran(d)))
  {
    var s', m' := Log(At(s, d, Decrementing), Ran(d)), Observe(m, Ran(d));
    TheDomain(s, m, d);
    BarrierAfterCall(s, m, d);
    UnsentKept(s, s', m.leader);
    assert DomainOk(s', m', d);
    SectionMove(s, s', m, m', d);
    LockLastKept(s, s', m, m', d);
  }

  lemma BarrierAfterDecrement(s: State, m: Monitor, d: nat)
    requires d < |s.pc| == |s.pending| && SectionOk(s, m, d) && s.pc[d].Decrementing? && BarrierOk(s, m)
    ensures m.Within? && Observe(m, Finished(d)) == m.(finished := m.finished + {d})
    ensures BarrierOk(DecrementStillProcessing(s, d), Observe(m, Finished(d)))
  {
    UnsentKept(s, DecrementStillProcessing(s, d), m.leader);
  }

  /** Whoever brings the counter to zero is the last, and everybody else has finished. */
  lemma LastAfterDecrement(s: State, m: Monitor, d: nat)
    requires d < |s.pc| == |s.pending| && SectionOk(s, m, d) && s.pc[d].Decrementing?
    requires LastOk(s, m) && CountersAgree(s, m) && m.finished <= m.ran <= m.participants
    ensures CountersAgree(DecrementStillProcessing(s, d), Observe(m, Finished(d)))
    ensures LastOk(DecrementStillProcessing(s, d), Observe(m, Finished(d)))
  {
    var s', m' := DecrementStillProcessing(s, d), m.(finished := m.finished + {d});
    assert m'.participants - m'.finished == (m.participants - m.finished) - {d};
    assert d in m.participants - m.finished;
    assert |m'.participants - m'.finished| == s'.stillProcessing;
  }

  lemma StepDecrement(s: State, m: Monitor, d: nat)
    requires Inv(s, m) && d < |s.pc| && s.pc[d].Decrementing?
    ensures Inv(DecrementStillProcessing(s, d), Observe(m, Finished(d)))
  {
    var s', m' := DecrementStillProcessing(s, d), Observe(m, Finished(d));
    hide BarrierOk, LastOk, CountersAgree, Suspending, Shape, SectionAgrees, DomainsOk, SameUnsent, LockHeld;
    Basics(s, m);
    TheDomain(s, m, d);
    BarrierAfterDecrement(s, m, d);
    LastAfterDecrement(s, m, d);
    UnsentKept(s, s', m.leader);
    DomainIsDone(s, s', m, m', d);
    SectionMove(s, s', m, m', d);
    LockOutside(s, s', d);
  }

  lemma LockOutside(s: State, s': State, d: nat)
    requires LockHeld(s) && d < |s.pc| == |s'.pc| && s'.pc == s.pc[d := s'.pc[d]]
    requires !HoldsLock(s.pc[d]) && !HoldsLock(s'.pc[d]) && s'.lock == s.lock && s'.creators == s.creators
    ensures LockHeld(s')
  {
  }

  lemma DomainIsDone(s: State, s': State, m: Monitor, m': Monitor, d: nat)
    requires d < |s.pc| == |s.pending| == |s'.pc| && s'.pending == s.pending && DomainOk(s, m, d) && s.pc[d].Decrementing?
    requires m.Within? && m.leader < |s.pc| && SameUnsent(s, s', m.leader) && m' == m.(finished := m.finished + {d})
    requires s'.pc[d].Mutator? || s'.pc[d].LastLocking?
    ensures DomainOk(s', m', d)
  {
  }

  lemma StepClearLeader(s: State, m: Monitor, d: nat)
    requires Inv(s, m) && d < |s.pc| && s.pc[d].LastHolding?
    ensures Inv(EndSection(s, d), Observe(m, Ended))
  {
    var s', m' := EndSection(s, d), Observe(m, Ended);
    assert DomainOk(s, m, d);
    assert Participants(s') == Participants(s) && Live(s') == Live(s) && Suspending(s') == Suspending(s);
    forall e | 0 <= e < |s'.pc| ensures DomainOk(s', m', e) && !AtBarrier(s'.pc[e]) { assert DomainOk(s, m, e); }
    assert m.ran != {} by { assert m.leader in m.ran; }
  }

  lemma IndexOfParticipant(s: State, d: nat)
    requires Shape(s) && d in Live(s)
    ensures IndexOf(s.order, d) < s.participating
  {
    assert d in Participants(s);
    var j :| 0 <= j < s.participating && s.order[j] == d;
  }

  lemma ParticipantsAfterLeaving(order: seq<nat>, n: nat, i: nat)
    requires i < n <= |order|
    requires forall j, k :: 0 <= j < k < |order| ==> order[j] != order[k]
    requires forall j :: 0 <= j < |order| ==> order[j] < |order|
    ensures var r := Removed(order, n, i);
      && |r| == |order|
      && (forall j :: 0 <= j < |r| ==> r[j] < |r|)
      && (forall j, k :: 0 <= j < k < |r| ==> r[j] != r[k])
      && (set j | 0 <= j < n - 1 :: r[j]) == (set j | 0 <= j < n :: order[j]) - {order[i]}
  {
    var r := Removed(order, n, i);
    var before, after := set j | 0 <= j < n :: order[j], set j | 0 <= j < n - 1 :: r[j];
    forall x | x in before ensures x == order[i] || x in after {
      var k :| 0 <= k < n && order[k] == x;
      assert k != i ==> x == r[if k == n - 1 then i else k];
    }
  }

  lemma ShapeAfterLeaving(s: State, d: nat, i: nat)
    requires Shape(s) && d < |s.pc| && !s.pc[d].Off? && i < s.participating && s.order[i] == d
    ensures Shape(LeaveSet(s, d, i)) && Live(LeaveSet(s, d, i)) == Live(s) - {d}
    ensures Suspending(LeaveSet(s, d, i)) == Suspending(s)
  {
    var s' := LeaveSet(s, d, i);
    ParticipantsAfterLeaving(s.order, s.participating, i);
    assert Live(s') == Live(s) - {d} && Suspending(s') == Suspending(s);
    assert Participants(s') == set j | 0 <= j < s.participating - 1 :: s'.order[j];
    assert Participants(s) == set j | 0 <= j < s.participating :: s.order[j];
  }

  lemma DomainAfterLeaving(s: State, s': State, m: Monitor, m': Monitor, e: nat)
    requires e < |s.pc| == |s'.pc| == |s.pending| && s'.pending == s.pending && DomainOk(s, m, e)
    requires m.Within? ==> m.leader < |s.pc| && !Leads(s.pc[m.leader]) && !Leads(s'.pc[m.leader])
    requires s'.pc[e] == s.pc[e] || (s'.pc[e].Off? && !InSection(s.pc[e]) && !s.pending[e])
    requires m' == m || (m.Within? && m'.Within? && m' == m.(live := m'.live))
             || (m.Between? && m'.Between?)
    requires Leads(s.pc[e]) ==> m' == m
    ensures DomainOk(s', m', e)
  {
  }

  /** A domain that finds no interrupt while holding the lock owes the section nothing. */
  lemma LeaverOwesNothing(s: State, m: Monitor, d: nat)
    requires Inv(s, m) && d < |s.pc| && s.pc[d].TermHolding? && !s.pending[d]
    ensures d in m.live && (m.Within? ==> d in m.participants && d in m.finished)
    ensures forall e :: 0 <= e < |s.pc| ==> !Leads(s.pc[e])
  {
    hide LockHeld, DomainsOk, BarrierOk, LastOk, CountersAgree, Suspending, DomainOk;
    Basics(s, m);
    OneHolder(s, d);
    TheDomain(s, m, d);
    OwesNothing(s, m, d);
    assert d in Live(s);
  }

  lemma OwesNothing(s: State, m: Monitor, d: nat)
    requires d < |s.pc| == |s.pending| && DomainOk(s, m, d) && s.pc[d].TermHolding? && !s.pending[d]
    requires m.Within? ==> m.leader < |s.pc| && !Leads(s.pc[m.leader])
    ensures m.Within? && d in m.participants ==> d in m.finished
  {
  }

  lemma OneHolder(s: State, d: nat)
    requires LockHeld(s) && d < |s.pc| && HoldsLock(s.pc[d]) && !Leads(s.pc[d])
    ensures forall e :: 0 <= e < |s.pc| ==> !Leads(s.pc[e])
  {
    assert s.lock == Some(Domain(d));
    forall e | 0 <= e < |s.pc| ensures !Leads(s.pc[e]) { assert HoldsLock(s.pc[e]) <==> s.lock == Some(Domain(e)); }
  }

  lemma StepLeave(s: State, m: Monitor, d: nat, i: nat)
    requires Inv(s, m) && d < |s.pc| && s.pc[d].TermHolding? && !s.pending[d]
    requires i < s.participating && s.order[i] == d
    ensures Inv(LeaveSet(s, d, i), Observe(m, Left(d)))
  {
    var s', m' := LeaveSet(s, d, i), Observe(m, Left(d));
    ShapeAfterLeaving(s, d, i);
    LeaverOwesNothing(s, m, d);
    assert DomainsOk(s', m') by {
      forall e | 0 <= e < |s'.pc| ensures DomainOk(s', m', e) {
        TheDomain(s, m, e);
        DomainAfterLeaving(s, s', m, m', e);
      }
    }
    hide Shape, SectionAgrees, DomainsOk, Suspending, IndexOf, Removed;
    LeavesLock(s, s', m, m', d);
    BarrierAfterLeaving(s, s', m, m', d);
  }

  lemma LeavesLock(s: State, s': State, m: Monitor, m': Monitor, d: nat)
    requires LockHeld(s) && LastOk(s, m) && d < |s.pc| && s.pc[d].TermHolding?
    requires s'.pc == s.pc[d := Off] && s'.lock == None && s'.creators == s.creators
    requires m.Within? ==> m'.Within? && m'.finished == m.finished && m'.participants == m.participants
    ensures LockHeld(s') && LastOk(s', m')
  {
    assert s.lock == Some(Domain(d));
  }

  lemma BarrierAfterLeaving(s: State, s': State, m: Monitor, m': Monitor, d: nat)
    requires |s.pc| == |s.pending| && BarrierOk(s, m) && CountersAgree(s, m) && d < |s.pc| && s.pc[d].TermHolding?
    requires s'.pc == s.pc[d := Off] && s'.pending == s.pending && s'.released == s.released && s'.arrived == s.arrived
    requires s'.numDomains == s.numDomains && s'.stillProcessing == s.stillProcessing
    requires if m.Within? then m'.Within? && m' == m.(live := m'.live) else !m'.Within?
    requires m.Within? ==> m.leader < |s.pc|
    requires forall e :: 0 <= e < |s.pc| ==> !Leads(s.pc[e])
    ensures BarrierOk(s', m') && CountersAgree(s', m')
  {
  }

  // ----- Creation -----------------------------------------------------------

  lemma SuspendingAfter(s: State, s': State, c: nat)
    requires c < |s.creators| == |s'.creators| && s'.creators == s.creators[c := s'.creators[c]]
    ensures |Suspending(s')| ==
            |Suspending(s)| + (if c in Suspending(s') then 1 else 0) - (if c in Suspending(s) then 1 else 0)
  {
    var a, b := Suspending(s), Suspending(s');
    assert b == if c in b then (a - {c}) + {c} else a - {c};
  }

  /** A creating thread's step that changes only itself, the lock and the suspension count. */
  lemma SpawnerMove(s: State, s': State, m: Monitor, c: nat)
    requires Inv(s, m) && c < |s.creators| && |s'.creators| == |s.creators|
    requires s' == s.(creators := s.creators[c := s'.creators[c]], lock := s'.lock, suspended := s'.suspended,
                      sleepers := s'.sleepers, waiters := s'.waiters)
    requires LockHeld(s')
    requires s'.suspended ==
             s.suspended + (if c in Suspending(s') then 1 else 0) - (if c in Suspending(s) then 1 else 0)
    ensures Inv(s', m)
  {
    SuspendingAfter(s, s', c);
    assert Participants(s') == Participants(s) && Live(s') == Live(s);
    if m.Within? { UnsentKept(s, s', m.leader); }
    forall e | 0 <= e < |s'.pc| ensures DomainOk(s', m, e) { assert DomainOk(s, m, e); }
  }

  lemma StepJoin(s: State, m: Monitor, d: nat)
    requires Inv(s, m) && s.leader.None? && s.participating < |s.order| && d == s.order[s.participating]
    ensures s.pc[d].Off? && !s.pending[d]
    ensures Inv(JoinSet(s, d), Observe(m, Joined(d)))
  {
    assert DomainOk(s, m, d);
    assert d !in Participants(s);
    var s', m' := JoinSet(s, d), Observe(m, Joined(d));
    assert Live(s') == Live(s) + {d} && Suspending(s') == Suspending(s);
    assert Participants(s') == Participants(s) + {d};
    forall e | 0 <= e < |s'.pc| ensures DomainOk(s', m', e) { assert DomainOk(s, m, e); }
  }

  /** The monitor moved by the event the step logged, if any. */
  ghost predicate Follows(s: State, s': State, m: Monitor, m': Monitor) {
    || (s'.log == s.log && m' == m)
    || (|s'.log| == |s.log| + 1 && s'.log[..|s.log|] == s.log && m' == Observe(m, s'.log[|s.log|]))
  }

  lemma SuspenderCounts(s: State, m: Monitor, c: nat)
    requires Inv(s, m) && c < |s.creators| && s.creators[c].Checking?
    ensures s.creators[c].suspending ==> s.suspended > 0
    ensures forall i :: 0 <= i < |s.order| ==> s.order[i] < |s.order|
    ensures s.leader.None? <==> m.Between?
  {
    assert s.creators[c].suspending ==> c in Suspending(s);
  }

  /** A creating thread takes the lock, gives it up to wait, or is done with it. */
  lemma SpawnerLock(s: State, s': State, c: nat)
    requires LockHeld(s) && c < |s.creators| && |s'.creators| == |s.creators| && s'.pc == s.pc
    requires s'.creators == s.creators[c := s'.creators[c]]
    requires s.creators[c].Checking? && !s'.creators[c].Checking? && s'.lock == None
    ensures LockHeld(s')
  {
    assert s.lock == Some(Spawner(c));
  }

  lemma LockOf(s: State, m: Monitor)
    requires Inv(s, m)
    ensures LockHeld(s)
  {
  }

  lemma StepWait(s: State, m: Monitor, c: nat)
    requires Inv(s, m) && Enabled(s, SpawnTest(c)) && s.leader.Some?
    ensures Inv(Apply(s, SpawnTest(c)), m) && Apply(s, SpawnTest(c)).log == s.log
  {
    hide Inv, LockHeld;
    var s' := Apply(s, SpawnTest(c));
    LockOf(s, m);
    SpawnerLock(s, s', c);
    SpawnerMove(s, s', m, c);
  }

  lemma StepDone(s: State, m: Monitor, c: nat) returns (r: State)
    requires Inv(s, m) && Enabled(s, SpawnTest(c)) && s.leader.None?
    ensures r == StopWaiting(s, c, s.creators[c].suspending) && Inv(r, m)
  {
    SuspenderCounts(s, m, c);
    hide Inv, LockHeld;
    r := StopWaiting(s, c, s.creators[c].suspending);
    LockOf(s, m);
    SpawnerLock(s, r, c);
    SpawnerMove(s, r, m, c);
  }

  lemma StepSpawnTest(s: State, m: Monitor, c: nat) returns (m': Monitor)
    requires Inv(s, m) && Enabled(s, SpawnTest(c))
    ensures Inv(Apply(s, SpawnTest(c)), m') && Follows(s, Apply(s, SpawnTest(c)), m, m')
  {
    Basics(s, m);
    SuspenderCounts(s, m, c);
    hide Inv;
    m' := m;
    if s.leader.Some? {
      StepWait(s, m, c);
    } else {
      var r := StepDone(s, m, c);
      if s.participating < |s.order| {
        m' := Observe(m, Joined(s.order[s.participating]));
        StepJoin(r, m, s.order[s.participating]);
      }
    }
  }

  predicate IsSectionAction(a: Action) {
    a.TestBarrier? || a.Arrive? || a.Release? || a.Wake? || a.Call? || a.Decrement? || a.ClearLeader?
  }

  predicate IsLeaderAction(a: Action) {
    a.TestRequest? || a.SetUp? || a.Interrupt?
  }

  lemma StepSection(s: State, m: Monitor, a: Action) returns (m': Monitor)
    requires Inv(s, m) && Enabled(s, a) && IsSectionAction(a)
    ensures Inv(Apply(s, a), m') && Follows(s, Apply(s, a), m, m')
  {
    hide Inv;
    var d := a.d;
    m' := m;
    if a.TestBarrier? { StepTestBarrier(s, m, d); }
    else if a.Arrive? { m' := Observe(m, Arrived(d)); StepArrive(s, m, d); }
    else if a.Call? { m' := Observe(m, Ran(d)); StepCall(s, m, d); }
    else if a.Decrement? { m' := Observe(m, Finished(d)); StepDecrement(s, m, d); }
    else if a.ClearLeader? { m' := Observe(m, Ended); StepClearLeader(s, m, d); }
    else { StepPass(s, m, d); assert Apply(s, a) == At(s, d, Calling).(released := true); }
  }

  lemma StepTestRequest(s: State, m: Monitor, d: nat) returns (m': Monitor)
    requires Inv(s, m) && Enabled(s, TestRequest(d))
    ensures Inv(Apply(s, TestRequest(d)), m') && Follows(s, Apply(s, TestRequest(d)), m, m')
  {
    hide Inv;
    m' := m;
    if s.leader.Some? || s.suspended != 0 {
      StepQuiet(s, m, TestRequest(d));
    } else {
      m' := Observe(m, Claimed(d, Participants(s), s.pc[d].sync));
      StepClaim(s, m, d, s.pc[d].sync);
    }
  }

  lemma StepSetUpRequest(s: State, m: Monitor, d: nat)
    requires Inv(s, m) && Enabled(s, SetUp(d))
    ensures Inv(Apply(s, SetUp(d)), m) && Apply(s, SetUp(d)).log == s.log
  {
    hide Inv;
    StepSetUp(s, m, d, s.pc[d].sync);
  }

  lemma StepLeader(s: State, m: Monitor, a: Action) returns (m': Monitor)
    requires Inv(s, m) && Enabled(s, a) && IsLeaderAction(a)
    ensures Inv(Apply(s, a), m') && Follows(s, Apply(s, a), m, m')
  {
    hide Inv, Apply, Enabled;
    m' := m;
    if a.TestRequest? { m' := StepTestRequest(s, m, a.d); }
    else if a.SetUp? { StepSetUpRequest(s, m, a.d); }
    else { StepInterrupt(s, m, a.d); }
  }

  lemma StepInterrupt(s: State, m: Monitor, d: nat)
    requires Inv(s, m) && Enabled(s, Interrupt(d))
    ensures Inv(Apply(s, Interrupt(d)), m) && Apply(s, Interrupt(d)).log == s.log
  {
    Basics(s, m);
    hide Inv;
    if s.pc[d].next < s.participating { StepSend(s, m, d, s.pc[d].next, s.pc[d].sync); }
    else { StepSendDone(s, m, d, s.pc[d].next, s.pc[d].sync); }
  }

  predicate IsQuiet(s: State, a: Action)
    requires Enabled(s, a)
  {
    match a
    case TestRequest(d) => s.leader.Some? || s.suspended != 0
    case Poll(d) => !s.pending[d]
    case Leave(d) => s.pending[d]
    case _ => !IsCreatorAction(a) && !IsSectionAction(a) && !IsLeaderAction(a)
  }

  ghost predicate IsQuietMove(s: State, s': State, d: nat)
    requires d < |s.pc|
  {
    && |s'.pc| == |s.pc| && s' == At(s, d, s'.pc[d]).(lock := s'.lock, sleepers := s'.sleepers)
    && Aside(s.pc[d]) && Aside(s'.pc[d])
    && IsLast(s.pc[d]) == IsLast(s'.pc[d])
    && PassesLock(s, d, s'.pc[d], s'.lock)
  }

  lemma QuietRequest(s: State, a: Action)
    requires Enabled(s, a) && IsQuiet(s, a) && (s.lock.Some? || !HoldsLock(s.pc[a.d]))
    requires a.Request? || a.TryLock? || a.TestRequest? || a.WakeRequest?
    ensures IsQuietMove(s, Apply(s, a), a.d)
  {
  }

  lemma QuietLock(s: State, a: Action)
    requires Enabled(s, a) && (a.LastLock? || a.TermLock?)
    ensures IsQuietMove(s, Apply(s, a), a.d)
  {
  }

  lemma QuietUnlock(s: State, d: nat)
    requires Enabled(s, LastUnlock(d))
    ensures IsQuietMove(s, Apply(s, LastUnlock(d)), d)
  {
  }

  lemma QuietStay(s: State, d: nat)
    requires Enabled(s, Leave(d)) && s.pending[d]
    ensures IsQuietMove(s, Apply(s, Leave(d)), d)
  {
  }

  lemma QuietShape(s: State, a: Action)
    requires Enabled(s, a) && IsQuiet(s, a) && (s.lock.Some? || !HoldsLock(s.pc[a.d]))
    ensures IsQuietMove(s, Apply(s, a), a.d)
  {
    if a.Request? || a.TryLock? || a.TestRequest? || a.WakeRequest? { QuietRequest(s, a); }
    else if a.LastLock? || a.TermLock? { QuietLock(s, a); }
    else if a.LastUnlock? { QuietUnlock(s, a.d); }
    else if a.Leave? { QuietStay(s, a.d); }
  }

  lemma StepQuiet(s: State, m: Monitor, a: Action)
    requires Inv(s, m) && Enabled(s, a) && IsQuiet(s, a)
    ensures Inv(Apply(s, a), m) && Apply(s, a).log == s.log
  {
    assert s.lock.Some? || !HoldsLock(s.pc[a.d]);
    QuietShape(s, a);
    hide Inv, PassesLock, Apply, IsQuiet, Enabled;
    QuietMove(s, m, a.d, Apply(s, a).pc[a.d], Apply(s, a).lock, Apply(s, a).sleepers);
  }

  lemma StepOther(s: State, m: Monitor, a: Action) returns (m': Monitor)
    requires Inv(s, m) && Enabled(s, a)
    requires !IsCreatorAction(a) && !IsSectionAction(a) && !IsLeaderAction(a)
    ensures Inv(Apply(s, a), m') && Follows(s, Apply(s, a), m, m')
  {
    m' := m;
    if IsQuiet(s, a) {
      StepQuiet(s, m, a);
    } else if a.Poll? {
      StepTakeUp(s, m, a.d);
    } else {
      IndexOfParticipant(s, a.d);
      m' := Observe(m, Left(a.d));
      StepLeave(s, m, a.d, IndexOf(s.order, a.d));
    }
  }

  lemma StepInv(s: State, m: Monitor, a: Action) returns (m': Monitor)
    requires Inv(s, m) && Enabled(s, a)
    ensures Inv(Apply(s, a), m') && Follows(s, Apply(s, a), m, m')
  {
    hide Inv;
    if IsSectionAction(a) { m' := StepSection(s, m, a); }
    else if IsLeaderAction(a) { m' := StepLeader(s, m, a); }
    else if a.SpawnTest? { m' := StepSpawnTest(s, m, a.c); }
    else if IsCreatorAction(a) { m' := StepSpawn(s, m, a); }
    else { m' := StepOther(s, m, a); }
  }

  lemma StepSpawn(s: State, m: Monitor, a: Action) returns (m': Monitor)
    requires Inv(s, m) && Enabled(s, a) && (a.Spawn? || a.SpawnLock?)
    ensures Inv(Apply(s, a), m') && Follows(s, Apply(s, a), m, m')
  {
    m' := m;
    if a.Spawn? { StepBegin(s, m, a.c); } else { StepSpawnLock(s, m, a.c); }
  }

  lemma StepBegin(s: State, m: Monitor, c: nat)
    requires Inv(s, m) && Enabled(s, Spawn(c))
    ensures Inv(Apply(s, Spawn(c)), m) && Apply(s, Spawn(c)).log == s.log
  {
    LockOf(s, m);
    hide Inv;
    var s' := Apply(s, Spawn(c));
    SpawnerMove(s, s', m, c);
  }

  lemma StepSpawnLock(s: State, m: Monitor, c: nat)
    requires Inv(s, m) && Enabled(s, SpawnLock(c))
    ensures Inv(Apply(s, SpawnLock(c)), m) && Apply(s, SpawnLock(c)).log == s.log
  {
    LockOf(s, m);
    hide Inv;
    var s' := Apply(s, SpawnLock(c));
    SpawnerMove(s, s', m, c);
  }

  // ----- The theorems -------------------------------------------------------

  lemma {:induction false} RunInv(states: seq<State>, actions: seq<Action>, i: nat)
    requires Run(states, actions) && i < |states|
    ensures Inv(states[i], Verdict({}, states[i].log))
  {
    hide Inv, Apply, Enabled, Init;
    if i == 0 {
      InitInv(states[0]);
    } else {
      RunInv(states, actions, i - 1);
      VerdictFollows(states[i - 1], actions[i - 1]);
    }
  }

  lemma VerdictFollows(s: State, a: Action)
    requires Enabled(s, a) && Inv(s, Verdict({}, s.log))
    ensures Inv(Apply(s, a), Verdict({}, Apply(s, a).log))
  {
    hide Inv, Apply, Enabled;
    var s' := Apply(s, a);
    var m' := StepInv(s, Verdict({}, s.log), a);
    if s'.log != s.log {
      var e := s'.log[|s.log|];
      assert s'.log == s.log + [e];
      VerdictOfExtension({}, s.log, e);
    }
  }

  /**
   * In every interleaving of requests, interrupts, creations and terminations the monitor
   * accepts the run: sections never overlap, each captures exactly the live domains, every
   * participant runs the callback once and after all have arrived, nobody joins during a
   * section and nobody leaves while owing one.
   */
  lemma NoRunIsRefused(states: seq<State>, actions: seq<Action>, i: nat)
    requires Run(states, actions) && i < |states|
    ensures !Verdict({}, states[i].log).Refused?
  {
    RunInv(states, actions, i);
  }

  /** Unfinished participants of the section the monitor is in. */
  ghost function Owing(m: Monitor): set<nat> {
    if m.Within? then m.participants - m.finished else {}
  }

  /**
   * The shared counter is the number of participants that still owe the section, from the
   * moment the leader has set the request up; `stw_leader` is set exactly while a section
   * is on, and nobody has an interrupt pending outside one.
   */
  lemma CountersTellTheTruth(states: seq<State>, actions: seq<Action>, i: nat)
    requires Run(states, actions) && i < |states|
    ensures var s, m := states[i], Verdict({}, states[i].log);
      && (s.leader.Some? <==> m.Within?)
      && (m.Within? && IsSetUp(s, m) ==> s.stillProcessing == |Owing(m)|)
      && (m.Between? ==> forall d :: 0 <= d < |s.pending| ==> !s.pending[d])
      && !m.Refused? && Live(s) == m.live
  {
    RunInv(states, actions, i);
    var s, m := states[i], Verdict({}, states[i].log);
    forall d | 0 <= d < |s.pending| && m.Between? ensures !s.pending[d] { TheDomain(s, m, d); }
  }

  /** The conditions the runtime asserts where it takes the given step. */
  ghost predicate Asserted(s: State, a: Action)
    requires Enabled(s, a)
  {
    match a
    case Interrupt(d) =>       // no participant has an interrupt pending yet
      s.pc[d].next < s.participating ==>
        s.pc[d].next < |s.order| && s.order[s.pc[d].next] < |s.pending| && !s.pending[s.order[s.pc[d].next]]
    case Poll(d) =>            // only running domains are interrupted
      s.pending[d] ==> d in Live(s)
    case Leave(d) =>           // a leaving domain is found among the participants
      !s.pending[d] ==> IndexOf(s.order, d) < s.participating
    case SpawnTest(c) =>       // a free slot is neither running nor interrupted
      s.leader.None? && s.participating < |s.order| ==>
        var d := s.order[s.participating]; d < |s.pc| == |s.pending| && s.pc[d].Off? && !s.pending[d]
    case _ => true
  }

  lemma AssertionsHold(states: seq<State>, actions: seq<Action>, i: nat)
    requires Run(states, actions) && i < |actions|
    ensures Asserted(states[i], actions[i])
  {
    RunInv(states, actions, i);
    var s, m, a := states[i], Verdict({}, states[i].log), actions[i];
    match a {
      case Interrupt(d) => if s.pc[d].next < s.participating { StepSend(s, m, d, s.pc[d].next, s.pc[d].sync); }
      case Leave(d) => IndexOfParticipant(s, d);
      case SpawnTest(c) =>
        if s.leader.None? && s.participating < |s.order| { StepJoin(s, m, s.order[s.participating]); }
      case _ =>
    }
  }

  lemma ClaimNeedsNoSuspension(s: State, a: Action)
    requires Enabled(s, a) && s.suspended > 0
    ensures Apply(s, a).leader == s.leader || Apply(s, a).leader.None?
  {
  }

  /** A thread creating a domain that has waited long enough is not overtaken by another section. */
  lemma SuspensionBlocksRequests(states: seq<State>, actions: seq<Action>, i: nat, c: nat)
    requires Run(states, actions) && i < |actions|
    requires c < |states[i].creators| && !states[i].creators[c].Resting? && states[i].creators[c].suspending
    ensures states[i + 1].leader == states[i].leader || states[i + 1].leader.None?
  {
    hide Apply, Enabled, Init;
    RunInv(states, actions, i);
    assert c in Suspending(states[i]);
    ClaimNeedsNoSuspension(states[i], actions[i]);
  }

  // ----- What acceptance means for one section ------------------------------

  function Count(log: seq<Event>, e: Event): nat {
    if log == [] then 0 else Count(log[..|log| - 1], e) + if log[|log| - 1] == e then 1 else 0
  }

  ghost predicate WithinOneSection(body: seq<Event>) {
    forall i :: 0 <= i < |body| ==> !body[i].Claimed? && !body[i].Ended?
  }

  lemma {:induction false} SectionSoFar(live: set<nat>, log: seq<Event>, claim: Event, body: seq<Event>, d: nat)
    requires claim.Claimed? && WithinOneSection(body)
    requires !Verdict(live, log + [claim] + body).Refused?
    ensures var m := Verdict(live, log + [claim] + body);
      && m.Within? && m.participants == claim.participants
      && Count(body, Ran(d)) == (if d in m.ran then 1 else 0)
      && (d in m.ran ==> d in m.participants)
  {
    if body == [] {
      VerdictOfExtension(live, log, claim);
      assert log + [claim] + body == log + [claim];
    } else {
      var n := |body| - 1;
      assert log + [claim] + body == (log + [claim] + body[..n]) + [body[n]];
      VerdictOfExtension(live, log + [claim] + body[..n], body[n]);
      SectionSoFar(live, log, claim, body[..n], d);
    }
  }

  /** In an accepted log, a section that ended ran its callback exactly once on each participant. */
  lemma ExactlyOnce(live: set<nat>, log: seq<Event>, claim: Event, body: seq<Event>, d: nat)
    requires claim.Claimed? && WithinOneSection(body)
    requires !Verdict(live, log + [claim] + body + [Ended]).Refused?
    ensures Count(body, Ran(d)) == if d in claim.participants then 1 else 0
  {
    VerdictOfExtension(live, log + [claim] + body, Ended);
    SectionSoFar(live, log, claim, body, d);
  }
}
