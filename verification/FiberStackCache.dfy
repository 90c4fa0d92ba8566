/**
The cache of fiber stacks of one domain: a linked list that its owner alone pops and any
domain may push, with a counter that pushers reserve a place in before they push. The
counter is biased while the cache is disabled, so that nobody reserves. Every action is one
atomic access to shared memory; all interleavings are runs.
*/
module FiberStackCache {
  import opened Options

  type Stack = nat
  type Domain = nat

  const MAX_STACK_CACHE_LIMIT: nat := 4096

  /** A domain in `caml_free_stack`. */
  datatype Pusher =
    | Away
    | Asking(stack: Stack, limit: nat)            // has read the limit
    | Reserved(stack: Stack)                      // counted, and committed to pushing
    | Linking(stack: Stack, top: Option<Stack>)   // has set the link, before the exchange
    | Refused(stack: Stack)                       // counted, and about to take that back
    | Dropping(stack: Stack)                      // about to free the memory

  /** The owner, which allocates stacks and enables or disables the cache. */
  datatype Owner =
    | Ready
    | SawLen                                      // draining, has seen that stacks remain
    | SawHead(stack: Stack)
    | SawLink(stack: Stack, next: Option<Stack>)
    | Popped(stack: Stack)                        // unlinked, before the counter follows
    | Releasing(stack: Stack)                     // draining, about to free the memory

  datatype Mode = Disabled | Enabled | Draining

  /** `list`, `live` and `highest` are what an observer notes: the ideal list, the allocator's books, the greatest limit read. */
  datatype State = State(
    head: Option<Stack>,
    link: map<Stack, Option<Stack>>,
    len: int,
    pushers: map<Domain, Pusher>,
    owner: Owner,
    mode: Mode,
    inUse: set<Stack>,
    list: seq<Stack>,
    live: set<Stack>,
    highest: nat)

  ghost predicate Init(s: State) {
    && s.head == None && s.len == MAX_STACK_CACHE_LIMIT && s.mode == Disabled && s.owner == Ready
    && (forall d :: d in s.pushers ==> s.pushers[d] == Away)
    && s.list == [] && s.live == s.inUse && s.highest == 0
  }

  datatype Action =
    | Ask(d: Domain, x: Stack, limit: nat)
    | Reserve(d: Domain)
    | TakeBack(d: Domain)
    | Drop(d: Domain)
    | SetLink(d: Domain)
    | Exchange(d: Domain, spurious: bool)
    | ReadHead
    | AllocFresh(x: Stack)
    | ReadLink
    | ExchangeHead(spurious: bool)
    | Uncount
    | Release
    | Enable
    | Disable
    | ReadLen

  ghost predicate At(s: State, d: Domain) {
    d in s.pushers
  }

  ghost predicate CanAct(s: State, a: Action) {
    match a
    case Ask(d, x, limit) => At(s, d) && s.pushers[d].Away? && x in s.inUse
    case Reserve(d) => At(s, d) && s.pushers[d].Asking?
    case TakeBack(d) => At(s, d) && s.pushers[d].Refused?
    case Drop(d) => At(s, d) && s.pushers[d].Dropping?
    case SetLink(d) => At(s, d) && s.pushers[d].Reserved?
    case Exchange(d, _) => At(s, d) && s.pushers[d].Linking?
    case ReadHead => (s.owner.Ready? && s.mode != Draining) || s.owner.SawLen?
    case AllocFresh(x) => s.owner.Ready? && s.mode != Draining && s.head == None && x !in s.live
    case ReadLink => s.owner.SawHead? && s.owner.stack in s.link
    case ExchangeHead(_) => s.owner.SawLink?
    case Uncount => s.owner.Popped?
    case Release => s.owner.Releasing?
    case Enable => s.owner.Ready? && s.mode.Disabled?
    case Disable => s.owner.Ready? && s.mode.Enabled?
    case ReadLen => s.owner.Ready? && s.mode.Draining?
  }

  ghost function SetPusher(s: State, d: Domain, p: Pusher): State {
    s.(pushers := s.pushers[d := p])
  }

  ghost function Act(s: State, a: Action): State
    requires CanAct(s, a)
  {
    match a
    case Ask(d, x, limit) => SetPusher(s, d, Asking(x, limit)).(inUse := s.inUse - {x})
    case Reserve(d) =>
      var p := s.pushers[d];
      if s.len >= p.limit then SetPusher(s, d, Refused(p.stack)).(len := s.len + 1)
      else SetPusher(s, d, Reserved(p.stack)).(len := s.len + 1, highest := if p.limit > s.highest then p.limit else s.highest)
    case TakeBack(d) => SetPusher(s, d, Dropping(s.pushers[d].stack)).(len := s.len - 1)
    case Drop(d) => SetPusher(s, d, Away).(live := s.live - {s.pushers[d].stack})
    case SetLink(d) =>
      var x := s.pushers[d].stack;
      SetPusher(s, d, Linking(x, s.head)).(link := s.link[x := s.head])
    case Exchange(d, spurious) =>
      var p := s.pushers[d];
      if s.head == p.top && !spurious then SetPusher(s, d, Away).(head := Some(p.stack), list := [p.stack] + s.list)
      else SetPusher(s, d, Reserved(p.stack))
    case ReadHead =>
      if s.head.Some? then s.(owner := SawHead(s.head.value)) else s.(owner := Ready)
    case AllocFresh(x) => s.(inUse := s.inUse + {x}, live := s.live + {x})
    case ReadLink => s.(owner := SawLink(s.owner.stack, s.link[s.owner.stack]))
    case ExchangeHead(spurious) =>
      if s.head == Some(s.owner.stack) && !spurious
      then s.(owner := Popped(s.owner.stack), head := s.owner.next, list := if s.list == [] then [] else s.list[1..])
      else s.(owner := Ready)
    case Uncount =>
      if s.mode.Draining? then s.(owner := Releasing(s.owner.stack), len := s.len - 1)
      else s.(owner := Ready, len := s.len - 1, inUse := s.inUse + {s.owner.stack})
    case Release => s.(owner := Ready, live := s.live - {s.owner.stack})
    case Enable => s.(mode := Enabled, len := s.len - MAX_STACK_CACHE_LIMIT)
    case Disable => s.(mode := Draining, len := s.len + MAX_STACK_CACHE_LIMIT)
    case ReadLen => if s.len > MAX_STACK_CACHE_LIMIT then s.(owner := SawLen) else s.(mode := Disabled)
  }

  ghost predicate Run(t: seq<State>, acts: seq<Action>) {
    && |t| == |acts| + 1 && Init(t[0])
    && forall i {:trigger acts[i]} :: 0 <= i < |acts| ==> CanAct(t[i], acts[i]) && t[i + 1] == Act(t[i], acts[i])
  }

  /** No limit read is above the bias; the runtime asks for that, but does not check its parameter. */
  ghost predicate WithinBias(acts: seq<Action>) {
    forall i :: 0 <= i < |acts| && acts[i].Ask? ==> acts[i].limit <= MAX_STACK_CACHE_LIMIT
  }

  // ----- Invariants ----------------------------------------------------------

  ghost function First(list: seq<Stack>): Option<Stack> {
    if list == [] then None else Some(list[0])
  }

  /** The links in memory spell out the ideal list. */
  ghost predicate Spells(link: map<Stack, Option<Stack>>, list: seq<Stack>) {
    forall i :: 0 <= i < |list| ==> list[i] in link && link[list[i]] == First(list[i + 1..])
  }

  predicate Counted(p: Pusher) {
    p.Reserved? || p.Linking? || p.Refused?
  }

  predicate Committed(p: Pusher) {
    p.Reserved? || p.Linking?
  }

  ghost function CountedBy(ps: map<Domain, Pusher>): set<Domain> {
    set d | d in ps && Counted(ps[d])
  }

  ghost function CommittedBy(ps: map<Domain, Pusher>): set<Domain> {
    set d | d in ps && Committed(ps[d])
  }

  ghost function Bias(m: Mode): nat {
    if m.Enabled? then 0 else MAX_STACK_CACHE_LIMIT
  }

  ghost predicate CounterRight(s: State) {
    s.len == Bias(s.mode) + |s.list| + |CountedBy(s.pushers)| + if s.owner.Popped? then 1 else 0
  }

  /** What the owner holds outside the list. */
  ghost function OwnerHolds(o: Owner): set<Stack> {
    if o.Popped? || o.Releasing? then {o.stack} else {}
  }

  ghost function Listed(list: seq<Stack>): set<Stack> {
    set x | x in list
  }

  ghost predicate DistinctList(list: seq<Stack>) {
    forall i, j :: 0 <= i < j < |list| ==> list[i] != list[j]
  }

  ghost function PushersHold(ps: map<Domain, Pusher>): set<Stack> {
    set d | d in ps && !ps[d].Away? :: ps[d].stack
  }

  /** No two domains push the same stack. */
  ghost predicate OwnStacks(ps: map<Domain, Pusher>) {
    forall d, e :: d in ps && e in ps && d != e && !ps[d].Away? && !ps[e].Away? ==> ps[d].stack != ps[e].stack
  }

  /** Every live stack is in exactly one place. */
  ghost predicate Accounted(s: State) {
    && OwnStacks(s.pushers) && DistinctList(s.list)
    && s.inUse !! Listed(s.list) && s.inUse !! PushersHold(s.pushers) && s.inUse !! OwnerHolds(s.owner)
    && Listed(s.list) !! PushersHold(s.pushers) && Listed(s.list) !! OwnerHolds(s.owner)
    && PushersHold(s.pushers) !! OwnerHolds(s.owner)
    && s.live == s.inUse + Listed(s.list) + PushersHold(s.pushers) + OwnerHolds(s.owner)
  }

  /** What the owner has read is still true: nobody else takes stacks off the list. */
  ghost predicate OwnerKnows(s: State) {
    match s.owner
    case SawHead(x) => x in s.list
    case SawLink(x, next) => x in s.list && x in s.link && s.link[x] == next
    case _ => true
  }

  ghost predicate LinksSet(s: State) {
    forall d :: d in s.pushers && s.pushers[d].Linking? ==>
      s.pushers[d].stack in s.link && s.link[s.pushers[d].stack] == s.pushers[d].top
  }

  ghost predicate Bounded(s: State) {
    |s.list| + |CommittedBy(s.pushers)| <= s.highest
  }

  ghost predicate OwnerFits(s: State) {
    s.owner.SawLen? || s.owner.Releasing? ==> s.mode.Draining?
  }

  /** What holds whatever the limits are. */
  ghost predicate Inv(s: State) {
    && s.head == First(s.list) && Spells(s.link, s.list)
    && CounterRight(s) && Accounted(s) && OwnerKnows(s) && LinksSet(s) && Bounded(s) && OwnerFits(s)
  }

  ghost predicate Quiet(s: State) {
    s.mode.Disabled? ==> s.list == [] && CommittedBy(s.pushers) == {} && s.owner.Ready?
  }

  /** What holds beside it while no limit is above the bias. */
  ghost predicate Tame(s: State) {
    && Quiet(s) && s.highest <= MAX_STACK_CACHE_LIMIT
    && forall d :: d in s.pushers && s.pushers[d].Asking? ==> s.pushers[d].limit <= MAX_STACK_CACHE_LIMIT
  }

  // ----- Every step keeps them -----------------------------------------------

  lemma SizeBut(a: set<Domain>, b: set<Domain>, d: Domain)
    requires a - {d} == b - {d}
    ensures |b| == |a| + (if d in b then 1 else 0) - (if d in a then 1 else 0)
  {
    assert a == (a - {d}) + if d in a then {d} else {};
    assert b == (b - {d}) + if d in b then {d} else {};
  }

  lemma CountersAfter(ps: map<Domain, Pusher>, d: Domain, p: Pusher)
    requires d in ps
    ensures var ps' := ps[d := p];
      && |CountedBy(ps')| == |CountedBy(ps)| + (if Counted(p) then 1 else 0) - (if Counted(ps[d]) then 1 else 0)
      && |CommittedBy(ps')| == |CommittedBy(ps)| + (if Committed(p) then 1 else 0) - (if Committed(ps[d]) then 1 else 0)
  {
    var ps' := ps[d := p];
    assert CountedBy(ps) - {d} == CountedBy(ps') - {d};
    assert CommittedBy(ps) - {d} == CommittedBy(ps') - {d};
    SizeBut(CountedBy(ps), CountedBy(ps'), d);
    SizeBut(CommittedBy(ps), CommittedBy(ps'), d);
  }

  lemma CommittedAreCounted(ps: map<Domain, Pusher>)
    ensures |CommittedBy(ps)| <= |CountedBy(ps)|
  {
    assert CommittedBy(ps) <= CountedBy(ps);
    assert |CountedBy(ps)| == |CommittedBy(ps)| + |CountedBy(ps) - CommittedBy(ps)|;
  }

  /** A domain moves on with the stack it holds. */
  lemma HoldsOn(ps: map<Domain, Pusher>, d: Domain, p: Pusher)
    requires d in ps && OwnStacks(ps) && !ps[d].Away? && !p.Away? && p.stack == ps[d].stack
    ensures OwnStacks(ps[d := p]) && PushersHold(ps[d := p]) == PushersHold(ps)
  {
    var ps' := ps[d := p];
    forall x | x in PushersHold(ps) ensures x in PushersHold(ps') {
      var e :| e in ps && !ps[e].Away? && ps[e].stack == x;
      assert e in ps' && !ps'[e].Away? && ps'[e].stack == x;
    }
    forall x | x in PushersHold(ps') ensures x in PushersHold(ps) {
      var e :| e in ps' && !ps'[e].Away? && ps'[e].stack == x;
      assert e in ps && !ps[e].Away? && ps[e].stack == x;
    }
  }

  lemma LetsGo(ps: map<Domain, Pusher>, d: Domain)
    requires d in ps && OwnStacks(ps) && !ps[d].Away?
    ensures ps[d].stack in PushersHold(ps)
    ensures OwnStacks(ps[d := Away]) && PushersHold(ps[d := Away]) == PushersHold(ps) - {ps[d].stack}
  {
    var ps' := ps[d := Away];
    forall x | x in PushersHold(ps) && x != ps[d].stack ensures x in PushersHold(ps') {
      var e :| e in ps && !ps[e].Away? && ps[e].stack == x;
      assert e in ps' && !ps'[e].Away? && ps'[e].stack == x;
    }
    forall x | x in PushersHold(ps') ensures x in PushersHold(ps) && x != ps[d].stack {
      var e :| e in ps' && !ps'[e].Away? && ps'[e].stack == x;
      assert e in ps && !ps[e].Away? && ps[e].stack == x;
    }
  }

  lemma TakesUp(ps: map<Domain, Pusher>, d: Domain, p: Pusher)
    requires d in ps && OwnStacks(ps) && ps[d].Away? && !p.Away? && p.stack !in PushersHold(ps)
    ensures OwnStacks(ps[d := p]) && PushersHold(ps[d := p]) == PushersHold(ps) + {p.stack}
  {
    var ps' := ps[d := p];
    forall x | x in PushersHold(ps) ensures x in PushersHold(ps') {
      var e :| e in ps && !ps[e].Away? && ps[e].stack == x;
      assert e in ps' && !ps'[e].Away? && ps'[e].stack == x;
    }
    assert !ps'[d].Away? && ps'[d].stack == p.stack;
    forall e | e in ps && e != d && !ps[e].Away? ensures ps[e].stack != p.stack {
      assert ps[e].stack in PushersHold(ps);
    }
    forall x | x in PushersHold(ps') ensures x in PushersHold(ps) + {p.stack} {
      var e :| e in ps' && !ps'[e].Away? && ps'[e].stack == x;
      if e != d { assert e in ps && !ps[e].Away? && ps[e].stack == x; }
    }
  }

  /** `s'` differs from `s` in where the pusher `d` stands, in the counter and in the links of stacks it holds. */
  ghost predicate PusherMoves(s: State, s': State, d: Domain) {
    && d in s.pushers && d in s'.pushers && s'.pushers == s.pushers[d := s'.pushers[d]]
    && !s.pushers[d].Away? && !s'.pushers[d].Away? && s'.pushers[d].stack == s.pushers[d].stack
    && s'.head == s.head && s'.owner == s.owner && s'.mode == s.mode
    && s'.inUse == s.inUse && s'.list == s.list && s'.live == s.live
  }

  lemma BooksKept(s: State, s': State, d: Domain)
    requires PusherMoves(s, s', d) && Accounted(s)
    ensures Accounted(s') && s.pushers[d].stack !in s.list
  {
    HoldsOn(s.pushers, d, s'.pushers[d]);
    assert s.pushers[d].stack in PushersHold(s.pushers);
    assert s.pushers[d].stack !in Listed(s.list);
  }

  lemma CountKept(s: State, s': State, d: Domain)
    requires CounterRight(s) && d in s.pushers && d in s'.pushers && s'.pushers == s.pushers[d := s'.pushers[d]]
    requires s'.mode == s.mode && s'.owner == s.owner
    requires s'.len - s.len == |s'.list| - |s.list|
      + (if Counted(s'.pushers[d]) then 1 else 0) - (if Counted(s.pushers[d]) then 1 else 0)
    ensures CounterRight(s')
  {
    CountersAfter(s.pushers, d, s'.pushers[d]);
  }

  lemma BoundKept(s: State, s': State, d: Domain)
    requires Bounded(s) && d in s.pushers && d in s'.pushers && s'.pushers == s.pushers[d := s'.pushers[d]]
    requires s'.highest == s.highest && (Committed(s'.pushers[d]) ==> Committed(s.pushers[d]))
    requires s'.list == s.list || (|s'.list| == |s.list| + 1 && Committed(s.pushers[d]) && !Committed(s'.pushers[d]))
    ensures Bounded(s')
  {
    CountersAfter(s.pushers, d, s'.pushers[d]);
  }

  ghost predicate Chain(s: State) {
    s.head == First(s.list) && Spells(s.link, s.list)
  }

  lemma LinksKept(s: State, s': State, d: Domain)
    requires LinksSet(s) && d in s.pushers && d in s'.pushers && s'.pushers == s.pushers[d := s'.pushers[d]] && s'.link == s.link
    requires !s'.pushers[d].Linking?
    ensures LinksSet(s')
  {
  }

  lemma StepReserve(s: State, d: Domain)
    requires Inv(s) && CanAct(s, Reserve(d))
    ensures Inv(Act(s, Reserve(d)))
  {
    hide CounterRight, Accounted, OwnerKnows, LinksSet, Bounded, OwnerFits, Spells, First;
    var s' := Act(s, Reserve(d));
    BooksKept(s, s', d);
    CountKept(s, s', d);
    LinksKept(s, s', d);
    ReserveBound(s, s', d);
    OwnerUnmoved(s, s');
  }

  /** Whoever is let in keeps below its limit, and is let in while the cache is disabled only if that is above the bias. */
  lemma ReserveBound(s: State, s': State, d: Domain)
    requires CanAct(s, Reserve(d)) && s' == Act(s, Reserve(d)) && CounterRight(s) && Bounded(s)
    ensures Bounded(s')
    ensures Committed(s'.pushers[d]) ==> |s'.list| + |CommittedBy(s'.pushers)| <= s.pushers[d].limit
    ensures Committed(s'.pushers[d]) && !s.mode.Enabled? ==> s.pushers[d].limit > MAX_STACK_CACHE_LIMIT
  {
    CountersAfter(s.pushers, d, s'.pushers[d]);
    CommittedAreCounted(s.pushers);
  }

  lemma OwnerUnmoved(s: State, s': State)
    requires OwnerKnows(s) && OwnerFits(s) && s'.owner == s.owner && s'.list == s.list && s'.link == s.link && s'.mode == s.mode
    ensures OwnerKnows(s') && OwnerFits(s')
  {
  }

  lemma StepTakeBack(s: State, d: Domain)
    requires Inv(s) && CanAct(s, TakeBack(d))
    ensures Inv(Act(s, TakeBack(d)))
  {
    hide CounterRight, Accounted, OwnerKnows, LinksSet, Bounded, OwnerFits, Spells, First;
    var s' := Act(s, TakeBack(d));
    BooksKept(s, s', d);
    CountKept(s, s', d);
    LinksKept(s, s', d);
    BoundKept(s, s', d);
    OwnerUnmoved(s, s');
  }

  lemma StepSetLink(s: State, d: Domain)
    requires Inv(s) && CanAct(s, SetLink(d))
    ensures Inv(Act(s, SetLink(d)))
  {
    hide CounterRight, Accounted, OwnerKnows, LinksSet, Bounded, OwnerFits, Spells, First;
    var s' := Act(s, SetLink(d));
    BooksKept(s, s', d);
    CountKept(s, s', d);
    BoundKept(s, s', d);
    LinkSet(s, s', d);
  }

  /** Setting the link of a stack outside the list disturbs nobody. */
  lemma LinkSet(s: State, s': State, d: Domain)
    requires CanAct(s, SetLink(d)) && s' == Act(s, SetLink(d)) && s.pushers[d].stack !in s.list
    requires LinksSet(s) && Spells(s.link, s.list) && OwnerKnows(s) && OwnerFits(s) && Accounted(s)
    ensures LinksSet(s') && Spells(s'.link, s'.list) && OwnerKnows(s') && OwnerFits(s')
  {
  }

  lemma StepExchange(s: State, d: Domain, spurious: bool)
    requires Inv(s) && CanAct(s, Exchange(d, spurious))
    ensures Inv(Act(s, Exchange(d, spurious)))
  {
    hide CounterRight, Accounted, OwnerKnows, LinksSet, Bounded, OwnerFits, Spells, First;
    var s' := Act(s, Exchange(d, spurious));
    CountKept(s, s', d);
    BoundKept(s, s', d);
    LinksKept(s, s', d);
    if s.head == s.pushers[d].top && !spurious {
      BooksPushed(s, s', d);
      ListPushed(s, s', d);
    } else {
      BooksKept(s, s', d);
      OwnerUnmoved(s, s');
    }
  }

  lemma BooksPushed(s: State, s': State, d: Domain)
    requires Accounted(s) && d in s.pushers && !s.pushers[d].Away? && s'.pushers == s.pushers[d := Away]
    requires s'.list == [s.pushers[d].stack] + s.list && s'.owner == s.owner && s'.inUse == s.inUse && s'.live == s.live
    ensures Accounted(s')
  {
    LetsGo(s.pushers, d);
    var x := s.pushers[d].stack;
    assert Listed(s'.list) == Listed(s.list) + {x};
    assert x !in Listed(s.list);
  }

  lemma ListPushed(s: State, s': State, d: Domain)
    requires d in s.pushers && s.pushers[d].Linking? && s.head == s.pushers[d].top && Chain(s)
    requires LinksSet(s) && OwnerKnows(s) && OwnerFits(s)
    requires s'.list == [s.pushers[d].stack] + s.list && s'.owner == s.owner && s'.link == s.link && s'.mode == s.mode
    requires s'.head == Some(s.pushers[d].stack)
    ensures Chain(s') && OwnerKnows(s') && OwnerFits(s')
  {
    var list' := s'.list;
    forall i | 0 <= i < |list'| ensures list'[i] in s.link && s.link[list'[i]] == First(list'[i + 1..]) {
      if i == 0 { assert list'[1..] == s.list; } else { assert list'[i] == s.list[i - 1] && list'[i + 1..] == s.list[i..]; }
    }
  }

  lemma StepAsk(s: State, d: Domain, x: Stack, limit: nat)
    requires Inv(s) && CanAct(s, Ask(d, x, limit))
    ensures Inv(Act(s, Ask(d, x, limit)))
  {
    hide CounterRight, Accounted, OwnerKnows, LinksSet, Bounded, OwnerFits, Spells, First;
    var s' := Act(s, Ask(d, x, limit));
    CountKept(s, s', d);
    BoundKept(s, s', d);
    LinksKept(s, s', d);
    OwnerUnmoved(s, s');
    assert Accounted(s') by { BooksAsked(s, s', d, x); }
  }

  lemma BooksAsked(s: State, s': State, d: Domain, x: Stack)
    requires Accounted(s) && d in s.pushers && s.pushers[d].Away? && d in s'.pushers && !s'.pushers[d].Away?
    requires s'.pushers == s.pushers[d := s'.pushers[d]] && s'.pushers[d].stack == x && x in s.inUse
    requires s'.list == s.list && s'.owner == s.owner && s'.inUse == s.inUse - {x} && s'.live == s.live
    ensures Accounted(s')
  {
    TakesUp(s.pushers, d, s'.pushers[d]);
    hide PushersHold, Listed, OwnerHolds, OwnStacks, DistinctList;
  }

  lemma StepDrop(s: State, d: Domain)
    requires Inv(s) && CanAct(s, Drop(d))
    ensures Inv(Act(s, Drop(d)))
  {
    hide CounterRight, Accounted, OwnerKnows, LinksSet, Bounded, OwnerFits, Spells, First;
    var s' := Act(s, Drop(d));
    CountKept(s, s', d);
    BoundKept(s, s', d);
    LinksKept(s, s', d);
    OwnerUnmoved(s, s');
    BooksDropped(s, s', d);
  }

  lemma BooksDropped(s: State, s': State, d: Domain)
    requires Accounted(s) && d in s.pushers && !s.pushers[d].Away? && s'.pushers == s.pushers[d := Away]
    requires s'.list == s.list && s'.owner == s.owner && s'.inUse == s.inUse && s'.live == s.live - {s.pushers[d].stack}
    ensures Accounted(s')
  {
    LetsGo(s.pushers, d);
    hide PushersHold, Listed, OwnerHolds, OwnStacks, DistinctList;
  }

  // ----- Steps of the owner --------------------------------------------------

  /** `s'` differs from `s` in what the owner has read. */
  ghost predicate OwnerReads(s: State, s': State) {
    && s' == s.(owner := s'.owner)
    && !s.owner.Popped? && !s.owner.Releasing? && !s'.owner.Popped? && !s'.owner.Releasing?
  }

  lemma OwnerReading(s: State, s': State)
    requires Inv(s) && OwnerReads(s, s') && OwnerKnows(s') && OwnerFits(s')
    ensures Inv(s')
  {
    hide Spells, First, CountedBy, CommittedBy, PushersHold, Listed, OwnStacks, DistinctList;
  }

  lemma StepReadHead(s: State)
    requires Inv(s) && CanAct(s, ReadHead)
    ensures Inv(Act(s, ReadHead))
  {
    hide CounterRight, Accounted, LinksSet, Bounded, Spells;
    var s' := Act(s, ReadHead);
    OwnerReading(s, s');
  }

  lemma StepReadLink(s: State)
    requires Inv(s) && CanAct(s, ReadLink)
    ensures Inv(Act(s, ReadLink))
  {
    hide CounterRight, Accounted, LinksSet, Bounded, Spells, First;
    var s' := Act(s, ReadLink);
    OwnerReading(s, s');
  }

  lemma StepAllocFresh(s: State, x: Stack)
    requires Inv(s) && CanAct(s, AllocFresh(x))
    ensures Inv(Act(s, AllocFresh(x)))
  {
    hide CountedBy, CommittedBy, PushersHold, Listed, OwnStacks, DistinctList, Spells, First, OwnerHolds;
  }

  /** Nobody else pops, so the link the owner read is that of the top: no ABA. */
  lemma ExchangeTakesTop(s: State)
    requires Chain(s) && OwnerKnows(s) && s.owner.SawLink? && s.head == Some(s.owner.stack)
    ensures s.list != [] && s.list[0] == s.owner.stack && s.owner.next == First(s.list[1..])
    ensures Spells(s.link, s.list[1..])
  {
    var rest := s.list[1..];
    forall i | 0 <= i < |rest| ensures rest[i] in s.link && s.link[rest[i]] == First(rest[i + 1..]) {
      assert rest[i] == s.list[i + 1] && rest[i + 1..] == s.list[i + 2..];
    }
  }

  lemma ListedTells(list: seq<Stack>, x: Stack)
    ensures x in Listed(list) <==> x in list
  {
  }

  lemma BooksPopped(s: State, s': State)
    requires Accounted(s) && s.list != [] && s.owner.SawLink? && s.owner.stack == s.list[0]
    requires s'.list == s.list[1..] && s'.owner == Popped(s.owner.stack)
    requires s'.pushers == s.pushers && s'.inUse == s.inUse && s'.live == s.live
    ensures Accounted(s')
  {
    var x := s.list[0];
    assert Listed(s.list) == Listed(s'.list) + {x};
    assert x in Listed(s.list);
    forall i | 0 <= i < |s'.list| ensures s'.list[i] != x { assert s'.list[i] == s.list[i + 1]; }
    hide PushersHold, OwnStacks;
  }

  lemma StepExchangeHead(s: State, spurious: bool)
    requires Inv(s) && CanAct(s, ExchangeHead(spurious))
    ensures Inv(Act(s, ExchangeHead(spurious)))
  {
    hide CounterRight, Accounted, OwnerKnows, LinksSet, Bounded, OwnerFits, Spells, First;
    var s' := Act(s, ExchangeHead(spurious));
    if s.head == Some(s.owner.stack) && !spurious {
      ExchangeTakesTop(s);
      BooksPopped(s, s');
      ListPopped(s, s');
    } else {
      StopsReading(s, s');
      OwnerReading(s, s');
    }
  }

  lemma StopsReading(s: State, s': State)
    requires OwnerReads(s, s') && s'.owner.Ready?
    ensures OwnerKnows(s') && OwnerFits(s')
  {
  }

  lemma ListPopped(s: State, s': State)
    requires CounterRight(s) && Bounded(s) && LinksSet(s) && s.owner.SawLink? && s.list != []
    requires s' == s.(owner := Popped(s.owner.stack), head := s.owner.next, list := s.list[1..])
    ensures CounterRight(s') && Bounded(s') && LinksSet(s') && OwnerKnows(s') && OwnerFits(s')
  {
    hide CountedBy, CommittedBy;
  }

  lemma BooksReturned(s: State, s': State)
    requires Accounted(s) && s.owner.Popped? && s'.pushers == s.pushers && s'.list == s.list && s'.live == s.live
    requires (s'.owner == Releasing(s.owner.stack) && s'.inUse == s.inUse)
      || (s'.owner.Ready? && s'.inUse == s.inUse + {s.owner.stack})
    ensures Accounted(s')
  {
    hide PushersHold, Listed, OwnStacks, DistinctList;
  }

  lemma StepUncount(s: State)
    requires Inv(s) && CanAct(s, Uncount)
    ensures Inv(Act(s, Uncount))
  {
    hide CountedBy, CommittedBy, Accounted, Spells, First;
    var s' := Act(s, Uncount);
    BooksReturned(s, s');
  }

  lemma StepRelease(s: State)
    requires Inv(s) && CanAct(s, Release)
    ensures Inv(Act(s, Release))
  {
    hide CountedBy, CommittedBy, PushersHold, Listed, OwnStacks, DistinctList, Spells, First;
  }

  lemma BooksSame(s: State, s': State)
    requires Accounted(s) && s'.pushers == s.pushers && s'.list == s.list && s'.inUse == s.inUse && s'.live == s.live
    requires OwnerHolds(s'.owner) == OwnerHolds(s.owner)
    ensures Accounted(s')
  {
  }

  lemma NoneLeft(ps: map<Domain, Pusher>)
    ensures |CountedBy(ps)| == 0 ==> CommittedBy(ps) == {}
  {
    assert CommittedBy(ps) <= CountedBy(ps);
  }

  lemma StepEnable(s: State)
    requires Inv(s) && CanAct(s, Enable)
    ensures Inv(Act(s, Enable))
  {
    hide CountedBy, CommittedBy, Accounted, Spells, First;
    BooksSame(s, Act(s, Enable));
  }

  lemma StepDisable(s: State)
    requires Inv(s) && CanAct(s, Disable)
    ensures Inv(Act(s, Disable))
  {
    hide CountedBy, CommittedBy, Accounted, Spells, First;
    BooksSame(s, Act(s, Disable));
  }

  lemma StepReadLen(s: State)
    requires Inv(s) && CanAct(s, ReadLen)
    ensures Inv(Act(s, ReadLen))
  {
    hide CountedBy, CommittedBy, Accounted, Spells, First;
    BooksSame(s, Act(s, ReadLen));
  }

  /** Draining ends only when nothing is listed and nothing is reserved. */
  lemma Drained(s: State)
    requires Inv(s) && CanAct(s, ReadLen) && s.len <= MAX_STACK_CACHE_LIMIT
    ensures s.list == [] && CountedBy(s.pushers) == {} == CommittedBy(s.pushers) && s.head == None
  {
    hide Accounted, Spells;
    NoneLeft(s.pushers);
    assert |CountedBy(s.pushers)| == 0;
  }

  // ----- Limits within the bias ----------------------------------------------

  lemma CommittedLess(ps: map<Domain, Pusher>, d: Domain, p: Pusher)
    requires d in ps && CommittedBy(ps) == {} && !Committed(p)
    ensures CommittedBy(ps[d := p]) == {}
  {
    forall e | e in ps ensures !Committed(ps[e]) { NobodyCommitted(ps); }
  }

  lemma PusherTame(s: State, a: Action)
    requires Inv(s) && Tame(s) && CanAct(s, a) && IsPusherAction(a) && (a.Ask? ==> a.limit <= MAX_STACK_CACHE_LIMIT)
    ensures Tame(Act(s, a))
  {
    hide CommittedBy, Accounted, Spells, LinksSet, OwnerKnows, First;
    var s', d := Act(s, a), a.d;
    if a.Reserve? { ReserveBound(s, s', d); }
    if s.mode.Disabled? {
      NobodyCommitted(s.pushers);
      CommittedLess(s.pushers, d, s'.pushers[d]);
    }
  }

  lemma OwnerTame(s: State, a: Action)
    requires Inv(s) && Tame(s) && CanAct(s, a) && !IsPusherAction(a)
    ensures Tame(Act(s, a))
  {
    hide CommittedBy, Accounted, Spells, LinksSet, OwnerKnows;
    if a.ReadLen? && s.len <= MAX_STACK_CACHE_LIMIT { Drained(s); }
  }

  // ----- Results -------------------------------------------------------------

  predicate IsPusherAction(a: Action) {
    a.Ask? || a.Reserve? || a.TakeBack? || a.Drop? || a.SetLink? || a.Exchange?
  }

  lemma StepPusher(s: State, a: Action)
    requires Inv(s) && CanAct(s, a) && IsPusherAction(a)
    ensures Inv(Act(s, a))
  {
    hide Inv;
    if a.Ask? { StepAsk(s, a.d, a.x, a.limit); }
    else if a.Reserve? { StepReserve(s, a.d); }
    else if a.TakeBack? { StepTakeBack(s, a.d); }
    else if a.Drop? { StepDrop(s, a.d); }
    else if a.SetLink? { StepSetLink(s, a.d); }
    else { StepExchange(s, a.d, a.spurious); }
  }

  lemma StepInv(s: State, a: Action)
    requires Inv(s) && CanAct(s, a)
    ensures Inv(Act(s, a))
  {
    hide Inv;
    if IsPusherAction(a) { StepPusher(s, a); }
    else if a.ReadHead? { StepReadHead(s); }
    else if a.AllocFresh? { StepAllocFresh(s, a.x); }
    else if a.ReadLink? { StepReadLink(s); }
    else if a.ExchangeHead? { StepExchangeHead(s, a.spurious); }
    else if a.Uncount? { StepUncount(s); }
    else if a.Release? { StepRelease(s); }
    else if a.Enable? { StepEnable(s); }
    else if a.Disable? { StepDisable(s); }
    else { StepReadLen(s); }
  }

  lemma InitInv(s: State)
    requires Init(s)
    ensures Inv(s) && Tame(s)
  {
    assert CountedBy(s.pushers) == {} && CommittedBy(s.pushers) == {} && PushersHold(s.pushers) == {};
  }

  lemma {:induction false} RunInv(t: seq<State>, acts: seq<Action>, i: nat)
    requires Run(t, acts) && i < |t|
    ensures Inv(t[i])
  {
    hide Inv, CanAct, Act, Init;
    if i == 0 {
      InitInv(t[0]);
    } else {
      RunInv(t, acts, i - 1);
      StepInv(t[i - 1], acts[i - 1]);
    }
  }

  /** The counter is the cached stacks, the reservations in flight and the bias, whoever is in between. */
  lemma CounterTellsTheTruth(t: seq<State>, acts: seq<Action>, i: nat)
    requires Run(t, acts) && i < |t|
    ensures t[i].len == Bias(t[i].mode) + |t[i].list| + |CountedBy(t[i].pushers)| + if t[i].owner.Popped? then 1 else 0
    ensures |t[i].list| + |CommittedBy(t[i].pushers)| <= t[i].highest
  {
    RunInv(t, acts, i);
  }

  /** The list in memory is the ideal list, and the owner's exchange takes exactly its top off. */
  lemma PopIsExact(t: seq<State>, acts: seq<Action>, i: nat)
    requires Run(t, acts) && i < |acts| && acts[i] == ExchangeHead(false)
    requires t[i].head == Some(t[i].owner.stack)
    ensures t[i].list != [] && t[i].owner.stack == t[i].list[0]
    ensures t[i + 1].list == t[i].list[1..] && t[i + 1].head == First(t[i].list[1..]) && Spells(t[i + 1].link, t[i + 1].list)
  {
    RunInv(t, acts, i);
    ExchangeTakesTop(t[i]);
  }

  /** Memory is freed only while it is live and nobody else has it, and every live stack has a place. */
  lemma FreedOnce(t: seq<State>, acts: seq<Action>, i: nat, x: Stack)
    requires Run(t, acts) && i < |acts|
    requires (acts[i].Drop? && x == t[i].pushers[acts[i].d].stack) || (acts[i].Release? && x == t[i].owner.stack)
    ensures x in t[i].live && x !in t[i].inUse && x !in t[i].list
    ensures t[i + 1].live == t[i + 1].inUse + Listed(t[i + 1].list) + PushersHold(t[i + 1].pushers) + OwnerHolds(t[i + 1].owner)
    ensures x !in t[i + 1].live && x !in PushersHold(t[i + 1].pushers) && x !in OwnerHolds(t[i + 1].owner)
  {
    RunInv(t, acts, i);
    RunInv(t, acts, i + 1);
    hide CounterRight, OwnerKnows, LinksSet, Bounded, OwnerFits, Spells, First;
    if acts[i].Drop? { LetsGo(t[i].pushers, acts[i].d); } else { assert x in OwnerHolds(t[i].owner); }
    ListedTells(t[i].list, x);
  }

  lemma {:induction false} RunTame(t: seq<State>, acts: seq<Action>, i: nat)
    requires Run(t, acts) && WithinBias(acts) && i < |t|
    ensures Inv(t[i]) && Tame(t[i])
  {
    RunInv(t, acts, i);
    hide Inv, CanAct, Act, Init, Tame;
    if i == 0 {
      InitInv(t[0]);
    } else {
      RunTame(t, acts, i - 1);
      if IsPusherAction(acts[i - 1]) { PusherTame(t[i - 1], acts[i - 1]); } else { OwnerTame(t[i - 1], acts[i - 1]); }
    }
  }

  /**
  With limits within the bias, a disabled cache is empty and nobody is going to push: the
  assertions of enabling and disabling hold.
  */
  lemma DisabledIsEmpty(t: seq<State>, acts: seq<Action>, i: nat)
    requires Run(t, acts) && WithinBias(acts) && i < |t| && t[i].mode.Disabled?
    ensures t[i].head == None && t[i].len >= MAX_STACK_CACHE_LIMIT
    ensures forall d :: d in t[i].pushers ==> !Committed(t[i].pushers[d])
  {
    RunTame(t, acts, i);
    NobodyCommitted(t[i].pushers);
  }

  lemma NobodyCommitted(ps: map<Domain, Pusher>)
    requires CommittedBy(ps) == {}
    ensures forall d :: d in ps ==> !Committed(ps[d])
  {
    forall d | d in ps ensures !Committed(ps[d]) { assert d !in CommittedBy(ps); }
  }

  /** A quiet disabled cache lets a pusher in exactly when its limit is above the bias. */
  lemma LimitAboveBias(s: State, d: Domain)
    requires CounterRight(s) && s.mode.Disabled? && s.owner.Ready? && s.list == [] && CountedBy(s.pushers) == {}
    requires d in s.pushers && s.pushers[d].Asking?
    ensures Committed(Act(s, Reserve(d)).pushers[d]) <==> s.pushers[d].limit > MAX_STACK_CACHE_LIMIT
    ensures Quiet(s) && (Quiet(Act(s, Reserve(d))) <==> s.pushers[d].limit <= MAX_STACK_CACHE_LIMIT)
  {
    var s' := Act(s, Reserve(d));
    NoneLeft(s.pushers);
    if Committed(s'.pushers[d]) {
      assert d in CommittedBy(s'.pushers);
    } else {
      assert CommittedBy(s'.pushers) == CommittedBy(s.pushers);
    }
  }

  ghost predicate IsPush(acts: seq<Action>, d: Domain, x: Stack, limit: nat) {
    acts == [Ask(d, x, limit), Reserve(d), SetLink(d), Exchange(d, false)]
  }

  /**
  Every limit above the bias fails so: from every start there is a run that ends with a
  stack listed in a cache that was never enabled.
  */
  lemma PushWhileDisabled(s: State, d: Domain, x: Stack, limit: nat) returns (t: seq<State>, acts: seq<Action>)
    requires Init(s) && d in s.pushers && x in s.inUse && limit > MAX_STACK_CACHE_LIMIT
    ensures IsPush(acts, d, x, limit) && Run(t, acts) && t[0] == s
    ensures d in t[2].pushers && Committed(t[2].pushers[d]) && t[2].mode.Disabled?
    ensures t[4].mode.Disabled? && t[4].head == Some(x) && t[4].list == [x]
  {
    acts := [Ask(d, x, limit), Reserve(d), SetLink(d), Exchange(d, false)];
    var s1 := Act(s, acts[0]);
    var s2 := Act(s1, acts[1]);
    var s3 := Act(s2, acts[2]);
    t := [s, s1, s2, s3, Act(s3, acts[3])];
  }

  /** A stack taken from the cache or from memory was in nobody's use. */
  lemma HandedOutOnce(t: seq<State>, acts: seq<Action>, i: nat, x: Stack)
    requires Run(t, acts) && i < |acts| && x in t[i + 1].inUse && x !in t[i].inUse
    ensures (acts[i] == AllocFresh(x) && x !in t[i].live) || (acts[i].Uncount? && t[i].owner == Popped(x))
    ensures x !in t[i].list && x !in PushersHold(t[i].pushers)
  {
    RunInv(t, acts, i);
    assert CanAct(t[i], acts[i]);
    hide Inv, CanAct, Act, Run;
    HandedOut(t[i], acts[i], x);
  }

  lemma HandedOut(s: State, a: Action, x: Stack)
    requires Inv(s) && CanAct(s, a) && x in Act(s, a).inUse && x !in s.inUse
    ensures (a == AllocFresh(x) && x !in s.live) || (a.Uncount? && s.owner == Popped(x))
    ensures x !in s.list && x !in PushersHold(s.pushers)
  {
    hide CounterRight, OwnerKnows, LinksSet, Bounded, OwnerFits, Spells, First, OwnStacks, DistinctList;
    ListedTells(s.list, x);
  }
}
