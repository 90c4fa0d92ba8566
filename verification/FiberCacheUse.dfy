/**
The cache of fiber stacks at work: what is freed below the limit is cached and handed out
again, what is above it is released, and draining empties the list.
*/
module FiberCacheUse {
  import opened Options
  import opened FiberStackCache

  /** The state after some actions, each of which must be possible. */
  ghost function After(s: State, acts: seq<Action>): Option<State>
    decreases |acts|
  {
    if acts == [] then Some(s)
    else if !CanAct(s, acts[0]) then None
    else After(Act(s, acts[0]), acts[1..])
  }

  lemma {:induction false} AfterJoin(s: State, a: seq<Action>, b: seq<Action>)
    requires After(s, a).Some?
    ensures After(s, a + b) == After(After(s, a).value, b)
    decreases |a|
  {
    hide CanAct, Act;
    if a == [] {
      assert a + b == b;
    } else {
      assert (a + b)[0] == a[0] && (a + b)[1..] == a[1..] + b;
      AfterJoin(Act(s, a[0]), a[1..], b);
    }
  }

  lemma FirstOf(s: State, a: Action, rest: seq<Action>)
    requires CanAct(s, a)
    ensures After(s, [a] + rest) == After(Act(s, a), rest)
  {
    assert ([a] + rest)[1..] == rest;
  }

  // ----- Freeing a stack -----------------------------------------------------

  /** Below the limit a freed stack comes to be the top of the list. */
  lemma FreedIsCached(s: State, d: Domain, x: Stack, limit: nat) returns (r: State)
    requires d in s.pushers && s.pushers[d].Away? && x in s.inUse && s.len < limit
    ensures After(s, [Ask(d, x, limit)] + ([Reserve(d)] + ([SetLink(d)] + ([Exchange(d, false)] + [])))) == Some(r)
    ensures r.list == [x] + s.list && r.head == Some(x) && r.len == s.len + 1 && r.live == s.live && r.inUse == s.inUse - {x}
  {
    var s1 := Act(s, Ask(d, x, limit));
    var s2 := Act(s1, Reserve(d));
    var s3 := Act(s2, SetLink(d));
    r := Act(s3, Exchange(d, false));
    FirstOf(s, Ask(d, x, limit), [Reserve(d)] + ([SetLink(d)] + ([Exchange(d, false)] + [])));
    FirstOf(s1, Reserve(d), [SetLink(d)] + ([Exchange(d, false)] + []));
    FirstOf(s2, SetLink(d), [Exchange(d, false)] + []);
    FirstOf(s3, Exchange(d, false), []);
  }

  /** At the limit its memory is released. */
  lemma FreedIsDropped(s: State, d: Domain, x: Stack, limit: nat) returns (r: State)
    requires d in s.pushers && s.pushers[d].Away? && x in s.inUse && s.len >= limit
    ensures After(s, [Ask(d, x, limit)] + ([Reserve(d)] + ([TakeBack(d)] + ([Drop(d)] + [])))) == Some(r)
    ensures r.list == s.list && r.head == s.head && r.len == s.len && r.live == s.live - {x} && r.inUse == s.inUse - {x}
  {
    var s1 := Act(s, Ask(d, x, limit));
    var s2 := Act(s1, Reserve(d));
    var s3 := Act(s2, TakeBack(d));
    r := Act(s3, Drop(d));
    FirstOf(s, Ask(d, x, limit), [Reserve(d)] + ([TakeBack(d)] + ([Drop(d)] + [])));
    FirstOf(s1, Reserve(d), [TakeBack(d)] + ([Drop(d)] + []));
    FirstOf(s2, TakeBack(d), [Drop(d)] + []);
    FirstOf(s3, Drop(d), []);
  }

  // ----- Allocating a stack --------------------------------------------------

  ghost predicate OwnerFree(s: State) {
    Inv(s) && s.owner.Ready? && !s.mode.Draining?
  }

  /** The owner, when it may read the head, takes the top off the list. */
  lemma TakesTop(s: State, rest: seq<Action>) returns (r: State)
    requires Inv(s) && CanAct(s, ReadHead) && s.list != []
    ensures After(s, [ReadHead] + ([ReadLink] + ([ExchangeHead(false)] + rest))) == After(r, rest)
    ensures r == s.(owner := Popped(s.list[0]), head := First(s.list[1..]), list := s.list[1..])
  {
    hide Accounted, CounterRight, LinksSet, Bounded, OwnerFits;
    var s1 := Act(s, ReadHead);
    var s2 := Act(s1, ReadLink);
    r := Act(s2, ExchangeHead(false));
    hide After;
    FirstOf(s, ReadHead, [ReadLink] + ([ExchangeHead(false)] + rest));
    FirstOf(s1, ReadLink, [ExchangeHead(false)] + rest);
    FirstOf(s2, ExchangeHead(false), rest);
  }

  /** A stack in the cache is handed out, the one cached last first. */
  lemma CachedIsUsed(s: State) returns (r: State)
    requires OwnerFree(s) && s.list != []
    ensures After(s, [ReadHead] + ([ReadLink] + ([ExchangeHead(false)] + ([Uncount] + [])))) == Some(r)
    ensures r.inUse == s.inUse + {s.list[0]} && r.list == s.list[1..] && r.len == s.len - 1 && r.live == s.live && r.owner.Ready?
  {
    MayRead(s);
    hide Inv, Act, CanAct, After;
    var s3 := TakesTop(s, [Uncount] + []);
    r := TakesIntoUse(s3);
  }

  lemma MayRead(s: State)
    requires OwnerFree(s)
    ensures CanAct(s, ReadHead)
  {
    hide Inv;
  }

  lemma TakesIntoUse(s: State) returns (r: State)
    requires s.owner.Popped? && !s.mode.Draining?
    ensures After(s, [Uncount] + []) == Some(r)
    ensures r == s.(owner := Ready, len := s.len - 1, inUse := s.inUse + {s.owner.stack})
  {
    r := Act(s, Uncount);
    FirstOf(s, Uncount, []);
  }

  /** New memory is asked for exactly when the cache is empty. */
  lemma FreshOnlyIfEmpty(s: State, x: Stack)
    requires OwnerFree(s) && x !in s.live
    ensures CanAct(s, AllocFresh(x)) <==> s.list == []
  {
    hide Accounted, CounterRight, LinksSet, Bounded, Spells;
  }

  /** What was freed last is handed out next. */
  lemma FreedThenUsed(s: State, d: Domain, x: Stack, limit: nat) returns (acts: seq<Action>, r: State)
    requires OwnerFree(s) && d in s.pushers && s.pushers[d].Away? && x in s.inUse && s.len < limit
    ensures After(s, acts) == Some(r)
    ensures r.inUse == s.inUse && r.list == s.list && r.len == s.len && r.live == s.live
  {
    hide Inv, Act;
    var s1 := FreedIsCached(s, d, x, limit);
    var first := [Ask(d, x, limit)] + ([Reserve(d)] + ([SetLink(d)] + ([Exchange(d, false)] + [])));
    AfterInv(s, first);
    KeepsOwner(s, d, x, limit);
    r := CachedIsUsed(s1);
    acts := first + ([ReadHead] + ([ReadLink] + ([ExchangeHead(false)] + ([Uncount] + []))));
    AfterJoin(s, first, [ReadHead] + ([ReadLink] + ([ExchangeHead(false)] + ([Uncount] + []))));
  }

  lemma {:induction false} AfterInv(s: State, acts: seq<Action>)
    requires Inv(s) && After(s, acts).Some?
    ensures Inv(After(s, acts).value)
    decreases |acts|
  {
    hide Inv, Act, CanAct;
    if acts != [] {
      StepInv(s, acts[0]);
      AfterInv(Act(s, acts[0]), acts[1..]);
    }
  }

  lemma {:induction false} PushersKeepOwner(s: State, acts: seq<Action>)
    requires After(s, acts).Some? && forall i :: 0 <= i < |acts| ==> IsPusherAction(acts[i])
    ensures After(s, acts).value.owner == s.owner && After(s, acts).value.mode == s.mode
    decreases |acts|
  {
    if acts != [] {
      assert IsPusherAction(acts[0]);
      PushersKeepOwner(Act(s, acts[0]), acts[1..]);
    }
  }

  lemma KeepsOwner(s: State, d: Domain, x: Stack, limit: nat)
    requires After(s, [Ask(d, x, limit)] + ([Reserve(d)] + ([SetLink(d)] + ([Exchange(d, false)] + [])))).Some?
    ensures var r := After(s, [Ask(d, x, limit)] + ([Reserve(d)] + ([SetLink(d)] + ([Exchange(d, false)] + [])))).value;
      r.owner == s.owner && r.mode == s.mode
  {
    hide After, Act, CanAct;
    PushersKeepOwner(s, [Ask(d, x, limit)] + ([Reserve(d)] + ([SetLink(d)] + ([Exchange(d, false)] + []))));
  }

  // ----- Draining ------------------------------------------------------------

  ghost predicate Draining(s: State) {
    Inv(s) && s.owner.Ready? && s.mode.Draining?
  }

  lemma DrainOne(s: State) returns (r: State)
    requires Draining(s) && s.list != []
    ensures After(s, [ReadLen] + ([ReadHead] + ([ReadLink] + ([ExchangeHead(false)] + ([Uncount] + ([Release] + [])))))) == Some(r)
    ensures r.list == s.list[1..] && r.live == s.live - {s.list[0]} && r.pushers == s.pushers && r.inUse == s.inUse && Draining(r)
  {
    var acts := [ReadLen] + ([ReadHead] + ([ReadLink] + ([ExchangeHead(false)] + ([Uncount] + ([Release] + [])))));
    var r1 := DrainSteps(s);
    r := r1;
    hide Act, CanAct, After;
    AfterInv(s, acts);
  }

  lemma DrainSteps(s: State) returns (r: State)
    requires Draining(s) && s.list != []
    ensures After(s, [ReadLen] + ([ReadHead] + ([ReadLink] + ([ExchangeHead(false)] + ([Uncount] + ([Release] + [])))))) == Some(r)
    ensures r.list == s.list[1..] && r.live == s.live - {s.list[0]} && r.pushers == s.pushers && r.inUse == s.inUse
    ensures r.owner.Ready? && r.mode.Draining?
  {
    var s1 := StacksRemain(s);
    hide Inv, Act, CanAct, After;
    FirstOf(s, ReadLen, [ReadHead] + ([ReadLink] + ([ExchangeHead(false)] + ([Uncount] + ([Release] + [])))));
    var s4 := TakesTop(s1, [Uncount] + ([Release] + []));
    r := Releases(s4);
  }

  lemma Releases(s: State) returns (r: State)
    requires s.owner.Popped? && s.mode.Draining?
    ensures After(s, [Uncount] + ([Release] + [])) == Some(r)
    ensures r == s.(owner := Ready, len := s.len - 1, live := s.live - {s.owner.stack})
  {
    var s1 := Act(s, Uncount);
    r := Act(s1, Release);
    FirstOf(s, Uncount, [Release] + []);
    FirstOf(s1, Release, []);
  }

  lemma NoMore(s: State)
    ensures After(s, []) == Some(s)
  {
  }

  lemma StacksRemain(s: State) returns (s1: State)
    requires Draining(s) && s.list != []
    ensures CanAct(s, ReadLen) && s1 == Act(s, ReadLen) == s.(owner := SawLen) && Inv(s1) && CanAct(s1, ReadHead)
  {
    hide Accounted, LinksSet, Bounded, Spells, CountedBy;
    StepInv(s, ReadLen);
    s1 := Act(s, ReadLen);
  }

  lemma NothingRemains(s: State)
    requires Draining(s) && s.list == [] && CountedBy(s.pushers) == {}
    ensures CanAct(s, ReadLen) && s.len <= MAX_STACK_CACHE_LIMIT
  {
    hide Accounted, LinksSet, Bounded, Spells, CountedBy;
  }

  /** With no push in flight, draining releases every cached stack and disables the cache. */
  lemma {:induction false} DrainAll(s: State) returns (acts: seq<Action>, r: State)
    requires Draining(s) && CountedBy(s.pushers) == {}
    ensures After(s, acts) == Some(r)
    ensures r.mode.Disabled? && r.list == [] && r.live == s.live - Listed(s.list) && r.inUse == s.inUse
    decreases |s.list|
  {
    hide Inv, CountedBy, After;
    if s.list == [] {
      NothingRemains(s);
      acts, r := [ReadLen] + [], Act(s, ReadLen);
      FirstOf(s, ReadLen, []);
      NoMore(r);
      assert Listed(s.list) == {};
    } else {
      hide Act, CanAct;
      var s1 := DrainOne(s);
      var rest;
      rest, r := DrainAll(s1);
      var first := [ReadLen] + ([ReadHead] + ([ReadLink] + ([ExchangeHead(false)] + ([Uncount] + ([Release] + [])))));
      acts := first + rest;
      AfterJoin(s, first, rest);
      assert Listed(s.list) == Listed(s1.list) + {s.list[0]};
    }
  }
}
