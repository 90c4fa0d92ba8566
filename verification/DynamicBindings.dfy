/**
Dynamic bindings: every fiber carries a table from identifiers to stacks of values, and a
binding is looked up in the nearest fiber up the chain of parents that has one. A small
cache in front of the walk must always agree with it.
*/
module DynamicBindings {
  import opened Arithmetic
  import opened LinearProbing
  import opened ProbedMap

  const STACK_INIT_CAPACITY: nat := 4
  const TABLE_INIT_CAPACITY: nat := 8

  // ----- Binding stacks ------------------------------------------------------

  /** The values bound to one identifier, innermost last, in a buffer with room for `capacity`. */
  datatype Stack<V> = Stack(capacity: nat, vals: seq<V>)

  ghost predicate StackOk<V>(s: Stack<V>) {
    0 < |s.vals| <= s.capacity
  }

  /** `dynamic_stack_push`; the buffer doubles when it is full, if `alloc` succeeds. */
  function PushValue<V>(s: Stack<V>, v: V, alloc: bool): (r: (bool, Stack<V>))
    requires |s.vals| <= s.capacity
    ensures r.0 ==> StackOk(r.1) && r.1.vals == s.vals + [v]
    ensures !r.0 ==> r.1 == s && !alloc && |s.vals| == s.capacity
  {
    if |s.vals| < s.capacity then (true, Stack(s.capacity, s.vals + [v]))
    else if alloc then (true, Stack(if s.capacity == 0 then STACK_INIT_CAPACITY else 2 * s.capacity, s.vals + [v]))
    else (false, s)
  }

  /** `dynamic_stack_pop` when a value remains; the buffer may shrink, if `alloc` succeeds. */
  function PopValue<V>(s: Stack<V>, alloc: bool): (r: Stack<V>)
    requires StackOk(s) && |s.vals| > 1
    ensures StackOk(r) && r.vals + [s.vals[|s.vals| - 1]] == s.vals
  {
    var vals := s.vals[..|s.vals| - 1];
    if s.capacity > STACK_INIT_CAPACITY && |vals| < s.capacity / 2 && alloc then Stack(s.capacity / 2, vals)
    else Stack(s.capacity, vals)
  }

  /** Buffers begin with 4 places, double when full, and are halved when less than half is used. */
  lemma BufferSizes<V>(s: Stack<V>, v: V)
    requires StackOk(s)
    ensures PushValue(Stack(0, []), v, true).1.capacity == 4
    ensures |s.vals| == s.capacity ==> PushValue(s, v, true).1.capacity == 2 * s.capacity
    ensures |s.vals| < s.capacity ==> PushValue(s, v, false).1.capacity == s.capacity
    ensures |s.vals| > 1 ==>
      PopValue(s, true).capacity == if s.capacity > 4 && |s.vals| - 1 < s.capacity / 2 then s.capacity / 2 else s.capacity
    ensures |s.vals| > 1 ==> PopValue(s, false).capacity == s.capacity
  {
  }

  // ----- What a table means --------------------------------------------------

  type Bound<V> = map<int, seq<V>>

  ghost function Values<V>(m: Bound<V>, id: int): seq<V> {
    if id in m then m[id] else []
  }

  ghost function Pushed<V>(m: Bound<V>, id: int, v: V): Bound<V> {
    m[id := Values(m, id) + [v]]
  }

  ghost function Popped<V>(m: Bound<V>, id: int): Bound<V> {
    if |Values(m, id)| <= 1 then m - {id} else m[id := m[id][..|m[id]| - 1]]
  }

  ghost predicate NoEmptyStack<V>(m: Bound<V>) {
    forall id :: id in m ==> m[id] != []
  }

  /** A pop takes back the push before it, and touches no other identifier. */
  lemma PopUndoesPush<V>(m: Bound<V>, id: int, v: V)
    requires NoEmptyStack(m)
    ensures Popped(Pushed(m, id, v), id) == m
  {
    if id in m { assert (m[id] + [v])[..|m[id]|] == m[id]; }
  }

  ghost function ValuesIn<V>(stacks: map<int, Stack<V>>): Bound<V> {
    map id | id in stacks :: stacks[id].vals
  }

  ghost predicate StacksOk<V>(stacks: map<int, Stack<V>>) {
    forall id :: id in stacks ==> StackOk(stacks[id])
  }

  lemma ValuesTell<V>(stacks: map<int, Stack<V>>, id: int)
    ensures id in ValuesIn(stacks) <==> id in stacks
    ensures id in stacks ==> ValuesIn(stacks)[id] == stacks[id].vals
  {
  }

  lemma StackStored<V>(stacks: map<int, Stack<V>>, id: int, s: Stack<V>)
    requires StacksOk(stacks) && StackOk(s)
    ensures StacksOk(stacks[id := s]) && ValuesIn(stacks[id := s]) == ValuesIn(stacks)[id := s.vals]
    ensures |stacks[id := s]| == |stacks| + if id in stacks then 0 else 1
  {
    SizeStored(stacks, id, s);
  }

  lemma SizeStored<K, V>(m: map<K, V>, k: K, v: V)
    ensures |m[k := v]| == |m| + if k in m then 0 else 1
  {
    assert m[k := v].Keys == m.Keys + {k};
    assert |m[k := v]| == |m[k := v].Keys| && |m| == |m.Keys|;
  }

  lemma StackDropped<V>(stacks: map<int, Stack<V>>, id: int)
    requires StacksOk(stacks) && id in stacks
    ensures StacksOk(stacks - {id}) && ValuesIn(stacks - {id}) == ValuesIn(stacks) - {id}
    ensures |stacks - {id}| == |stacks| - 1
  {
    assert (stacks - {id}).Keys == stacks.Keys - {id};
    assert |stacks - {id}| == |(stacks - {id}).Keys| && |stacks| == |stacks.Keys|;
  }

  lemma {:induction false} Halved(n: nat)
    requires IsPowerOfTwo(n) && n > TABLE_INIT_CAPACITY
    ensures IsPowerOfTwo(n / 2) && n / 2 >= TABLE_INIT_CAPACITY && n % 4 == 0
  {
    hide IsPowerOfTwo;
    HalfIsPower(n);
    var a := n / 2;
    HalfIsPower(a);
    var b := a / 2;
    HalfIsPower(b);
    var c := b / 2;
    assert n == 2 * a && a == 2 * b && b == 2 * c;
  }

  /** The home of each identifier in a table of `n` slots: `hash & mask` for a power of two. */
  ghost function HomeIn(n: nat): int -> nat {
    (id: int) => if n == 0 then 0 else id % n
  }

  // ----- The table -----------------------------------------------------------

  class Table<V> {
    var slots: seq<Slot<int, Stack<V>>>
    var count: nat
    ghost var stacks: map<int, Stack<V>>

    /** The values bound to each identifier. */
    ghost function Meaning(): Bound<V>
      reads this
    {
      ValuesIn(stacks)
    }

    ghost predicate Valid()
      reads this
    {
      && (slots == [] || (|slots| >= TABLE_INIT_CAPACITY && IsPowerOfTwo(|slots|)))
      && count == |stacks| && 2 * count <= |slots|
      && Represents(slots, HomeIn(|slots|), stacks)
      && StacksOk(stacks)
    }

    /** `caml_dynamic_table_init` */
    constructor ()
      ensures Valid() && Meaning() == map[]
    {
      slots, count, stacks := [], 0, map[];
      new;
      EmptyRepresents(slots, HomeIn(0));
    }

    /** `dynamic_table_find` in a table that has slots. */
    method Search(id: int) returns (found: bool, i: nat)
      requires Valid() && slots != []
      ensures i < |slots| && SlotFor(slots, HomeIn(|slots|), id, i)
      ensures found == slots[i].Full? && found == (id in stacks)
      ensures found ==> slots[i] == Full(id, stacks[id])
    {
      hide Represents, StacksOk, IsPowerOfTwo;
      ghost var home := HomeIn(|slots|);
      RepresentsRoom(slots, home, stacks);
      i := id % |slots|;
      while slots[i].Full? && slots[i].key != id
        invariant i < |slots| && Probed(slots, id, home(id), i)
        decreases |slots| - Distance(|slots|, home(id), i)
      {
        ProbeOn(slots, id, home(id), i);
        NextDistance(|slots|, home(id), i);
        i := Next(|slots|, i);
      }
      SlotTells(slots, home, stacks, id, i);
      found := slots[i].Full?;
    }

    /** The innermost value of `id` in this table, if it has one. */
    method Find(id: int) returns (found: bool, vals: seq<V>)
      requires Valid()
      ensures found == (id in Meaning())
      ensures found ==> vals == Meaning()[id] && vals != []
    {
      hide Represents, IsPowerOfTwo;
      found, vals := false, [];
      if slots != [] {
        var i;
        found, i := Search(id);
        if found { vals := slots[i].val.vals; }
      } else {
        EmptyHasNone(slots, stacks);
      }
    }

    /** `dynamic_table_add`: into the first free slot of the walk, which exists. */
    method Add(id: int, stack: Stack<V>) returns (ghost j: nat)
      requires slots != [] && (exists e :: 0 <= e < |slots| && slots[e].Empty?)
      requires forall p :: 0 <= p < |slots| && slots[p].Full? ==> slots[p].key != id
      modifies this`slots
      ensures j < |old(slots)| && old(slots)[j].Empty? && Probed(old(slots), id, HomeIn(|old(slots)|)(id), j)
      ensures slots == old(slots)[j := Full(id, stack)]
    {
      ghost var home := HomeIn(|slots|);
      var i: nat := id % |slots|;
      while slots[i].Full?
        invariant slots == old(slots) && i < |slots| && home(id) < |slots| && Probed(slots, id, home(id), i)
        decreases |slots| - Distance(|slots|, home(id), i)
      {
        ProbeOn(slots, id, home(id), i);
        NextDistance(|slots|, home(id), i);
        i := Next(|slots|, i);
      }
      j := i;
      slots := slots[i := Full(id, stack)];
    }

    /** `dynamic_table_resize`: all stacks move to a new array, unless there is no memory for it. */
    method Resize(capacity: nat) returns (ok: bool)
      requires Valid() && IsPowerOfTwo(capacity) && capacity >= TABLE_INIT_CAPACITY && 2 * count < capacity
      modifies this`slots
      ensures Valid() && (ok ==> |slots| == capacity) && (!ok ==> slots == old(slots))
    {
      hide Represents, MovedUpTo, StacksOk, IsPowerOfTwo, Probed;
      ok := *;
      if !ok { return; }
      var before := slots;
      MovedNone(before, HomeIn(|before|), stacks);
      slots := seq(capacity, i => Empty);
      EmptyRepresents(slots, HomeIn(capacity));
      ghost var moved: map<int, Stack<V>> := map[];
      for i := 0 to |before|
        invariant |slots| == capacity && Represents(slots, HomeIn(capacity), moved)
        invariant MovedUpTo(before, stacks, i, moved)
      {
        MovedOne(before, stacks, i, moved);
        if before[i].Full? {
          var id, stack := before[i].key, before[i].val;
          RepresentsRoom(slots, HomeIn(capacity), moved);
          KeysOnly(slots, HomeIn(capacity), moved, id);
          ghost var t := slots;
          ghost var j := Add(id, stack);
          StoreFree(t, HomeIn(capacity), moved, id, j, stack);
          moved := moved[id := stack];
        }
      }
      MovedAll(before, stacks, moved);
    }

    /** Stores the stack of `id` in its slot, or in the free slot where it belongs. */
    method Bind(id: int, i: nat, stack: Stack<V>)
      requires Valid() && i < |slots| && SlotFor(slots, HomeIn(|slots|), id, i) && StackOk(stack)
      requires slots[i].Full? == (id in stacks) && (id !in stacks ==> 2 * count + 2 <= |slots|)
      modifies this
      ensures Valid() && Meaning() == old(Meaning())[id := stack.vals]
    {
      hide Represents, StacksOk, IsPowerOfTwo, SlotFor, ValuesIn;
      StoreAt(slots, HomeIn(|slots|), stacks, id, i, stack);
      StackStored(stacks, id, stack);
      if slots[i].Empty? { count := count + 1; }
      slots, stacks := slots[i := Full(id, stack)], stacks[id := stack];
    }

    /** `dynamic_table_push`; on failure nothing is bound or unbound. */
    method Push(id: int, v: V) returns (ok: bool)
      requires Valid()
      modifies this
      ensures Valid()
      ensures Meaning() == if ok then Pushed(old(Meaning()), id, v) else old(Meaning())
      decreases if 2 * count == |slots| then 1 else 0
    {
      hide Represents, StacksOk, IsPowerOfTwo, SlotFor, ValuesIn;
      ValuesTell(stacks, id);
      if slots == [] {
        SmallPowers();
        ok := Resize(TABLE_INIT_CAPACITY);
        if !ok { return; }
      }
      var found, i := Search(id);
      if !found && 2 * count == |slots| {
        TwiceIsPower(|slots|);
        ok := Resize(2 * |slots|);
        if ok { ok := Push(id, v); }
      } else {
        if found { StackFits(stacks, id); }
        if |slots| > 1 { HalfIsPower(|slots|); }
        var alloc: bool := *;
        var r := PushValue(if found then slots[i].val else Stack(0, []), v, alloc);
        ok := r.0;
        if ok { Bind(id, i, r.1); }
      }
    }

    /** The loop of `dynamic_table_pop` that puts in again what stands behind the emptied slot. */
    method Rehash(from: nat)
      requires 2 * |stacks| <= |slots| && from < |slots| && slots[from].Full?
      requires Represents(slots, HomeIn(|slots|), stacks)
      modifies this`slots
      ensures |slots| == |old(slots)|
      ensures Represents(slots, HomeIn(|slots|), stacks - {old(slots)[from].key})
    {
      hide Represents, Rehashing, Entries, Bindings, Probed;
      ghost var home, n := HomeIn(|slots|), |slots|;
      ghost var m := stacks - {slots[from].key};
      ghost var end := DeletionStarts(slots, home, stacks, from);
      slots := slots[from := Empty];
      var next: nat := Next(|slots|, from);
      while slots[next].Full?
        invariant |slots| == n && next < n && from < n && end < n
        invariant Rehashing(slots, home, from, next, end) && Entries(slots) == Bindings(m)
        decreases Distance(n, from, end) - Distance(n, from, next)
      {
        var id, stack := slots[next].key, slots[next].val;
        ghost var t := slots;
        slots := slots[next := Empty];
        RehashNotAtEnd(t, slots, home, from, next, end);
        ghost var j := Add(id, stack);
        RehashStep(t, home, from, next, end, j);
        RehashEntries(t, next, j);
        next := Next(|slots|, next);
      }
      DeletionEnds(slots, home, m, from, next, end);
    }

    /** The part of `dynamic_table_pop` for the last value of an identifier. */
    method Remove(i: nat)
      requires Valid() && i < |slots| && slots[i].Full? && slots[i].key in stacks
      modifies this
      ensures Valid() && Meaning() == old(Meaning()) - {old(slots)[i].key}
    {
      hide Represents, StacksOk, IsPowerOfTwo, ValuesIn;
      ghost var id := slots[i].key;
      Rehash(i);
      StackDropped(stacks, id);
      stacks := stacks - {id};
      count := count - 1;
      if |slots| > TABLE_INIT_CAPACITY && count < |slots| / 4 {
        Halved(|slots|);
        var _ := Resize(|slots| / 2);
      }
    }

    /** `dynamic_table_pop` */
    method Pop(id: int)
      requires Valid()
      modifies this
      ensures Valid() && Meaning() == Popped(old(Meaning()), id)
    {
      hide Represents, StacksOk, IsPowerOfTwo, SlotFor, ValuesIn;
      ValuesTell(stacks, id);
      if slots == [] {
        EmptyHasNone(slots, stacks);
        return;
      }
      var found, i := Search(id);
      if found {
        StackFits(stacks, id);
        if |slots[i].val.vals| == 1 {
          Remove(i);
        } else {
          var alloc: bool := *;
          var s := PopValue(slots[i].val, alloc);
          StoreAt(slots, HomeIn(|slots|), stacks, id, i, s);
          StackStored(stacks, id, s);
          slots, stacks := slots[i := Full(id, s)], stacks[id := s];
        }
      }
    }
  }

  lemma EmptyHasNone<V>(slots: seq<Slot<int, Stack<V>>>, stacks: map<int, Stack<V>>)
    requires slots == [] && Represents(slots, HomeIn(0), stacks)
    ensures stacks == map[]
  {
    BindingsCount(stacks);
    assert |stacks| == 0;
  }

  lemma StackFits<V>(stacks: map<int, Stack<V>>, id: int)
    requires StacksOk(stacks) && id in stacks
    ensures StackOk(stacks[id])
  {
  }

  lemma KeysOnly<V>(t: seq<Slot<int, Stack<V>>>, home: int -> nat, m: map<int, Stack<V>>, id: int)
    requires Represents(t, home, m) && id !in m
    ensures forall p :: 0 <= p < |t| && t[p].Full? ==> t[p].key != id
  {
    forall p | 0 <= p < |t| && t[p].Full? ensures t[p].key != id { HoldsOnly(t, home, m, p); }
  }

  lemma StoreFree<V>(t: seq<Slot<int, Stack<V>>>, home: int -> nat, m: map<int, Stack<V>>, id: int, j: nat, s: Stack<V>)
    requires Represents(t, home, m) && j < |t| && home(id) < |t| && t[j].Empty? && Probed(t, id, home(id), j)
    ensures Represents(t[j := Full(id, s)], home, m[id := s])
  {
    StoreAt(t, home, m, id, j, s);
  }

  lemma DeletionStarts<V>(t: seq<Slot<int, Stack<V>>>, home: int -> nat, m: map<int, Stack<V>>, from: nat) returns (end: nat)
    requires Represents(t, home, m) && 2 * |m| <= |t| && from < |t| && t[from].Full?
    ensures end < |t| && Rehashing(t[from := Empty], home, from, Next(|t|, from), end)
    ensures Entries(t[from := Empty]) == Bindings(m - {t[from].key})
  {
    RepresentsRoom(t, home, m);
    end := RehashStarts(t, home, from);
    HoldsOnly(t, home, m, from);
    BindingsWithout(m, t[from].key);
    assert (t[from].key, t[from].val) in Bindings(m);
  }

  lemma BindingsWithout<K, V>(m: map<K, V>, k: K)
    requires k in m
    ensures Bindings(m - {k}) == Bindings(m) - {(k, m[k])}
  {
    forall x ensures x in Bindings(m - {k}) <==> x in Bindings(m) - {(k, m[k])} {
      BindingsTell(m - {k}, x);
      BindingsTell(m, x);
    }
  }

  lemma RehashNotAtEnd<K, V>(t: seq<Slot<K, V>>, t': seq<Slot<K, V>>, home: K -> nat, from: nat, next: nat, end: nat)
    requires Rehashing(t, home, from, next, end) && next < |t| && t[next].Full? && t' == t[next := Empty]
    ensures forall p :: 0 <= p < |t'| && t'[p].Full? ==> t'[p].key != t[next].key
    ensures t'[next].Empty? && Distance(|t|, from, next) < Distance(|t|, from, end)
    ensures home(t[next].key) < |t|
  {
    assert next != end;
  }

  lemma DeletionEnds<V>(t: seq<Slot<int, Stack<V>>>, home: int -> nat, m: map<int, Stack<V>>, from: nat, next: nat, end: nat)
    requires Rehashing(t, home, from, next, end) && t[next].Empty? && Entries(t) == Bindings(m)
    ensures Represents(t, home, m)
  {
    RehashEnds(t, home, from, next, end);
  }
}
