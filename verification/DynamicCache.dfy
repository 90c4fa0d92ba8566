/**
The direct-mapped cache in front of the dynamic bindings of a chain of fibers. A filled
entry always holds what the walk up the chain would find, so a lookup may trust it.
*/
module DynamicCache {
  import opened DynamicBindings

  const DYNAMIC_CACHE_SIZE: nat := 8

  datatype Entry<+V> = Unused | Entry(id: int, val: V)

  // ----- The walk up the chain -----------------------------------------------

  /** The innermost value in the nearest fiber that binds `id`, nearest first; else `null`. */
  ghost function Innermost<V>(maps: seq<Bound<V>>, id: int, null_: V): V {
    if maps == [] then null_
    else if Values(maps[0], id) != [] then Values(maps[0], id)[|Values(maps[0], id)| - 1]
    else Innermost(maps[1..], id, null_)
  }

  lemma {:induction false} InnermostPast<V>(maps: seq<Bound<V>>, n: nat, id: int, null_: V)
    requires n <= |maps| && forall j :: 0 <= j < n ==> Values(maps[j], id) == []
    ensures Innermost(maps, id, null_) == Innermost(maps[n..], id, null_)
  {
    if n > 0 {
      InnermostPast(maps[1..], n - 1, id, null_);
      assert maps[1..][n - 1..] == maps[n..];
    } else {
      assert maps[0..] == maps;
    }
  }

  /** Changing what the nearest fiber binds to one identifier is nothing to the others. */
  lemma InnermostOther<V>(maps: seq<Bound<V>>, m: Bound<V>, id: int, null_: V)
    requires maps != [] && Values(m, id) == Values(maps[0], id)
    ensures Innermost(maps[0 := m], id, null_) == Innermost(maps, id, null_)
  {
    assert maps[0 := m][1..] == maps[1..];
  }

  /** The value pushed last is found, and a pop brings back what was found before it. */
  lemma InnermostPushed<V>(maps: seq<Bound<V>>, id: int, v: V, null_: V)
    requires maps != [] && NoEmptyStack(maps[0])
    ensures Innermost(maps[0 := Pushed(maps[0], id, v)], id, null_) == v
    ensures maps[0 := Pushed(maps[0], id, v)][0 := Popped(Pushed(maps[0], id, v), id)] == maps
  {
    PopUndoesPush(maps[0], id, v);
  }

  // ----- Fibers --------------------------------------------------------------

  class Fiber<V> {
    var parent: Fiber?<V>
    var table: Table<V>

    constructor (parent: Fiber?<V>, table: Table<V>)
      ensures this.parent == parent && this.table == table
    {
      this.parent, this.table := parent, table;
    }
  }

  /** `chain` leads from a fiber up to the last parent, and `tables` are the tables on the way. */
  ghost predicate Linked<V>(chain: seq<Fiber<V>>, tables: seq<Table<V>>)
    reads chain
  {
    && |chain| == |tables| > 0
    && (forall i :: 0 <= i < |chain| ==> chain[i].table == tables[i])
    && (forall i :: 0 <= i < |chain| ==> LinkedAt(chain, i))
    && (forall i, j :: 0 <= i < j < |chain| ==> chain[i] != chain[j] && tables[i] != tables[j])
  }

  ghost predicate LinkedAt<V>(chain: seq<Fiber<V>>, i: nat)
    requires i < |chain|
    reads chain
  {
    chain[i].parent == if i + 1 < |chain| then chain[i + 1] else null
  }

  ghost predicate AllValid<V>(tables: seq<Table<V>>)
    reads tables
  {
    forall i :: 0 <= i < |tables| ==> tables[i].Valid()
  }

  ghost function Meanings<V>(tables: seq<Table<V>>): seq<Bound<V>>
    reads tables
  {
    seq(|tables|, i requires 0 <= i < |tables| reads tables => tables[i].Meaning())
  }

  ghost predicate CacheRight<V>(cache: seq<Entry<V>>, maps: seq<Bound<V>>, null_: V) {
    forall i :: 0 <= i < |cache| && cache[i].Entry? ==>
      cache[i].id % DYNAMIC_CACHE_SIZE == i && cache[i].val == Innermost(maps, cache[i].id, null_)
  }

  lemma CacheFilled<V>(cache: seq<Entry<V>>, maps: seq<Bound<V>>, null_: V, id: int)
    requires CacheRight(cache, maps, null_) && |cache| == DYNAMIC_CACHE_SIZE
    ensures CacheRight(cache[id % DYNAMIC_CACHE_SIZE := Entry(id, Innermost(maps, id, null_))], maps, null_)
  {
  }

  /** After a change at `id` in the nearest fiber, the cache is right once its entry for `id` is. */
  lemma CacheAfter<V>(cache: seq<Entry<V>>, maps: seq<Bound<V>>, m: Bound<V>, null_: V, id: int, e: Entry<V>)
    requires CacheRight(cache, maps, null_) && |cache| == DYNAMIC_CACHE_SIZE && maps != []
    requires forall x :: x != id ==> Values(m, x) == Values(maps[0], x)
    requires e.Unused? || e == Entry(id, Innermost(maps[0 := m], id, null_))
    ensures CacheRight(cache[id % DYNAMIC_CACHE_SIZE := e], maps[0 := m], null_)
  {
    var cache' := cache[id % DYNAMIC_CACHE_SIZE := e];
    forall i | 0 <= i < |cache'| && cache'[i].Entry?
      ensures cache'[i].id % DYNAMIC_CACHE_SIZE == i && cache'[i].val == Innermost(maps[0 := m], cache'[i].id, null_)
    {
      if i != id % DYNAMIC_CACHE_SIZE {
        assert cache'[i] == cache[i];
        InnermostOther(maps, m, cache[i].id, null_);
      }
    }
  }

  // ----- The domain ----------------------------------------------------------

  class Domain<V> {
    const null_: V
    const cache: array<Entry<V>>
    var current: Fiber<V>
    ghost var chain: seq<Fiber<V>>
    ghost var tables: seq<Table<V>>

    ghost predicate Valid()
      reads this, cache, chain, tables
    {
      && cache.Length == DYNAMIC_CACHE_SIZE
      && Linked(chain, tables) && chain[0] == current && AllValid(tables)
      && CacheRight(cache[..], Meanings(tables), null_)
    }

    /** What is bound in the current fiber and in its parents, nearest first. */
    ghost function Maps(): seq<Bound<V>>
      reads this, tables
    {
      Meanings(tables)
    }

    constructor (null_: V)
      ensures Valid() && fresh(cache) && fresh(chain) && fresh(tables)
      ensures this.null_ == null_ && Maps() == [map[]]
    {
      this.null_ := null_;
      hide Innermost, Table.Valid, Table.Meaning;
      cache := new Entry<V>[DYNAMIC_CACHE_SIZE](i => Unused);
      var table := new Table<V>();
      var fiber := new Fiber(null, table);
      current := fiber;
      chain, tables := [fiber], [table];
    }

    /** `caml_dynamic_get` */
    method Get(id: int) returns (v: V)
      requires Valid()
      modifies cache
      ensures Valid() && v == Innermost(Maps(), id, null_)
    {
      var index := id % DYNAMIC_CACHE_SIZE;
      if cache[index].Entry? && cache[index].id == id {
        v := cache[index].val;
        return;
      }
      v := Walk(id);
      CacheFilled(cache[..], Maps(), null_, id);
      cache[index] := Entry(id, v);
      assert cache[..] == old(cache[..])[index := Entry(id, v)];
    }

    /** The walk of `caml_dynamic_get` when the cache does not help. */
    method Walk(id: int) returns (v: V)
      requires Valid()
      ensures v == Innermost(Maps(), id, null_)
    {
      hide CacheRight, Table.Valid;
      ghost var maps, i := Maps(), 0;
      var fiber: Fiber?<V> := current;
      v := null_;
      while fiber != null
        invariant i <= |chain| && fiber == (if i < |chain| then chain[i] else null)
        invariant forall j :: 0 <= j < i ==> Values(maps[j], id) == []
        invariant v == null_
        decreases |chain| - i
      {
        assert tables[i].Valid() && maps[i] == tables[i].Meaning();
        var found, vals := fiber.table.Find(id);
        if found {
          InnermostPast(maps, i, id, null_);
          v := vals[|vals| - 1];
          return;
        }
        assert LinkedAt(chain, i);
        fiber := fiber.parent;
        i := i + 1;
      }
      InnermostPast(maps, |maps|, id, null_);
    }

    /** `caml_dynamic_push`; without memory it raises and changes no binding. */
    method Push(id: int, v: V) returns (ok: bool)
      requires Valid()
      modifies cache, tables[0]
      ensures Valid()
      ensures Maps() == if ok then old(Maps())[0 := Pushed(old(Maps())[0], id, v)] else old(Maps())
    {
      hide CacheRight, Table.Valid;
      ghost var maps := Maps();
      assert tables[0].Valid() && maps[0] == tables[0].Meaning();
      ok := current.table.Push(id, v);
      assert AllValid(tables) by {
        forall i | 0 <= i < |tables| ensures tables[i].Valid() { assert i > 0 ==> tables[i] != tables[0]; }
      }
      assert Maps() == maps[0 := tables[0].Meaning()];
      if ok {
        ghost var m := Pushed(maps[0], id, v);
        CacheAfter(cache[..], maps, m, null_, id, Entry(id, v));
        cache[id % DYNAMIC_CACHE_SIZE] := Entry(id, v);
        assert cache[..] == old(cache[..])[id % DYNAMIC_CACHE_SIZE := Entry(id, v)];
      } else {
        assert maps[0 := maps[0]] == maps;
      }
    }

    /** `caml_dynamic_pop` */
    method Pop(id: int)
      requires Valid()
      modifies cache, tables[0]
      ensures Valid()
      ensures Maps() == old(Maps())[0 := Popped(old(Maps())[0], id)]
    {
      hide CacheRight, Table.Valid;
      ghost var maps := Maps();
      assert tables[0].Valid() && maps[0] == tables[0].Meaning();
      current.table.Pop(id);
      assert AllValid(tables) by {
        forall i | 0 <= i < |tables| ensures tables[i].Valid() { assert i > 0 ==> tables[i] != tables[0]; }
      }
      assert Maps() == maps[0 := tables[0].Meaning()];
      var index := id % DYNAMIC_CACHE_SIZE;
      if cache[index].Entry? && cache[index].id == id {
        CacheAfter(cache[..], maps, Popped(maps[0], id), null_, id, Unused);
        cache[index] := Unused;
        assert cache[..] == old(cache[..])[index := Unused];
      } else {
        CacheKept(cache[..], maps, Popped(maps[0], id), null_, id);
      }
    }

    /** `caml_dynamic_cache_flush` */
    method Flush()
      requires cache.Length == DYNAMIC_CACHE_SIZE
      modifies cache
      ensures forall i :: 0 <= i < cache.Length ==> cache[i] == Unused
    {
      for i := 0 to cache.Length
        invariant forall j :: 0 <= j < i ==> cache[j] == Unused
      {
        cache[i] := Unused;
      }
    }

    /** Running another fiber, with whatever parents it has by then: the cache is flushed. */
    method Switch(fiber: Fiber<V>, ghost chain': seq<Fiber<V>>, ghost tables': seq<Table<V>>)
      requires cache.Length == DYNAMIC_CACHE_SIZE
      requires Linked(chain', tables') && chain'[0] == fiber && AllValid(tables')
      modifies this, cache
      ensures Valid() && chain == chain' && tables == tables' && Maps() == old(Meanings(tables'))
    {
      hide Table.Valid, Innermost;
      current, chain, tables := fiber, chain', tables';
      Flush();
      assert Maps() == old(Meanings(tables'));
    }

    /** `caml_try_realloc_stack`: a larger stack takes over the table; nothing need be flushed. */
    method Realloc()
      requires Valid()
      modifies this, current
      ensures Valid() && Maps() == old(Maps()) && cache[..] == old(cache[..])
      ensures fresh(current) && current.table == old(current.table)
      ensures fresh(old(current).table) && old(current).table.Meaning() == map[]
    {
      hide CacheRight, Table.Valid, Innermost;
      ghost var maps := Maps();
      var before := current;
      var after := new Fiber(before.parent, before.table);
      var empty := new Table<V>();
      before.table := empty;
      current := after;
      chain := [after] + chain[1..];
      forall i | 0 <= i < |chain| ensures LinkedAt(chain, i) { assert old(LinkedAt(chain, i)); }
      assert Meanings(tables) == maps;
    }
  }

  lemma CacheKept<V>(cache: seq<Entry<V>>, maps: seq<Bound<V>>, m: Bound<V>, null_: V, id: int)
    requires CacheRight(cache, maps, null_) && |cache| == DYNAMIC_CACHE_SIZE && maps != []
    requires forall x :: x != id ==> Values(m, x) == Values(maps[0], x)
    requires var i := id % DYNAMIC_CACHE_SIZE; cache[i].Unused? || cache[i].id != id
    ensures CacheRight(cache, maps[0 := m], null_)
  {
    forall i | 0 <= i < |cache| && cache[i].Entry? ensures cache[i].val == Innermost(maps[0 := m], cache[i].id, null_) {
      assert cache[i].id != id;
      InnermostOther(maps, m, cache[i].id, null_);
    }
  }
}
