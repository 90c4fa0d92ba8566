/**
The table that remembers which objects a graph walk has met: open addressing with linear
probing from object to data, growing when it is two thirds full. The marshaller stores
output positions in it, the reachability walker stores marks.
*/
module PositionTable {
  import opened Options
  import opened Arithmetic
  import opened LinearProbing
  import opened ProbedMap

  /** A word of the OCaml heap: the null value, an immediate, or a pointer to a block. */
  datatype Value = Null | Int(n: int) | Ptr(addr: nat)

  const HASH_FACTOR: nat := 11400714819323198486
  const INIT_SIZE: nat := 256

  /** `Hash`: the top bits of the product, as many as the table size has. */
  function Hash(word: nat, size: nat): (h: nat)
    requires size > 0
    ensures h < size
  {
    ScaledBelow(word * HASH_FACTOR % WORD, size);
    (word * HASH_FACTOR % WORD) * size / WORD
  }

  lemma ScaledBelow(x: nat, size: nat)
    requires x < WORD && size > 0
    ensures x * size / WORD < size
  {
    assert x * size < WORD * size;
  }

  /** `Threshold`: when the table becomes two thirds full, its size is increased. */
  function Threshold(size: nat): nat {
    size * 2 / 3
  }

  lemma TwoThirds(size: nat)
    ensures 3 * Threshold(size) <= 2 * size < 3 * (Threshold(size) + 1)
  {
  }

  /** The home of each value in a table of `n` slots. */
  ghost function HomeIn(word: Value -> nat, n: nat): Value -> nat {
    (v: Value) => if n == 0 then 0 else Hash(word(v), n)
  }

  class Table<V(==)> {
    /** The bit pattern of a value; distinct values have distinct patterns, which is not needed here. */
    const word: Value -> nat
    var slots: seq<Slot<Value, V>>
    var objCounter: nat
    ghost var contents: map<Value, V>

    ghost function Home(): Value -> nat
      reads this
    {
      HomeIn(word, |slots|)
    }

    ghost predicate Valid()
      reads this
    {
      && |slots| >= INIT_SIZE
      && |contents| <= objCounter < Threshold(|slots|)
      && Represents(slots, Home(), contents)
    }

    constructor (word: Value -> nat)
      ensures Valid() && contents == map[] && objCounter == 0
    {
      this.word := word;
      slots := seq(INIT_SIZE, i => Empty);
      objCounter := 0;
      contents := map[];
      new;
      EmptyTable(slots, Home());
    }

    /** `extern_lookup_position` */
    method Lookup(obj: Value) returns (pos: Option<V>, h: nat)
      requires Valid()
      ensures pos == if obj in contents then Some(contents[obj]) else None
      ensures SlotFor(slots, Home(), obj, h)
    {
      hide Represents;
      RepresentsRoom(slots, Home(), contents);
      h := Hash(word(obj), |slots|);
      ghost var home := h;
      while slots[h].Full? && slots[h].key != obj
        invariant h < |slots| && Probed(slots, obj, home, h)
        decreases |slots| - Distance(|slots|, home, h)
      {
        ProbeOn(slots, obj, home, h);
        NextDistance(|slots|, home, h);
        h := Next(|slots|, h);
      }
      SlotTells(slots, Home(), contents, obj, h);
      pos := if slots[h].Full? then Some(slots[h].val) else None;
    }

    /** `extern_record_location_with_data`: `h` is the slot found by looking `obj` up. */
    method Record(obj: Value, h: nat, data: V)
      requires Valid() && SlotFor(slots, Home(), obj, h)
      modifies this
      ensures Valid() && contents == old(contents)[obj := data] && objCounter == old(objCounter) + 1
    {
      hide Represents;
      StoreAt(slots, Home(), contents, obj, h, data);
      slots := slots[h := Full(obj, data)];
      contents := contents[obj := data];
      objCounter := objCounter + 1;
      if objCounter >= Threshold(|slots|) {
        Resize();
      }
    }

    /** `extern_update_location_with_data` */
    method Update(ghost obj: Value, h: nat, data: V)
      requires Valid() && SlotFor(slots, Home(), obj, h) && obj in contents
      modifies this
      ensures Valid() && contents == old(contents)[obj := data] && objCounter == old(objCounter)
    {
      SlotTells(slots, Home(), contents, obj, h);
      StoreAt(slots, Home(), contents, obj, h, data);
      assert contents[obj := data].Keys == contents.Keys;
      contents := contents[obj := data];
      slots := slots[h := Full(slots[h].key, data)];
    }

    /** `extern_resize_position_table` */
    method Resize()
      requires |slots| >= INIT_SIZE && |contents| <= objCounter <= Threshold(|slots|)
      requires Represents(slots, Home(), contents)
      modifies this`slots
      ensures Valid()
    {
      hide Represents, MovedUpTo;
      var before := slots;
      var size := if |before| < 1000000 then 8 * |before| else 2 * |before|;
      MovedNone(before, Home(), contents);
      slots := seq(size, i => Empty);
      EmptyRepresents(slots, HomeIn(word, size));
      ghost var moved: map<Value, V> := map[];
      for i := 0 to |before|
        invariant |slots| == size && Represents(slots, HomeIn(word, size), moved)
        invariant MovedUpTo(before, contents, i, moved)
      {
        MovedOne(before, contents, i, moved);
        if before[i].Full? {
          Reinsert(before[i].key, before[i].val, moved);
          moved := moved[before[i].key := before[i].val];
        }
      }
      MovedAll(before, contents, moved);
    }

    /** The inner loop of resizing, for an object the new table does not hold yet. */
    method Reinsert(key: Value, val: V, ghost m: map<Value, V>)
      requires |slots| > 0 && Represents(slots, HomeIn(word, |slots|), m) && key !in m && |m| < |slots|
      modifies this`slots
      ensures |slots| == |old(slots)| && Represents(slots, HomeIn(word, |slots|), m[key := val])
    {
      hide Represents;
      ghost var t, homes := slots, HomeIn(word, |slots|);
      RepresentsRoom(t, homes, m);
      var h: nat := Hash(word(key), |slots|);
      ghost var home := h;
      while slots[h].Full?
        invariant slots == t && h < |t| && Probed(t, key, home, h)
        decreases |t| - Distance(|t|, home, h)
      {
        HoldsOnly(t, homes, m, h);
        ProbeOn(t, key, home, h);
        NextDistance(|t|, home, h);
        h := Next(|slots|, h);
      }
      StoreAt(t, homes, m, key, h, val);
      slots := slots[h := Full(key, val)];
    }
  }
}
