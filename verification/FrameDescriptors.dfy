/**
The table of frame descriptors: the garbage collector's map from return addresses to
descriptors, an array with linear probing that is filled when modules are loaded and
from which entries are deleted in place when they are unloaded.
*/
module FrameDescriptors {
  import opened Arithmetic
  import opened LinearProbing

  /** One descriptor: the return address it describes and the address of its body, not NULL. */
  datatype Descr = Descr(retaddr: nat, fd: nat)

  /** A frame table, identified by its address. */
  datatype Frametable = Frametable(id: nat, descrs: seq<Descr>)

  const NULL: nat := 0

  /** `Hash_retaddr`: the mask is one less than a power of two, so masking is a remainder. */
  function Hash(addr: nat, capacity: nat): (h: nat)
    requires capacity > 0
    ensures h < capacity
  {
    addr * 52437813 % WORD / 32 % capacity
  }

  ghost function Home(capacity: nat): nat -> nat {
    (addr: nat) => if capacity == 0 then 0 else Hash(addr, capacity)
  }

  // ----- The tables as one list of descriptors ------------------------------

  function Flat(tables: seq<Frametable>): seq<Descr> {
    if tables == [] then [] else tables[0].descrs + Flat(tables[1..])
  }

  ghost predicate DistinctIds(tables: seq<Frametable>) {
    forall i, j :: 0 <= i < j < |tables| ==> tables[i].id != tables[j].id
  }

  ghost function AsEntries(ds: seq<Descr>): set<(nat, nat)> {
    set i | 0 <= i < |ds| :: (ds[i].retaddr, ds[i].fd)
  }

  /** Return addresses and descriptors determine each other, and no descriptor is NULL. */
  ghost predicate OneToOne(es: set<(nat, nat)>) {
    && (forall e :: e in es ==> e.1 != NULL)
    && (forall e, f :: e in es && f in es && (e.0 == f.0 || e.1 == f.1) ==> e == f)
  }

  /** No return address and no descriptor occurs twice in the list. */
  ghost predicate Distinct(ds: seq<Descr>) {
    |AsEntries(ds)| == |ds| && OneToOne(AsEntries(ds))
  }

  lemma {:induction false} FlatConcat(a: seq<Frametable>, b: seq<Frametable>)
    ensures Flat(a + b) == Flat(a) + Flat(b)
  {
    if a == [] {
      assert a + b == b;
    } else {
      assert (a + b)[1..] == a[1..] + b;
      FlatConcat(a[1..], b);
    }
  }

  lemma FlatCons(tables: seq<Frametable>)
    ensures Flat([]) == []
    ensures tables != [] ==> Flat(tables) == tables[0].descrs + Flat(tables[1..])
  {
  }

  lemma {:induction false} AsEntriesBound(ds: seq<Descr>)
    ensures |AsEntries(ds)| <= |ds|
  {
    if ds != [] {
      var n := |ds| - 1;
      AsEntriesBound(ds[..n]);
      assert AsEntries(ds) == AsEntries(ds[..n]) + {(ds[n].retaddr, ds[n].fd)} by {
        forall e | e in AsEntries(ds) ensures e in AsEntries(ds[..n]) || e == (ds[n].retaddr, ds[n].fd) {
          var i :| 0 <= i < |ds| && e == (ds[i].retaddr, ds[i].fd);
          if i < n { assert ds[..n][i] == ds[i]; }
        }
        forall e | e in AsEntries(ds[..n]) ensures e in AsEntries(ds) {
          var i :| 0 <= i < n && e == (ds[..n][i].retaddr, ds[..n][i].fd);
          assert ds[i] == ds[..n][i];
        }
      }
    }
  }

  lemma AsEntriesConcat(a: seq<Descr>, b: seq<Descr>)
    ensures AsEntries(a + b) == AsEntries(a) + AsEntries(b)
  {
    forall e | e in AsEntries(a) ensures e in AsEntries(a + b) {
      var i :| 0 <= i < |a| && e == (a[i].retaddr, a[i].fd);
      assert (a + b)[i] == a[i];
    }
    forall e | e in AsEntries(b) ensures e in AsEntries(a + b) {
      var i :| 0 <= i < |b| && e == (b[i].retaddr, b[i].fd);
      assert (a + b)[|a| + i] == b[i];
    }
  }

  /** In a list without repetition, each descriptor is new to those before it. */
  lemma FreshAt(ds: seq<Descr>, m: nat)
    requires Distinct(ds) && m < |ds|
    ensures Distinct(ds[..m])
    ensures forall e :: e in AsEntries(ds[..m]) ==> e.0 != ds[m].retaddr && e.1 != ds[m].fd
  {
    var a, b := ds[..m], ds[m + 1..];
    assert ds == a + ([ds[m]] + b);
    AsEntriesConcat(a, [ds[m]] + b);
    AsEntriesConcat([ds[m]], b);
    AsEntriesBound(a);
    AsEntriesBound(b);
    var x := (ds[m].retaddr, ds[m].fd);
    assert AsEntries([ds[m]]) == {x};
    assert AsEntries(ds) == AsEntries(a) + ({x} + AsEntries(b));
    var ax, b' := AsEntries(a) + {x}, AsEntries(b);
    assert AsEntries(ds) == ax + b';
    assert |ax + b'| <= |ax| + |b'|;
    assert x in AsEntries(a) ==> ax == AsEntries(a);
    assert x in AsEntries(ds);
  }

  lemma DistinctParts(a: seq<Descr>, b: seq<Descr>)
    requires Distinct(a + b)
    ensures Distinct(a) && Distinct(b) && AsEntries(a) !! AsEntries(b)
  {
    AsEntriesConcat(a, b);
    AsEntriesBound(a);
    AsEntriesBound(b);
    var both := AsEntries(a) * AsEntries(b);
    assert |AsEntries(a) + AsEntries(b)| == |AsEntries(a)| + |AsEntries(b)| - |both|;
    forall x | x in AsEntries(a) ensures x !in AsEntries(b) { assert x in AsEntries(b) <==> x in both; }
  }

  /** The hash array stores exactly the given descriptors, each where a search finds it. */
  ghost predicate Stores(t: seq<Slot<nat, nat>>, ds: seq<Descr>) {
    WellPlaced(t, Home(|t|)) && DistinctKeys(t) && Entries(t) == AsEntries(ds)
  }

  lemma AsEntriesSingle(d: Descr)
    ensures AsEntries([d]) == {(d.retaddr, d.fd)}
  {
    assert [d][0] == d;
    assert (d.retaddr, d.fd) in AsEntries([d]);
  }

  /** The order in which two groups of descriptors are listed does not matter. */
  lemma SwapParts(t: seq<Slot<nat, nat>>, a: seq<Descr>, b: seq<Descr>)
    requires Stores(t, a + b) && Distinct(a + b)
    ensures Stores(t, b + a) && Distinct(b + a)
  {
    AsEntriesConcat(a, b);
    AsEntriesConcat(b, a);
    hide WellPlaced, DistinctKeys, Entries, AsEntries, OneToOne;
    assert AsEntries(a) + AsEntries(b) == AsEntries(b) + AsEntries(a);
  }

  lemma SwapDistinct(a: seq<Descr>, b: seq<Descr>)
    requires Distinct(a + b)
    ensures Distinct(b + a)
  {
    AsEntriesConcat(a, b);
    AsEntriesConcat(b, a);
    hide AsEntries, OneToOne;
    assert AsEntries(a) + AsEntries(b) == AsEntries(b) + AsEntries(a);
  }

  lemma EmptyStores(t: seq<Slot<nat, nat>>)
    requires forall p :: 0 <= p < |t| ==> t[p].Empty?
    ensures Stores(t, [])
  {
    EmptyTable(t, Home(|t|));
  }

  /** There is room for one more search to end. */
  lemma StoresRoom(t: seq<Slot<nat, nat>>, ds: seq<Descr>)
    requires Stores(t, ds) && |ds| < |t|
    ensures exists e :: 0 <= e < |t| && t[e].Empty?
  {
    AsEntriesBound(ds);
    HasRoom(t);
  }

  lemma FoundAt(t: seq<Slot<nat, nat>>, ds: seq<Descr>, pc: nat, h: nat)
    requires Stores(t, ds) && Distinct(ds) && h < |t| && Probed(t, pc, Home(|t|)(pc), h)
    requires t[h].Empty? || t[h].key == pc
    ensures t[h].Empty? ==> forall d :: d in ds ==> d.retaddr != pc
    ensures t[h].Full? ==> t[h].val != NULL && Descr(pc, t[h].val) in ds
  {
    if t[h].Empty? {
      StopAtEmpty(t, Home(|t|), pc, h);
      forall d | d in ds ensures d.retaddr != pc { assert (d.retaddr, d.fd) in Entries(t); }
    } else {
      assert (pc, t[h].val) in AsEntries(ds);
    }
  }

  lemma NewKey(t: seq<Slot<nat, nat>>, ds: seq<Descr>, d: Descr, h: nat)
    requires Stores(t, ds) && Distinct(ds + [d]) && h < |t| && t[h].Full?
    ensures t[h].key != d.retaddr
  {
    FreshAt(ds + [d], |ds|);
    assert (ds + [d])[..|ds|] == ds;
    assert (t[h].key, t[h].val) in AsEntries(ds);
  }

  lemma InsertStores(t: seq<Slot<nat, nat>>, ds: seq<Descr>, d: Descr, h: nat)
    requires Stores(t, ds) && h < |t| && t[h].Empty? && Probed(t, d.retaddr, Home(|t|)(d.retaddr), h)
    ensures Stores(t[h := Full(d.retaddr, d.fd)], ds + [d])
  {
    AsEntriesSingle(d);
    hide WellPlaced, DistinctKeys, Entries, AsEntries;
    InsertKeeps(t, Home(|t|), h, d.retaddr, d.fd);
    AsEntriesConcat(ds, [d]);
    assert |t[h := Full(d.retaddr, d.fd)]| == |t|;
  }

  /** The runtime's test whether `r` lies cyclically after the hole `j`, up to `i`. */
  predicate AfterHole(j: nat, r: nat, i: nat) {
    || (j < r && r <= i)
    || (i < j && j < r)       // i cycled, r not
    || (r <= i && i < j)      // i and r cycled
  }

  lemma AfterHoleIsBefore(t: seq<Slot<nat, nat>>, j: nat, i: nat)
    requires j < |t| && i < |t| && i != j && t[i].Full?
    ensures AfterHole(j, Hash(t[i].key, |t|), i) <==> Before(t, Home(|t|), i, j)
  {
    assert Home(|t|)(t[i].key) == Hash(t[i].key, |t|);
  }

  /** What holds while the gap left by a deletion at `j` is being closed, looking at `i`. */
  ghost predicate Closing(t: seq<Slot<nat, nat>>, j: nat, i: nat, end: nat, es: set<(nat, nat)>) {
    && i < |t| && j < |t| && end < |t|
    && t[j].Empty? && t[end].Empty? && j != end
    && WellPlacedBut(t, Home(|t|), j) && DistinctKeys(t) && Examined(t, Home(|t|), j, i)
    && Distance(|t|, j, i) < Distance(|t|, j, end)
    && Entries(t) == es
  }

  lemma ClosingStarts(t: seq<Slot<nat, nat>>, d: Descr, ds: seq<Descr>, i: nat, end: nat)
    requires Stores(t, [d] + ds) && Distinct([d] + ds)
    requires i < |t| && t[i].Full? && t[i].val == d.fd && end < |t| && t[end].Empty?
    ensures Closing(t[i := Empty], i, i, end, AsEntries(ds))
  {
    OnlyEntry(t, d, ds, i);
    MakeHole(t, Home(|t|), i);
  }

  /** One step of closing the gap: stop, skip the entry at the next slot, or move it. */
  lemma ClosingStep(t: seq<Slot<nat, nat>>, j: nat, i: nat, end: nat, es: set<(nat, nat)>)
    requires Closing(t, j, i, end, es)
    ensures var i' := Next(|t|, i);
      && i' != j
      && Distance(|t|, i', end) < Distance(|t|, i, end)
      && (t[i'].Empty? ==> WellPlaced(t, Home(|t|)))
      && (t[i'].Full? && AfterHole(j, Hash(t[i'].key, |t|), i') ==> Closing(t, j, i', end, es))
      && (t[i'].Full? && !AfterHole(j, Hash(t[i'].key, |t|), i') ==>
            Closing(t[j := t[i']][i' := Empty], i', i', end, es))
  {
    var i' := Next(|t|, i);
    NextDistance(|t|, j, i);
    if t[i'].Empty? {
      HoleIsHarmless(t, Home(|t|), j, i);
    } else {
      AfterHoleIsBefore(t, j, i');
      if AfterHole(j, Hash(t[i'].key, |t|), i') { Skip(t, Home(|t|), j, i); }
      else { Refill(t, Home(|t|), j, i'); }
    }
  }

  lemma OnlyEntry(t: seq<Slot<nat, nat>>, d: Descr, ds: seq<Descr>, i: nat)
    requires Stores(t, [d] + ds) && Distinct([d] + ds) && i < |t| && t[i].Full?
    ensures t[i].val == d.fd <==> t[i].key == d.retaddr
    ensures AsEntries([d] + ds) - {(d.retaddr, d.fd)} == AsEntries(ds)
  {
    AsEntriesConcat([d], ds);
    DistinctParts([d], ds);
    AsEntriesSingle(d);
    assert (t[i].key, t[i].val) in AsEntries([d] + ds);
  }

  /** The walk to a stored descriptor does not end early. */
  lemma NotYet(t: seq<Slot<nat, nat>>, d: Descr, ds: seq<Descr>, i: nat)
    requires Stores(t, [d] + ds) && Distinct([d] + ds) && i < |t|
    requires Probed(t, d.retaddr, Home(|t|)(d.retaddr), i)
    requires !(t[i].Full? && t[i].val == d.fd)
    ensures t[i].Full? && t[i].key != d.retaddr
  {
    assert ([d] + ds)[0] == d;
    assert (d.retaddr, d.fd) in AsEntries([d] + ds);
    if t[i].Empty? {
      StopAtEmpty(t, Home(|t|), d.retaddr, i);
      assert false;
    }
    OnlyEntry(t, d, ds, i);
  }

  // ----- Unregistering, on lists --------------------------------------------

  function Kept(tables: seq<Frametable>, ids: set<nat>): seq<Frametable> {
    if tables == [] then []
    else (if tables[0].id in ids then [] else [tables[0]]) + Kept(tables[1..], ids)
  }

  function Matched(tables: seq<Frametable>, ids: set<nat>): seq<Frametable> {
    if tables == [] then []
    else (if tables[0].id in ids then [tables[0]] else []) + Matched(tables[1..], ids)
  }

  function Reversed(tables: seq<Frametable>): seq<Frametable> {
    if tables == [] then [] else Reversed(tables[1..]) + [tables[0]]
  }

  lemma {:induction false} KeptConcat(a: seq<Frametable>, b: seq<Frametable>, ids: set<nat>)
    ensures Kept(a + b, ids) == Kept(a, ids) + Kept(b, ids)
    ensures Matched(a + b, ids) == Matched(a, ids) + Matched(b, ids)
  {
    hide Kept, Matched;
    KeptJoins(a, b, ids);
    MatchedJoins(a, b, ids);
  }

  lemma Regroup(x: seq<Frametable>, y: seq<Frametable>, z: seq<Frametable>)
    ensures x + (y + z) == (x + y) + z
  {
  }

  lemma {:induction false} KeptJoins(a: seq<Frametable>, b: seq<Frametable>, ids: set<nat>)
    ensures Kept(a + b, ids) == Kept(a, ids) + Kept(b, ids)
  {
    if a == [] {
      assert a + b == b;
    } else {
      var x := if a[0].id in ids then [] else [a[0]];
      assert (a + b)[0] == a[0] && (a + b)[1..] == a[1..] + b;
      assert Kept(a + b, ids) == x + Kept(a[1..] + b, ids) && Kept(a, ids) == x + Kept(a[1..], ids);
      hide Kept;
      KeptJoins(a[1..], b, ids);
      Regroup(x, Kept(a[1..], ids), Kept(b, ids));
    }
  }

  lemma {:induction false} MatchedJoins(a: seq<Frametable>, b: seq<Frametable>, ids: set<nat>)
    ensures Matched(a + b, ids) == Matched(a, ids) + Matched(b, ids)
  {
    if a == [] {
      assert a + b == b;
    } else {
      var x := if a[0].id in ids then [a[0]] else [];
      assert (a + b)[0] == a[0] && (a + b)[1..] == a[1..] + b;
      assert Matched(a + b, ids) == x + Matched(a[1..] + b, ids) && Matched(a, ids) == x + Matched(a[1..], ids);
      hide Matched;
      MatchedJoins(a[1..], b, ids);
      Regroup(x, Matched(a[1..], ids), Matched(b, ids));
    }
  }

  lemma {:induction false} NoneMatched(b: seq<Frametable>, ids: set<nat>)
    requires forall i :: 0 <= i < |b| ==> b[i].id !in ids
    ensures Kept(b, ids) == b && Matched(b, ids) == []
  {
    if b != [] { NoneMatched(b[1..], ids); }
  }

  lemma {:induction false} ReversedSnoc(a: seq<Frametable>, x: Frametable)
    ensures Reversed(a + [x]) == [x] + Reversed(a)
  {
    if a != [] {
      assert (a + [x])[1..] == a[1..] + [x];
      ReversedSnoc(a[1..], x);
    } else {
      assert (a + [x])[1..] == [];
    }
  }

  /** Two lists of the same descriptors, in whatever order. */
  ghost predicate SameDescrs(a: seq<Descr>, b: seq<Descr>) {
    AsEntries(a) == AsEntries(b) && |a| == |b|
  }

  lemma SameDescrsSym(a: seq<Descr>, b: seq<Descr>)
    requires SameDescrs(a, b)
    ensures SameDescrs(b, a)
  {
  }

  lemma {:induction false} KeptAndMatched(tables: seq<Frametable>, ids: set<nat>)
    ensures SameDescrs(Flat(Kept(tables, ids)) + Flat(Matched(tables, ids)), Flat(tables))
  {
    if tables != [] {
      var x, rest := tables[0], tables[1..];
      KeptAndMatched(rest, ids);
      var k, m := Flat(Kept(rest, ids)), Flat(Matched(rest, ids));
      FlatCons([x] + Kept(rest, ids));
      FlatCons([x] + Matched(rest, ids));
      assert ([x] + Kept(rest, ids))[1..] == Kept(rest, ids) && ([x] + Matched(rest, ids))[1..] == Matched(rest, ids);
      assert [] + Kept(rest, ids) == Kept(rest, ids) && [] + Matched(rest, ids) == Matched(rest, ids);
      assert Flat(tables) == x.descrs + Flat(rest);
      PutEitherSide(x.descrs, k, m, Flat(rest));
    }
  }

  lemma PutEitherSide(x: seq<Descr>, k: seq<Descr>, m: seq<Descr>, rest: seq<Descr>)
    requires SameDescrs(k + m, rest)
    ensures SameDescrs((x + k) + m, x + rest) && SameDescrs(k + (x + m), x + rest)
  {
    AsEntriesConcat(x, rest);
    AsEntriesConcat(k, m);
    AsEntriesConcat(x + k, m);
    AsEntriesConcat(x, k);
    AsEntriesConcat(k, x + m);
    AsEntriesConcat(x, m);
    hide AsEntries;
  }

  lemma {:induction false} ReversedDescrs(tables: seq<Frametable>)
    ensures SameDescrs(Flat(Reversed(tables)), Flat(tables))
  {
    if tables != [] {
      var x, rest := tables[0], tables[1..];
      ReversedDescrs(rest);
      FlatConcat(Reversed(rest), [x]);
      FlatCons([x]);
      assert [x][1..] == [];
      assert x.descrs + Flat([]) == x.descrs;
      AsEntriesConcat(Flat(Reversed(rest)), x.descrs);
      AsEntriesConcat(x.descrs, Flat(rest));
    }
  }

  /** Unregistering moves descriptors to the zombies and loses none. */
  lemma {:induction false} UnregisterKeepsDescrs(tables: seq<Frametable>, zombies: seq<Frametable>, ids: set<nat>)
    ensures SameDescrs(Flat(Kept(tables, ids)) + Flat(Reversed(Matched(tables, ids)) + zombies),
                       Flat(tables) + Flat(zombies))
  {
    var k, m := Kept(tables, ids), Matched(tables, ids);
    KeptAndMatched(tables, ids);
    ReversedDescrs(m);
    FlatConcat(Reversed(m), zombies);
    hide AsEntries, Flat, Kept, Matched, Reversed;
    AsEntriesConcat(Flat(k), Flat(Reversed(m)) + Flat(zombies));
    AsEntriesConcat(Flat(Reversed(m)), Flat(zombies));
    AsEntriesConcat(Flat(tables), Flat(zombies));
    AsEntriesConcat(Flat(k), Flat(m));
  }

  lemma SameDescrsStored(t: seq<Slot<nat, nat>>, a: seq<Descr>, b: seq<Descr>)
    requires SameDescrs(a, b) && Stores(t, a) && Distinct(a)
    ensures Stores(t, b) && Distinct(b)
  {
  }

  lemma {:induction false} KeptIds(tables: seq<Frametable>, ids: set<nat>)
    requires DistinctIds(tables)
    ensures DistinctIds(Kept(tables, ids))
    ensures forall x :: x in Kept(tables, ids) ==> x in tables
    ensures |Matched(tables, ids)| <= |tables|
  {
    if tables != [] {
      KeptIds(tables[1..], ids);
      forall i | 0 <= i < |Kept(tables[1..], ids)| ensures Kept(tables[1..], ids)[i].id != tables[0].id {
        assert Kept(tables[1..], ids)[i] in tables[1..];
      }
    }
  }

  function Names(ids: seq<nat>): set<nat> {
    set x | x in ids
  }

  /** The unlinking loop: `done` has been gone through, `todo` has not. */
  ghost predicate Unlinking(tables: seq<Frametable>, ids: set<nat>, left: seq<nat>, total: nat,
                            done: seq<Frametable>, todo: seq<Frametable>) {
    && tables == done + todo
    && |left| == total - |Matched(done, ids)|
    && (forall i :: 0 <= i < |todo| ==> (todo[i].id in left <==> todo[i].id in ids))
    && (todo == [] && done != [] ==> done[|done| - 1].id !in ids)
  }

  lemma StartUnlinking(tables: seq<Frametable>, ids: seq<nat>, names: set<nat>)
    requires names == Names(ids)
    ensures Unlinking(tables, names, ids[..|ids|], |ids|, [], tables)
    ensures Kept([], names) == [] && Reversed(Matched([], names)) == []
  {
    assert ids[..|ids|] == ids;
  }

  /** A step past `x`, which is named (and its name taken out of `left`) or not. */
  lemma UnlinkOne(tables: seq<Frametable>, ids: set<nat>, left: seq<nat>, left': seq<nat>, total: nat,
                  done: seq<Frametable>, todo: seq<Frametable>)
    requires Unlinking(tables, ids, left, total, done, todo) && todo != [] && DistinctIds(tables)
    requires if todo[0].id in left
             then |left'| == |left| - 1 && (forall y :: y != todo[0].id ==> (y in left' <==> y in left))
             else left' == left
    ensures var done' := done + [todo[0]];
      && (todo[1..] != [] || todo[0].id !in left ==> Unlinking(tables, ids, left', total, done', todo[1..]))
      && tables == done' + todo[1..]
      && |left'| == total - |Matched(done', ids)|
      && (todo[0].id in left <==> todo[0].id in ids)
      && Kept(done', ids) == Kept(done, ids) + (if todo[0].id in left then [] else [todo[0]])
      && Matched(done', ids) == Matched(done, ids) + (if todo[0].id in left then [todo[0]] else [])
      && Reversed(Matched(done', ids)) == (if todo[0].id in left then [todo[0]] else []) + Reversed(Matched(done, ids))
      && (left' == [] ==> forall i :: 0 <= i < |todo[1..]| ==> todo[1..][i].id !in ids)
  {
    var x := todo[0];
    KeptConcat(done, [x], ids);
    assert [x][1..] == [];
    assert Kept([x], ids) == (if x.id in ids then [] else [x]) && Matched([x], ids) == (if x.id in ids then [x] else []);
    ReversedSnoc(Matched(done, ids), x);
    assert Matched(done, ids) + [] == Matched(done, ids);
    forall i | 0 <= i < |todo[1..]| ensures todo[1..][i].id in left' <==> todo[1..][i].id in ids {
      assert todo[1..][i] == todo[i + 1] == tables[|done| + i + 1] && tables[|done|] == x;
    }
  }

  lemma SwappedOut(left: seq<nat>, left': seq<nat>, i: nat)
    requires i < |left| && |left'| == |left| - 1
    requires forall j :: 0 <= j < |left'| ==> left'[j] == if j == i then left[|left'|] else left[j]
    ensures forall y :: y != left[i] ==> (y in left' <==> y in left)
  {
    forall y | y != left[i] && y in left ensures y in left' {
      var j :| 0 <= j < |left| && left[j] == y;
      assert left'[if j == |left'| then i else j] == y;
    }
  }

  /** How unregistering ends: which case it was, and the two lists it leaves. */
  ghost predicate Outcome(tables: seq<Frametable>, zombies: seq<Frametable>, ids: set<nat>, total: nat,
                          crashed: bool, tables': seq<Frametable>, zombies': seq<Frametable>) {
    && (crashed <==> tables != [] && tables[|tables| - 1].id in ids && total > |Matched(tables, ids)|)
    && (!crashed ==> tables' == Kept(tables, ids) && zombies' == Reversed(Matched(tables, ids)) + zombies)
  }

  /** For instance when the only table is unregistered together with one that is not registered. */
  lemma UnregisterMayCrash(t: Frametable, other: nat, crashed: bool, tables': seq<Frametable>, zombies': seq<Frametable>)
    requires other != t.id && Outcome([t], [], {t.id, other}, 2, crashed, tables', zombies')
    ensures crashed
  {
    assert |Matched([t], {t.id, other})| <= 1 by {
      assert [t][1..] == [] && [t][..0] == [];
    }
  }

  lemma UnlinkEnd(tables: seq<Frametable>, ids: set<nat>, done: seq<Frametable>, todo: seq<Frametable>)
    requires tables == done + todo && forall i :: 0 <= i < |todo| ==> todo[i].id !in ids
    ensures Kept(tables, ids) == Kept(done, ids) + todo && Matched(tables, ids) == Matched(done, ids)
  {
    KeptConcat(done, todo, ids);
    NoneMatched(todo, ids);
    assert Matched(done, ids) + [] == Matched(done, ids);
  }

  /** The unlinking loop stands at table `k` of the list. */
  ghost predicate Going(tables: seq<Frametable>, zombies: seq<Frametable>, ids: set<nat>, total: nat,
                        done: seq<Frametable>, left: seq<nat>, list: seq<Frametable>, k: nat, dead: seq<Frametable>) {
    && k <= |list|
    && DistinctIds(tables)
    && Unlinking(tables, ids, left, total, done, list[k..])
    && list[..k] == Kept(done, ids)
    && dead == Reversed(Matched(done, ids)) + zombies
  }

  lemma GoingStarts(tables: seq<Frametable>, zombies: seq<Frametable>, ids: seq<nat>, names: set<nat>)
    requires names == Names(ids) && DistinctIds(tables)
    ensures Going(tables, zombies, names, |ids|, [], ids[..|ids|], tables, 0, zombies)
  {
    StartUnlinking(tables, ids, names);
    assert tables[0..] == tables && tables[..0] == [] && [] + zombies == zombies;
  }

  /** The table at `k` is not named. */
  lemma GoingOn(tables: seq<Frametable>, zombies: seq<Frametable>, ids: set<nat>, total: nat,
                done: seq<Frametable>, left: seq<nat>, list: seq<Frametable>, k: nat, dead: seq<Frametable>)
    requires Going(tables, zombies, ids, total, done, left, list, k, dead) && k < |list| && list[k].id !in left
    ensures Going(tables, zombies, ids, total, done + [list[k]], left, list, k + 1, dead)
  {
    UnlinkOne(tables, ids, left, left, total, done, list[k..]);
    hide Kept, Matched, Reversed;
    assert list[k..][1..] == list[k + 1..] && list[..k + 1] == list[..k] + [list[k]];
    assert [] + Reversed(Matched(done, ids)) == Reversed(Matched(done, ids));
  }

  /** The table at `k` is named, and so is something else, and the list goes on. */
  lemma GoingUnlinks(tables: seq<Frametable>, zombies: seq<Frametable>, ids: set<nat>, total: nat,
                     done: seq<Frametable>, left: seq<nat>, left': seq<nat>, list: seq<Frametable>, k: nat,
                     dead: seq<Frametable>)
    requires Going(tables, zombies, ids, total, done, left, list, k, dead) && k + 1 < |list| && list[k].id in left
    requires |left'| == |left| - 1 && forall y :: y != list[k].id ==> (y in left' <==> y in left)
    ensures Going(tables, zombies, ids, total, done + [list[k]], left', list[..k] + list[k + 1..], k, [list[k]] + dead)
  {
    var list', x := list[..k] + list[k + 1..], list[k];
    UnlinkOne(tables, ids, left, left', total, done, list[k..]);
    hide Kept, Matched, Reversed, Unlinking;
    assert list'[k..] == list[k..][1..] && list'[..k] == list[..k];
    assert [x] + dead == ([x] + Reversed(Matched(done, ids))) + zombies;
    assert Kept(done, ids) + [] == Kept(done, ids);
  }

  /** The table at `k` is the last one named: the rest of the list stays as it is. */
  lemma GoingStops(tables: seq<Frametable>, zombies: seq<Frametable>, ids: set<nat>, total: nat,
                   done: seq<Frametable>, left: seq<nat>, list: seq<Frametable>, k: nat, dead: seq<Frametable>)
    requires Going(tables, zombies, ids, total, done, left, list, k, dead) && k < |list| && list[k].id in left
    requires |left| == 1
    ensures Outcome(tables, zombies, ids, total, false, list[..k] + list[k + 1..], [list[k]] + dead)
  {
    var x := list[k];
    UnlinkOne(tables, ids, left, [], total, done, list[k..]);
    UnlinkEnd(tables, ids, done + [x], list[k..][1..]);
    hide Kept, Matched, Reversed, Unlinking;
    assert list[k..][1..] == list[k + 1..];
    assert [x] + dead == ([x] + Reversed(Matched(done, ids))) + zombies;
    assert Kept(done, ids) + [] == Kept(done, ids);
  }

  /** The last table is unlinked with names left over: the loop follows its NULL link. */
  lemma GoingFallsOff(tables: seq<Frametable>, zombies: seq<Frametable>, ids: set<nat>, total: nat,
                      done: seq<Frametable>, left: seq<nat>, left': seq<nat>, list: seq<Frametable>,
                      dead: seq<Frametable>, list': seq<Frametable>, dead': seq<Frametable>)
    requires list != []
    requires Going(tables, zombies, ids, total, done, left, list, |list| - 1, dead) && list[|list| - 1].id in left
    requires |left'| == |left| - 1 > 0 && forall y :: y != list[|list| - 1].id ==> (y in left' <==> y in left)
    ensures Outcome(tables, zombies, ids, total, true, list', dead')
  {
    var x, todo := list[|list| - 1], list[|list| - 1..];
    UnlinkOne(tables, ids, left, left', total, done, todo);
    hide Kept, Matched, Reversed;
    assert todo == [x] && todo[1..] == [] && tables == done + [x];
    assert done + [x] + [] == done + [x];
  }

  lemma GoingEnds(tables: seq<Frametable>, zombies: seq<Frametable>, ids: set<nat>, total: nat,
                  done: seq<Frametable>, left: seq<nat>, list: seq<Frametable>, k: nat, dead: seq<Frametable>)
    requires Going(tables, zombies, ids, total, done, left, list, k, dead) && k >= |list|
    ensures Outcome(tables, zombies, ids, total, false, list, dead)
  {
    assert list[..|list|] == list && tables == done;
  }

  // ----- The table ----------------------------------------------------------

  /** The same names in some order. */
  ghost predicate SameNames(a: seq<nat>, b: seq<nat>) {
    multiset(a) == multiset(b)
  }

  lemma SameNamesRefl(a: seq<nat>)
    ensures SameNames(a, a)
  {
  }

  lemma SameNamesTrans(a: seq<nat>, b: seq<nat>, c: seq<nat>)
    requires SameNames(a, b) && SameNames(b, c)
    ensures SameNames(a, c)
  {
  }

  class Table {
    var numDescr: int
    var mask: int
    var descriptors: array<Slot<nat, nat>>
    var frametables: seq<Frametable>
    var zombies: seq<Frametable>

    /** Every descriptor a search may still be asked for. */
    ghost function Registered(): seq<Descr>
      reads this
    {
      Flat(frametables) + Flat(zombies)
    }

    /** The array alone: its size, and room for searches to end. */
    ghost predicate Sized()
      reads this
    {
      && mask + 1 == descriptors.Length
      && (descriptors.Length == 0 || IsPowerOfTwo(descriptors.Length))
      && 0 <= 2 * numDescr <= descriptors.Length
    }

    ghost predicate Valid()
      reads this, descriptors
    {
      && Sized()
      && numDescr == |Registered()|
      && Distinct(Registered())
      && DistinctIds(frametables)
      && Stores(descriptors[..], Registered())
    }

    constructor ()
      ensures Valid() && frametables == [] && zombies == [] && fresh(descriptors)
    {
      numDescr, mask := 0, -1;
      descriptors := new Slot<nat, nat>[0];
      frametables, zombies := [], [];
      new;
      assert AsEntries([]) == {} == Entries(descriptors[..]);
    }

    /** `caml_find_frame_descr`: the descriptor registered for `pc`, or NULL. */
    method Find(pc: nat) returns (fd: nat)
      requires Valid() && descriptors.Length > 0
      ensures fd != NULL ==> Descr(pc, fd) in Registered()
      ensures fd == NULL ==> forall d :: d in Registered() ==> d.retaddr != pc
    {
      ghost var t, ds := descriptors[..], Registered();
      StoresRoom(t, ds);
      var h: nat := Hash(pc, descriptors.Length);
      ghost var home := h;
      while descriptors[h].Full? && descriptors[h].key != pc
        invariant h < |t| && Probed(t, pc, home, h)
        decreases |t| - Distance(|t|, home, h)
      {
        ProbeOn(t, pc, home, h);
        NextDistance(|t|, home, h);
        h := Next(descriptors.Length, h);
      }
      FoundAt(t, ds, pc, h);
      fd := if descriptors[h].Empty? then NULL else descriptors[h].val;
    }

    /** The inner loop of `fill_hashtable`. */
    method Insert(d: Descr, ghost ds: seq<Descr>)
      requires Stores(descriptors[..], ds) && Distinct(ds + [d]) && |ds| < descriptors.Length
      modifies descriptors
      ensures Stores(descriptors[..], ds + [d])
    {
      hide Stores, Distinct;
      ghost var t := descriptors[..];
      StoresRoom(t, ds);
      var h: nat := Hash(d.retaddr, descriptors.Length);
      ghost var home := h;
      while descriptors[h].Full?
        invariant h < |t| && descriptors[..] == t && Probed(t, d.retaddr, home, h)
        decreases |t| - Distance(|t|, home, h)
      {
        NewKey(t, ds, d, h);
        ProbeOn(t, d.retaddr, home, h);
        NextDistance(|t|, home, h);
        h := Next(descriptors.Length, h);
      }
      InsertStores(t, ds, d, h);
      descriptors[h] := Full(d.retaddr, d.fd);
      assert descriptors[..] == t[h := Full(d.retaddr, d.fd)];
    }

    /** `fill_hashtable` */
    method Fill(tables: seq<Frametable>, ghost ds: seq<Descr>)
      requires Stores(descriptors[..], ds) && Distinct(ds + Flat(tables))
      requires |ds| + |Flat(tables)| <= descriptors.Length
      modifies descriptors
      ensures Stores(descriptors[..], ds + Flat(tables))
    {
      hide Stores, Distinct;
      var cur := tables;
      ghost var done := ds;
      while cur != []
        invariant Stores(descriptors[..], done) && done + Flat(cur) == ds + Flat(tables)
      {
        var it := cur[0].descrs;
        while it != []
          invariant Stores(descriptors[..], done)
          invariant done + (it + Flat(cur[1..])) == ds + Flat(tables)
        {
          assert done + (it + Flat(cur[1..])) == (done + [it[0]]) + (it[1..] + Flat(cur[1..]));
          DistinctParts(done + [it[0]], it[1..] + Flat(cur[1..]));
          assert |done| + |it + Flat(cur[1..])| == |ds + Flat(tables)|;
          Insert(it[0], done);
          done := done + [it[0]];
          it := it[1..];
        }
        assert [] + Flat(cur[1..]) == Flat(cur[1..]);
        cur := cur[1..];
      }
      assert done + Flat([]) == done;
    }

    /** The search at the start of `remove_entry`, for a descriptor that is stored. */
    method Locate(d: Descr, ghost ds: seq<Descr>) returns (i: nat)
      requires Stores(descriptors[..], [d] + ds) && Distinct([d] + ds) && |ds| + 1 < descriptors.Length
      ensures i < descriptors.Length && descriptors[i].Full? && descriptors[i].val == d.fd
    {
      hide Stores, Distinct;
      ghost var t := descriptors[..];
      StoresRoom(t, [d] + ds);
      i := Hash(d.retaddr, descriptors.Length);
      ghost var home := i;
      while !(descriptors[i].Full? && descriptors[i].val == d.fd)
        invariant i < |t| && Probed(t, d.retaddr, home, i)
        decreases |t| - Distance(|t|, home, i)
      {
        NotYet(t, d, ds, i);
        ProbeOn(t, d.retaddr, home, i);
        NextDistance(|t|, home, i);
        i := Next(descriptors.Length, i);
      }
    }

    /** `remove_entry`: Algorithm R of Knuth, TAOCP vol. 3, section 6.4. */
    method RemoveEntry(d: Descr, ghost ds: seq<Descr>)
      requires Stores(descriptors[..], [d] + ds) && Distinct([d] + ds) && |ds| + 1 < descriptors.Length
      modifies descriptors
      ensures Stores(descriptors[..], ds)
    {
      ghost var t := descriptors[..];
      StoresRoom(t, [d] + ds);
      ghost var end: nat :| end < |t| && t[end].Empty?;
      var i := Locate(d, ds);
      hide Distinct, WellPlaced, WellPlacedBut, DistinctKeys, Examined, Entries;
      var j := i;
      ClosingStarts(t, d, ds, i, end);
      descriptors[j] := Empty;
      t := t[j := Empty];
      assert descriptors[..] == t;
      i := Next(descriptors.Length, i);
      ghost var before := j;
      while descriptors[i].Full?
        invariant descriptors[..] == t && Closing(t, j, before, end, AsEntries(ds)) && i == Next(|t|, before)
        decreases Distance(|t|, before, end)
      {
        ClosingStep(t, j, before, end, AsEntries(ds));
        if !AfterHole(j, Hash(descriptors[i].key, descriptors.Length), i) {
          descriptors[j] := descriptors[i];
          descriptors[i] := Empty;
          t := t[j := t[i]][i := Empty];
          assert descriptors[..] == t;
          j := i;
        }
        before := i;
        i := Next(descriptors.Length, i);
      }
      ClosingStep(t, j, before, end, AsEntries(ds));
    }

    /** The loop of `clean_frame_descriptors` over one zombie. */
    method RemoveAll(descrs: seq<Descr>, ghost rest: seq<Descr>)
      requires Stores(descriptors[..], descrs + rest) && Distinct(descrs + rest)
      requires 2 * |descrs + rest| <= descriptors.Length
      modifies descriptors
      ensures Stores(descriptors[..], rest) && Distinct(rest)
    {
      hide Stores, Distinct;
      var it := descrs;
      while it != []
        invariant Stores(descriptors[..], it + rest) && Distinct(it + rest) && |it| <= |descrs|
      {
        assert it + rest == [it[0]] + (it[1..] + rest);
        DistinctParts([it[0]], it[1..] + rest);
        RemoveEntry(it[0], it[1..] + rest);
        it := it[1..];
      }
      assert [] + rest == rest;
    }

    /** `clean_frame_descriptors`: the zombies leave the table for good. */
    method Clean()
      requires Valid()
      modifies this`numDescr, this`zombies, descriptors
      ensures Valid() && zombies == [] && frametables == old(frametables) && mask == old(mask)
    {
      ghost var live := Flat(frametables);
      hide Stores, Distinct, IsPowerOfTwo, Flat, DistinctIds;
      SwapParts(descriptors[..], live, Flat(zombies));
      var decrease, cur := 0, zombies;
      while cur != []
        invariant Stores(descriptors[..], Flat(cur) + live) && Distinct(Flat(cur) + live)
        invariant numDescr == decrease + |Flat(cur)| + |live| && decrease >= 0
        invariant unchanged(this)
      {
        FlatCons(cur);
        assert Flat(cur) + live == cur[0].descrs + (Flat(cur[1..]) + live);
        RemoveAll(cur[0].descrs, Flat(cur[1..]) + live);
        decrease := decrease + |cur[0].descrs|;
        cur := cur[1..];
      }
      numDescr := numDescr - decrease;
      zombies := [];
      FlatCons([]);
      assert [] + live == live == live + [];
    }

    /** The smallest power of two, at least 4, with two slots for each of `n` descriptors. */
    static method NewSize(n: nat) returns (size: nat)
      ensures IsPowerOfTwo(size) && size >= 4 && size >= 2 * n
      ensures size == 4 || size / 2 < 2 * n
    {
      hide IsPowerOfTwo;
      size := 4;
      SmallPowers();
      while size < 2 * n
        invariant IsPowerOfTwo(size) && size >= 4 && (size == 4 || size / 2 < 2 * n)
      {
        TwiceIsPower(size);
        size := size * 2;
      }
    }

    /** `add_frame_descriptors`: registers new tables, rebuilding the array when it is too small. */
    method Add(tables: seq<Frametable>)
      requires Valid() && zombies == [] && tables != []
      requires Distinct(Flat(tables + frametables)) && DistinctIds(tables + frametables)
      modifies this, descriptors
      ensures Valid() && zombies == [] && frametables == tables + old(frametables)
      ensures fresh(descriptors) || descriptors == old(descriptors)
    {
      hide Stores, Distinct, IsPowerOfTwo, Flat, DistinctIds;
      FlatConcat(tables, frametables);
      FlatCons([]);
      ghost var live := Flat(frametables);
      assert live + [] == live;
      ghost var all := Flat(tables + frametables);
      assert all + [] == all == [] + all;
      var increase := |Flat(tables)|;
      if mask + 1 < (numDescr + increase) * 2 {
        numDescr := numDescr + increase;
        frametables := tables + frametables;
        var size := NewSize(numDescr);
        mask := size - 1;
        descriptors := new Slot<nat, nat>[size](_ => Empty);
        EmptyStores(descriptors[..]);
        Fill(frametables, []);
      } else {
        SwapDistinct(Flat(tables), live);
        numDescr := numDescr + increase;
        Fill(tables, live);
        SwapParts(descriptors[..], live, Flat(tables));
        frametables := tables + frametables;
      }
    }

    /** `register_frametables_from_stw_single` */
    method Register(tables: seq<Frametable>)
      requires Valid() && tables != []
      requires Distinct(Flat(tables + frametables)) && DistinctIds(tables + frametables)
      modifies this, descriptors
      ensures Valid() && zombies == [] && frametables == tables + old(frametables)
    {
      Clean();
      Add(tables);
    }

    /** The first of the names not found yet that is `id`. */
    static method IndexOfName(ids: array<nat>, n: nat, id: nat) returns (i: nat)
      requires n <= ids.Length
      ensures i <= n && (i < n ==> ids[i] == id) && (i == n ==> id !in ids[..n])
    {
      i := 0;
      while i < n && ids[i] != id
        invariant i <= n && id !in ids[..i]
      {
        i := i + 1;
      }
    }

    static method SwapNames(ids: array<nat>, i: nat, j: nat)
      requires i < ids.Length && j < ids.Length
      modifies ids
      ensures ids[..] == old(ids[..])[i := old(ids[j])][j := old(ids[i])]
      ensures multiset(ids[..]) == multiset(old(ids[..]))
    {
      ids[i], ids[j] := ids[j], ids[i];
    }

    /** Unlinks table `k`, whose name is `ids[i]`, and puts that name behind the `n` left. */
    method UnlinkAt(ids: array<nat>, i: nat, n: nat, k: nat, ghost tables: seq<Frametable>, ghost dead: seq<Frametable>,
                    ghost names: set<nat>, ghost total: nat, ghost done: seq<Frametable>)
      requires i <= n < ids.Length && k < |frametables| && ids[i] == frametables[k].id
      requires Going(tables, dead, names, total, done, ids[..n + 1], frametables, k, zombies)
      modifies this`frametables, this`zombies, ids
      ensures SameNames(ids[..], old(ids[..]))
      ensures |frametables| == |old(frametables)| - 1
      ensures if n == 0 then Outcome(tables, dead, names, total, false, frametables, zombies)
              else if k == |frametables| then Outcome(tables, dead, names, total, true, frametables, zombies)
              else Going(tables, dead, names, total, done + [old(frametables[k])], ids[..n], frametables, k, zombies)
    {
      ghost var left := ids[..n + 1];
      assert left[i] == frametables[k].id;
      hide Going, Outcome;
      SwapNames(ids, i, n);
      SwappedOut(left, ids[..n], i);
      if n == 0 { GoingStops(tables, dead, names, total, done, left, frametables, k, zombies); }
      else if k + 1 < |frametables| {
        GoingUnlinks(tables, dead, names, total, done, left, ids[..n], frametables, k, zombies);
      } else {
        GoingFallsOff(tables, dead, names, total, done, left, ids[..n], frametables, zombies,
                      frametables[..k] + frametables[k + 1..], [frametables[k]] + zombies);
      }
      zombies := [frametables[k]] + zombies;
      frametables := frametables[..k] + frametables[k + 1..];
    }

    /** One turn of the loop: table `k` is unlinked if it is named among the `n` left, else passed over. */
    method VisitTable(ids: array<nat>, n: nat, k: nat, ghost tables: seq<Frametable>, ghost dead: seq<Frametable>,
                      ghost names: set<nat>, ghost total: nat, ghost done: seq<Frametable>)
      returns (n': nat, k': nat, stop: bool, crashed: bool)
      requires n <= ids.Length && k < |frametables|
      requires Going(tables, dead, names, total, done, ids[..n], frametables, k, zombies)
      modifies this`frametables, this`zombies, ids
      ensures n' <= n && SameNames(ids[..], old(ids[..]))
      ensures stop ==> Outcome(tables, dead, names, total, crashed, frametables, zombies)
      ensures !stop ==>
        && !crashed
        && Going(tables, dead, names, total, done + [old(frametables[k])], ids[..n'], frametables, k', zombies)
        && |frametables| - k' < old(|frametables|) - k
    {
      hide Going, Outcome, SameNames;
      n', k', stop, crashed := n, k, false, false;
      var i := IndexOfName(ids, n, frametables[k].id);
      if i < n {
        n' := n - 1;
        UnlinkAt(ids, i, n', k, tables, dead, names, total, done);
        stop := n' == 0 || k == |frametables|;
        crashed := n' != 0 && k == |frametables|;
      } else {
        GoingOn(tables, dead, names, total, done, ids[..n], frametables, k, zombies);
        SameNamesRefl(ids[..]);
        k' := k + 1;
      }
    }

    /** The list surgery of `remove_frame_descriptors`. */
    method UnlinkNamed(ids: array<nat>) returns (crashed: bool)
      requires DistinctIds(frametables)
      modifies this`frametables, this`zombies, ids
      ensures SameNames(ids[..], old(ids[..]))
      ensures Outcome(old(frametables), old(zombies), Names(old(ids[..])), ids.Length,
                      crashed, frametables, zombies)
    {
      hide Going, Outcome, DistinctIds, Names, SameNames;
      ghost var names, total, all := Names(ids[..]), ids.Length, ids[..];
      ghost var tables, dead, done := frametables, zombies, [];
      var n: nat, k: nat := ids.Length, 0;
      GoingStarts(tables, dead, ids[..], names);
      SameNamesRefl(all);
      assert ids[..n] == ids[..];
      crashed := false;
      var stop := false;
      while k < |frametables| && !stop
        invariant n <= ids.Length && SameNames(ids[..], all)
        invariant stop ==> Outcome(tables, dead, names, total, crashed, frametables, zombies)
        invariant !stop ==> !crashed && Going(tables, dead, names, total, done, ids[..n], frametables, k, zombies)
        decreases !stop, |frametables| - k
      {
        ghost var current, before := frametables[k], ids[..];
        n, k, stop, crashed := VisitTable(ids, n, k, tables, dead, names, total, done);
        SameNamesTrans(ids[..], before, all);
        done := done + [current];
      }
      if !stop { GoingEnds(tables, dead, names, total, done, ids[..n], frametables, k, zombies); }
    }

    /**
     * `remove_frame_descriptors`: the tables named in `ids` become zombies, and searches still
     * find their descriptors. The runtime follows a NULL link, modelled by `crashed`, exactly
     * when the last table of the list is named and more tables are named than are registered.
     */
    method Unregister(ids: array<nat>) returns (crashed: bool)
      requires Valid()
      modifies this`frametables, this`zombies, ids
      ensures SameNames(ids[..], old(ids[..]))
      ensures Outcome(old(frametables), old(zombies), Names(old(ids[..])), ids.Length,
                      crashed, frametables, zombies)
      ensures !crashed ==> Valid() && SameDescrs(Registered(), old(Registered()))
    {
      hide Kept, Matched, Reversed, Flat, Stores, Distinct, SameDescrs, IsPowerOfTwo, DistinctIds, Names, SameNames, Outcome;
      ghost var names, total, tables, dead := Names(ids[..]), ids.Length, frametables, zombies;
      ghost var ds := Flat(Kept(tables, names)) + Flat(Reversed(Matched(tables, names)) + dead);
      UnregisterKeepsDescrs(tables, dead, names);
      SameDescrsSym(ds, Registered());
      SameDescrsStored(descriptors[..], Registered(), ds);
      SameDescrsCount(ds, Registered());
      KeptIds(tables, names);
      crashed := UnlinkNamed(ids);
      if !crashed { OutcomeLists(tables, dead, names, total, frametables, zombies); }
    }
  }

  lemma OutcomeLists(tables: seq<Frametable>, zombies: seq<Frametable>, ids: set<nat>, total: nat,
                     tables': seq<Frametable>, zombies': seq<Frametable>)
    requires Outcome(tables, zombies, ids, total, false, tables', zombies')
    ensures tables' == Kept(tables, ids) && zombies' == Reversed(Matched(tables, ids)) + zombies
  {
  }

  lemma SameDescrsCount(a: seq<Descr>, b: seq<Descr>)
    requires SameDescrs(a, b)
    ensures |a| == |b|
  {
  }
}
