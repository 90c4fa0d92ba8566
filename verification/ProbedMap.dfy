/**
Linear probing as a representation of maps: which map the slots of a table stand for, and
what searching, storing, moving to a new table and deleting do to it.
*/
module ProbedMap {
  import opened LinearProbing

  lemma ReplaceEntry<K, V>(t: seq<Slot<K, V>>, home: K -> nat, h: nat, v: V)
    requires WellPlaced(t, home) && DistinctKeys(t) && h < |t| && t[h].Full?
    ensures var t' := t[h := Full(t[h].key, v)];
      && WellPlaced(t', home) && DistinctKeys(t')
      && Entries(t') == Entries(t) - {(t[h].key, t[h].val)} + {(t[h].key, v)}
  {
    var t' := t[h := Full(t[h].key, v)];
    forall p, e | 0 <= p < |t'| && 0 <= e < |t'| && t'[p].Full? && t'[e].Empty? ensures Before(t', home, p, e) {
      assert Before(t, home, p, e);
    }
    forall x | x in Entries(t) && x != (t[h].key, t[h].val) ensures x in Entries(t') {
      var p :| 0 <= p < |t| && t[p].Full? && (t[p].key, t[p].val) == x;
      assert t'[p] == t[p];
    }
    assert t'[h].Full?;
    forall x | x in Entries(t') ensures x in Entries(t) - {(t[h].key, t[h].val)} + {(t[h].key, v)} {
      var p :| 0 <= p < |t'| && t'[p].Full? && (t'[p].key, t'[p].val) == x;
      if p != h { assert t[p] == t'[p] && t[p].key != t[h].key; }
    }
  }

  ghost function Bindings<K, V>(m: map<K, V>): set<(K, V)> {
    set k | k in m :: (k, m[k])
  }

  lemma BindingsTell<K, V>(m: map<K, V>, x: (K, V))
    ensures x in Bindings(m) <==> x.0 in m && m[x.0] == x.1
  {
  }

  lemma BindingsUpdate<K, V>(m: map<K, V>, k: K, v: V)
    ensures Bindings(m[k := v]) == Bindings(m) - (if k in m then {(k, m[k])} else {}) + {(k, v)}
  {
    var r := Bindings(m) - (if k in m then {(k, m[k])} else {}) + {(k, v)};
    forall x ensures x in Bindings(m[k := v]) <==> x in r {
      BindingsTell(m[k := v], x);
      BindingsTell(m, x);
    }
  }

  /** The slots hold exactly the bindings of `m`, each where a search finds it. */
  ghost predicate Represents<K, V>(t: seq<Slot<K, V>>, home: K -> nat, m: map<K, V>) {
    WellPlaced(t, home) && DistinctKeys(t) && Entries(t) == Bindings(m)
  }

  /** The slot a search for `k` ends at: that of `k`, or the empty one where `k` belongs. */
  ghost predicate SlotFor<K, V>(t: seq<Slot<K, V>>, home: K -> nat, k: K, h: nat) {
    && h < |t| && home(k) < |t|
    && if t[h].Full? then t[h].key == k else Probed(t, k, home(k), h)
  }

  lemma SlotTells<K, V>(t: seq<Slot<K, V>>, home: K -> nat, m: map<K, V>, k: K, h: nat)
    requires Represents(t, home, m) && SlotFor(t, home, k, h)
    ensures t[h].Full? <==> k in m
    ensures t[h].Full? ==> t[h].val == m[k]
  {
    if k in m { BindingsTell(m, (k, m[k])); }
    if t[h].Full? {
      assert (t[h].key, t[h].val) in Entries(t);
      BindingsTell(m, (k, t[h].val));
    } else {
      StopAtEmpty(t, home, k, h);
    }
  }

  lemma StoreAt<K, V>(t: seq<Slot<K, V>>, home: K -> nat, m: map<K, V>, k: K, h: nat, v: V)
    requires Represents(t, home, m) && SlotFor(t, home, k, h)
    ensures Represents(t[h := Full(k, v)], home, m[k := v])
  {
    SlotTells(t, home, m, k, h);
    BindingsUpdate(m, k, v);
    hide Bindings, WellPlaced, DistinctKeys, Entries;
    if t[h].Full? {
      ReplaceEntry(t, home, h, v);
    } else {
      InsertKeeps(t, home, h, k, v);
    }
  }

  lemma RepresentsRoom<K, V>(t: seq<Slot<K, V>>, home: K -> nat, m: map<K, V>)
    requires Represents(t, home, m) && |m| < |t|
    ensures exists e :: 0 <= e < |t| && t[e].Empty?
  {
    BindingsCount(m);
    HasRoom(t);
  }

  lemma {:induction false} BindingsCount<K, V>(m: map<K, V>)
    ensures |Bindings(m)| == |m|
    decreases |m|
  {
    if m.Keys == {} {
      assert |m| == |m.Keys|;
    } else {
      var k :| k in m.Keys;
      var m' := m - {k};
      assert m'.Keys == m.Keys - {k};
      assert |m'| == |m'.Keys| && |m| == |m.Keys|;
      BindingsCount(m');
      BindingsUpdate(m', k, m[k]);
      assert m == m'[k := m[k]];
      BindingsTell(m', (k, m[k]));
    }
  }

  lemma HoldsOnly<K, V>(t: seq<Slot<K, V>>, home: K -> nat, m: map<K, V>, h: nat)
    requires Represents(t, home, m) && h < |t| && t[h].Full?
    ensures t[h].key in m
  {
    assert (t[h].key, t[h].val) in Entries(t);
    BindingsTell(m, (t[h].key, t[h].val));
  }

  lemma EntriesSnoc<K, V>(t: seq<Slot<K, V>>, i: nat)
    requires i < |t|
    ensures Entries(t[..i + 1]) == Entries(t[..i]) + (if t[i].Full? then {(t[i].key, t[i].val)} else {})
  {
    var a, b := t[..i], t[..i + 1];
    forall x | x in Entries(a) ensures x in Entries(b) {
      var p :| 0 <= p < |a| && a[p].Full? && (a[p].key, a[p].val) == x;
      assert b[p] == a[p];
    }
    forall x | x in Entries(b) ensures x in Entries(a) + (if t[i].Full? then {(t[i].key, t[i].val)} else {}) {
      var p :| 0 <= p < |b| && b[p].Full? && (b[p].key, b[p].val) == x;
      if p < i { assert a[p] == b[p]; }
    }
    assert b[i] == t[i];
  }

  lemma SameBindings<K, V>(a: map<K, V>, b: map<K, V>)
    requires Bindings(a) == Bindings(b)
    ensures a == b
  {
    forall k | k in a ensures k in b && b[k] == a[k] { BindingsTell(b, (k, a[k])); }
    forall k | k in b ensures k in a { BindingsTell(a, (k, b[k])); }
  }

  lemma NotMovedYet<K, V>(t: seq<Slot<K, V>>, i: nat, m: map<K, V>, moved: map<K, V>)
    requires DistinctKeys(t) && Entries(t) == Bindings(m)
    requires i < |t| && t[i].Full? && Bindings(moved) == Entries(t[..i])
    ensures t[i].key !in moved && |moved| <= |m|
  {
    forall k | k in moved ensures k in m && k != t[i].key {
      assert (k, moved[k]) in Entries(t[..i]);
      var p :| 0 <= p < i && t[..i][p].Full? && (t[..i][p].key, t[..i][p].val) == (k, moved[k]);
      assert t[p] == t[..i][p];
      assert (k, moved[k]) in Entries(t);
      BindingsTell(m, (k, moved[k]));
    }
    assert moved.Keys <= m.Keys;
    assert |m.Keys| == |moved.Keys| + |m.Keys - moved.Keys|;
  }

  /** `moved` is the part of `m` stored in the first `i` slots of `t`. */
  ghost predicate MovedUpTo<K, V>(t: seq<Slot<K, V>>, m: map<K, V>, i: nat, moved: map<K, V>) {
    && i <= |t| && DistinctKeys(t) && Entries(t) == Bindings(m) && Bindings(moved) == Entries(t[..i])
  }

  lemma MovedNone<K, V>(t: seq<Slot<K, V>>, home: K -> nat, m: map<K, V>)
    requires Represents(t, home, m)
    ensures MovedUpTo(t, m, 0, map[])
  {
    assert Entries(t[..0]) == {};
  }

  lemma MovedOne<K, V>(t: seq<Slot<K, V>>, m: map<K, V>, i: nat, moved: map<K, V>)
    requires MovedUpTo(t, m, i, moved) && i < |t|
    ensures t[i].Empty? ==> MovedUpTo(t, m, i + 1, moved)
    ensures t[i].Full? ==>
      MovedUpTo(t, m, i + 1, moved[t[i].key := t[i].val]) && t[i].key !in moved && |moved| <= |m|
  {
    hide Entries, Bindings, DistinctKeys;
    EntriesSnoc(t, i);
    if t[i].Full? {
      NotMovedYet(t, i, m, moved);
      BindingsUpdate(moved, t[i].key, t[i].val);
    }
  }

  lemma MovedAll<K, V>(t: seq<Slot<K, V>>, m: map<K, V>, moved: map<K, V>)
    requires MovedUpTo(t, m, |t|, moved)
    ensures moved == m
  {
    assert t[..|t|] == t;
    SameBindings(moved, m);
  }

  lemma EmptyRepresents<K, V>(t: seq<Slot<K, V>>, home: K -> nat)
    requires forall p :: 0 <= p < |t| ==> t[p].Empty?
    ensures Represents(t, home, map[])
  {
    EmptyTable(t, home);
  }

  // ----- Deletion by moving the rest of the cluster ---------------------------

  /**
  An entry was deleted at `from`, and the entries behind it up to `next` have been put in
  again. Those from `next` to the empty slot `end` are still to come; only they may have
  a gap between their home and their place, and only in front of `next`.
  */
  ghost predicate Rehashing<K, V>(t: seq<Slot<K, V>>, home: K -> nat, from: nat, next: nat, end: nat) {
    var n := |t|;
    && from < n && next < n && end < n && t[end].Empty? && HomesInRange(t, home) && DistinctKeys(t)
    && 0 < Distance(n, from, next) <= Distance(n, from, end)
    && (forall x :: 0 <= x < n && Distance(n, from, next) <= Distance(n, from, x) < Distance(n, from, end) ==> t[x].Full?)
    && (forall p, e :: 0 <= p < n && 0 <= e < n && t[p].Full? && t[e].Empty? ==>
          Before(t, home, p, e) || Excused(n, from, next, end, p, e))
  }

  ghost predicate Excused(n: nat, from: nat, next: nat, end: nat, p: nat, e: nat)
    requires from < n && next < n && end < n && p < n && e < n
  {
    && Distance(n, from, next) <= Distance(n, from, p) < Distance(n, from, end)
    && Distance(n, from, e) < Distance(n, from, next)
  }

  /** The first empty slot behind `from`. */
  lemma {:induction false} EndOfCluster<K, V>(t: seq<Slot<K, V>>, from: nat, e: nat) returns (end: nat)
    requires from < |t| && e < |t| && t[e].Empty? && e != from
    ensures end < |t| && end != from && t[end].Empty?
    ensures forall x :: 0 <= x < |t| && 0 < Distance(|t|, from, x) < Distance(|t|, from, end) ==> t[x].Full?
    decreases Distance(|t|, from, e)
  {
    if x :| 0 <= x < |t| && 0 < Distance(|t|, from, x) < Distance(|t|, from, e) && t[x].Empty? {
      end := EndOfCluster(t, from, x);
    } else {
      end := e;
    }
  }

  lemma RehashStarts<K, V>(t: seq<Slot<K, V>>, home: K -> nat, from: nat) returns (end: nat)
    requires WellPlaced(t, home) && DistinctKeys(t) && from < |t| && t[from].Full?
    requires exists e :: 0 <= e < |t| && t[e].Empty?
    ensures Rehashing(t[from := Empty], home, from, Next(|t|, from), end)
    ensures Entries(t[from := Empty]) == Entries(t) - {(t[from].key, t[from].val)}
  {
    var e :| 0 <= e < |t| && t[e].Empty?;
    var t' := t[from := Empty];
    MakeHole(t, home, from);
    end := EndOfCluster(t', from, e);
    NextDistance(|t|, from, from);
    forall p, e | 0 <= p < |t| && 0 <= e < |t| && t'[p].Full? && t'[e].Empty?
      ensures Before(t', home, p, e) || Excused(|t|, from, Next(|t|, from), end, p, e)
    {
      if e == from && Distance(|t|, from, p) > Distance(|t|, from, end) {
        assert Before(t, home, p, end);
        NotThrough(|t|, home(t[p].key), from, end, p);
      }
    }
  }

  lemma RehashEnds<K, V>(t: seq<Slot<K, V>>, home: K -> nat, from: nat, next: nat, end: nat)
    requires Rehashing(t, home, from, next, end) && t[next].Empty?
    ensures WellPlaced(t, home)
  {
    assert Distance(|t|, from, next) == Distance(|t|, from, end);
  }

  /** The entry at `next` finds a place no farther from its home. */
  lemma RehashPlace<K, V>(t: seq<Slot<K, V>>, home: K -> nat, from: nat, next: nat, end: nat, j: nat)
    requires Rehashing(t, home, from, next, end) && t[next].Full? && j < |t|
    requires t[next := Empty][j].Empty? && Probed(t[next := Empty], t[next].key, home(t[next].key), j)
    ensures Distance(|t|, from, next) < Distance(|t|, from, end)
    ensures Distance(|t|, from, j) <= Distance(|t|, from, next)
    ensures Distance(|t|, from, Next(|t|, next)) == Distance(|t|, from, next) + 1
  {
    var n, h := |t|, home(t[next].key);
    assert next != end;
    assert !Passed(n, h, j, next);
    if j != next { assert !Before(t, home, next, j) && Excused(n, from, next, end, next, j); }
    NextDistance(n, from, next);
  }

  /** An entry other than the moved one minds no empty slot, but those it may mind. */
  lemma RehashOther<K, V>(t: seq<Slot<K, V>>, home: K -> nat, from: nat, next: nat, end: nat, p: nat, e: nat)
    requires Rehashing(t, home, from, next, end) && t[next].Full? && p < |t| && e < |t| && t[p].Full? && p != next
    requires t[e].Empty? || e == next
    requires Distance(|t|, from, next) < Distance(|t|, from, end)
    requires Distance(|t|, from, Next(|t|, next)) == Distance(|t|, from, next) + 1
    ensures Before(t, home, p, e) || Excused(|t|, from, Next(|t|, next), end, p, e)
  {
    var n := |t|;
    if e == next {
      if !(Distance(n, from, next) <= Distance(n, from, p) < Distance(n, from, end)) {
        assert Before(t, home, p, end);
        NotThrough(n, home(t[p].key), next, end, p);
      }
    } else {
      assert Before(t, home, p, e) || Excused(n, from, next, end, p, e);
    }
  }

  /** Taking the entry at `next` out and putting it in where its walk first meets an empty slot. */
  lemma RehashStep<K, V>(t: seq<Slot<K, V>>, home: K -> nat, from: nat, next: nat, end: nat, j: nat)
    requires Rehashing(t, home, from, next, end) && t[next].Full? && j < |t|
    requires t[next := Empty][j].Empty? && Probed(t[next := Empty], t[next].key, home(t[next].key), j)
    ensures Rehashing(t[next := Empty][j := t[next]], home, from, Next(|t|, next), end)
    ensures Distance(|t|, from, Next(|t|, next)) == Distance(|t|, from, next) + 1
  {
    var n, h := |t|, home(t[next].key);
    var t' := t[next := Empty][j := t[next]];
    RehashPlace(t, home, from, next, end, j);
    forall p, e | 0 <= p < n && 0 <= e < n && t'[p].Full? && t'[e].Empty?
      ensures Before(t', home, p, e) || Excused(n, from, Next(n, next), end, p, e)
    {
      if p == j {
        assert !Passed(n, h, j, e);
      } else {
        RehashOther(t, home, from, next, end, p, e);
      }
    }
  }

  lemma RehashEntries<K, V>(t: seq<Slot<K, V>>, next: nat, j: nat)
    requires next < |t| && t[next].Full? && j < |t| && t[next := Empty][j].Empty?
    ensures Entries(t[next := Empty][j := t[next]]) == Entries(t)
  {
    var t' := t[next := Empty][j := t[next]];
    forall x | x in Entries(t) ensures x in Entries(t') {
      var p :| 0 <= p < |t| && t[p].Full? && (t[p].key, t[p].val) == x;
      assert t'[if p == next then j else p] == t[p];
    }
    forall x | x in Entries(t') ensures x in Entries(t) {
      var p :| 0 <= p < |t'| && t'[p].Full? && (t'[p].key, t'[p].val) == x;
      assert t'[p] == t[if p == j then next else p];
    }
  }
}
