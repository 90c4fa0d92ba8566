/**
Open addressing with linear probing, as the runtime's hash tables use it: a table is a
sequence of slots, a key's home slot comes from its hash, and a search walks cyclically
from there to the first empty slot. The theory is about the one property everything else
rests on: no empty slot lies between an entry and its home.
*/
module LinearProbing {

  datatype Slot<+K, +V> = Empty | Full(key: K, val: V)

  /** How far the walk from slot `a` goes before it meets slot `b`. */
  function Distance(n: nat, a: nat, b: nat): (d: nat)
    requires a < n && b < n
    ensures d < n && (d == 0 <==> a == b)
  {
    if a <= b then b - a else b + n - a
  }

  /** `(i + 1) & mask` */
  function Next(n: nat, i: nat): (j: nat)
    requires i < n
    ensures j < n
  {
    if i + 1 == n then 0 else i + 1
  }

  lemma NextDistance(n: nat, a: nat, i: nat)
    requires a < n && i < n && Next(n, i) != a
    ensures Distance(n, a, Next(n, i)) == Distance(n, a, i) + 1
  {
  }

  ghost predicate HomesInRange<K, V>(t: seq<Slot<K, V>>, home: K -> nat) {
    forall p :: 0 <= p < |t| && t[p].Full? ==> home(t[p].key) < |t|
  }

  /** The walk from the home of the entry at `p` reaches `p` before `e`. */
  ghost predicate Before<K, V>(t: seq<Slot<K, V>>, home: K -> nat, p: nat, e: nat)
    requires p < |t| && e < |t| && t[p].Full?
  {
    home(t[p].key) < |t|
    && Distance(|t|, home(t[p].key), p) < Distance(|t|, home(t[p].key), e)
  }

  /** Every entry is reached from its home before any empty slot is. */
  ghost predicate WellPlaced<K, V>(t: seq<Slot<K, V>>, home: K -> nat) {
    && HomesInRange(t, home)
    && forall p, e :: 0 <= p < |t| && 0 <= e < |t| && t[p].Full? && t[e].Empty? ==> Before(t, home, p, e)
  }

  ghost predicate DistinctKeys<K, V>(t: seq<Slot<K, V>>) {
    forall p, q :: 0 <= p < q < |t| && t[p].Full? && t[q].Full? ==> t[p].key != t[q].key
  }

  /** The entries, without their places. */
  ghost function Entries<K, V>(t: seq<Slot<K, V>>): set<(K, V)> {
    set p | 0 <= p < |t| && t[p].Full? :: (t[p].key, t[p].val)
  }

  /** Slots the walk from `h` has passed before it stands at `i`. */
  ghost predicate Passed(n: nat, h: nat, i: nat, x: nat)
    requires h < n && i < n && x < n
  {
    Distance(n, h, x) < Distance(n, h, i)
  }

  /** The walk for `k` has met only other keys so far. */
  ghost predicate Probed<K, V>(t: seq<Slot<K, V>>, k: K, h: nat, i: nat)
    requires h < |t| && i < |t|
  {
    forall x :: 0 <= x < |t| && Passed(|t|, h, i, x) ==> t[x].Full? && t[x].key != k
  }

  /** A search may stop at the first empty slot: the key is nowhere in the table. */
  lemma StopAtEmpty<K, V>(t: seq<Slot<K, V>>, home: K -> nat, k: K, i: nat)
    requires WellPlaced(t, home) && home(k) < |t| && i < |t| && t[i].Empty?
    requires Probed(t, k, home(k), i)
    ensures forall v :: (k, v) !in Entries(t)
  {
    forall p | 0 <= p < |t| && t[p].Full? ensures t[p].key != k {
      assert Before(t, home, p, i);
      assert Passed(|t|, home(k), i, p) || home(t[p].key) != home(k);
    }
  }

  /** The walk goes on by one slot, as long as an empty slot is still ahead. */
  lemma ProbeOn<K, V>(t: seq<Slot<K, V>>, k: K, h: nat, i: nat)
    requires h < |t| && i < |t| && Probed(t, k, h, i) && t[i].Full? && t[i].key != k
    requires exists e :: 0 <= e < |t| && t[e].Empty?
    ensures Next(|t|, i) != h && Probed(t, k, h, Next(|t|, i))
  {
    var n := |t|;
    var e :| 0 <= e < n && t[e].Empty?;
    assert !Passed(n, h, i, e) && e != i;
    NextDistance(n, h, i);
    forall x | 0 <= x < n && Passed(n, h, Next(n, i), x) ensures t[x].Full? && t[x].key != k {
      if x != i { assert Passed(n, h, i, x); }
    }
  }

  /** Putting a new entry where its walk first meets an empty slot. */
  lemma InsertKeeps<K, V>(t: seq<Slot<K, V>>, home: K -> nat, i: nat, k: K, v: V)
    requires WellPlaced(t, home) && DistinctKeys(t) && home(k) < |t|
    requires i < |t| && t[i].Empty? && Probed(t, k, home(k), i)
    ensures WellPlaced(t[i := Full(k, v)], home) && DistinctKeys(t[i := Full(k, v)])
    ensures Entries(t[i := Full(k, v)]) == Entries(t) + {(k, v)}
  {
    var t' := t[i := Full(k, v)];
    StopAtEmpty(t, home, k, i);
    forall p | 0 <= p < |t| && t[p].Full? ensures t[p].key != k { assert (t[p].key, t[p].val) in Entries(t); }
    forall p, e | 0 <= p < |t'| && 0 <= e < |t'| && t'[p].Full? && t'[e].Empty? ensures Before(t', home, p, e) {
      if p == i {
        assert !Passed(|t|, home(k), i, e);
        assert e != i;
      } else {
        assert Before(t, home, p, e);
      }
    }
    assert forall x :: x in Entries(t) ==> x in Entries(t') by {
      forall x | x in Entries(t) ensures x in Entries(t') {
        var p :| 0 <= p < |t| && t[p].Full? && (t[p].key, t[p].val) == x;
        assert t'[p] == t[p];
      }
    }
    assert t'[i].Full?;
  }

  // ----- Deletion -----------------------------------------------------------

  /** All placement conditions hold except those that look at the hole `j`. */
  ghost predicate WellPlacedBut<K, V>(t: seq<Slot<K, V>>, home: K -> nat, j: nat) {
    && HomesInRange(t, home)
    && forall p, e :: 0 <= p < |t| && 0 <= e < |t| && e != j && t[p].Full? && t[e].Empty? ==> Before(t, home, p, e)
  }

  /** The slots after the hole up to `i` are full and do not mind the hole. */
  ghost predicate Examined<K, V>(t: seq<Slot<K, V>>, home: K -> nat, j: nat, i: nat)
    requires j < |t| && i < |t|
  {
    forall x :: 0 <= x < |t| && 0 < Distance(|t|, j, x) <= Distance(|t|, j, i) ==>
      t[x].Full? && Before(t, home, x, j)
  }

  lemma MakeHole<K, V>(t: seq<Slot<K, V>>, home: K -> nat, j: nat)
    requires WellPlaced(t, home) && DistinctKeys(t) && j < |t| && t[j].Full?
    ensures WellPlacedBut(t[j := Empty], home, j) && DistinctKeys(t[j := Empty])
    ensures Examined(t[j := Empty], home, j, j)
    ensures Entries(t[j := Empty]) == Entries(t) - {(t[j].key, t[j].val)}
  {
    var t' := t[j := Empty];
    forall p, e | 0 <= p < |t'| && 0 <= e < |t'| && e != j && t'[p].Full? && t'[e].Empty?
      ensures Before(t', home, p, e)
    {
      assert Before(t, home, p, e);
    }
    forall x | x in Entries(t) && x != (t[j].key, t[j].val) ensures x in Entries(t') {
      var p :| 0 <= p < |t| && t[p].Full? && (t[p].key, t[p].val) == x;
      assert t'[p] == t[p];
    }
  }

  /** If `e` lies between `j` and `p`, a walk that reaches `p` before `e` does not pass `j`. */
  lemma NotThrough(n: nat, h: nat, j: nat, e: nat, p: nat)
    requires h < n && j < n && e < n && p < n
    requires Distance(n, j, e) < Distance(n, j, p) && Distance(n, h, p) < Distance(n, h, e)
    ensures Distance(n, h, p) < Distance(n, h, j)
  {
  }

  /** When the walk from the hole meets another empty slot, the hole harms nobody. */
  lemma HoleIsHarmless<K, V>(t: seq<Slot<K, V>>, home: K -> nat, j: nat, i: nat)
    requires j < |t| && i < |t| && t[j].Empty? && WellPlacedBut(t, home, j) && Examined(t, home, j, i)
    requires Next(|t|, i) != j && t[Next(|t|, i)].Empty?
    ensures WellPlaced(t, home)
  {
    var n, e0 := |t|, Next(|t|, i);
    forall p | 0 <= p < n && t[p].Full? ensures Before(t, home, p, j) {
      if Distance(n, j, p) > Distance(n, j, i) {
        assert Before(t, home, p, e0);
        NextDistance(n, j, i);
        assert Distance(n, j, e0) < Distance(n, j, p) by { assert e0 != p; }
        NotThrough(n, home(t[p].key), j, e0, p);
      } else {
        assert p != j;
      }
    }
    forall p, e | 0 <= p < n && 0 <= e < n && t[p].Full? && t[e].Empty? ensures Before(t, home, p, e) {
      if e == j { assert Before(t, home, p, j); }
    }
  }

  /** An entry whose home lies after the hole stays where it is. */
  lemma Skip<K, V>(t: seq<Slot<K, V>>, home: K -> nat, j: nat, i: nat)
    requires j < |t| && i < |t| && Examined(t, home, j, i)
    requires Next(|t|, i) != j && t[Next(|t|, i)].Full? && Before(t, home, Next(|t|, i), j)
    ensures Examined(t, home, j, Next(|t|, i))
  {
    var n, i' := |t|, Next(|t|, i);
    NextDistance(n, j, i);
    forall x | 0 <= x < n && 0 < Distance(n, j, x) <= Distance(n, j, i') ensures t[x].Full? && Before(t, home, x, j) {
      if Distance(n, j, x) == Distance(n, j, i') { assert x == i'; }
    }
  }

  /** An entry whose walk passes the hole moves into it and leaves a hole behind. */
  lemma Refill<K, V>(t: seq<Slot<K, V>>, home: K -> nat, j: nat, i: nat)
    requires j < |t| && i < |t| && i != j && t[j].Empty? && t[i].Full?
    requires WellPlacedBut(t, home, j) && DistinctKeys(t) && !Before(t, home, i, j)
    ensures var t' := t[j := t[i]][i := Empty];
      && WellPlacedBut(t', home, i) && DistinctKeys(t') && Examined(t', home, i, i)
      && Entries(t') == Entries(t)
  {
    var t' := t[j := t[i]][i := Empty];
    assert home(t[i].key) < |t|;
    forall p, e | 0 <= p < |t'| && 0 <= e < |t'| && e != i && t'[p].Full? && t'[e].Empty?
      ensures Before(t', home, p, e)
    {
      if p == j { assert Before(t, home, i, e); } else { assert Before(t, home, p, e); }
    }
    forall x | x in Entries(t) ensures x in Entries(t') {
      var p :| 0 <= p < |t| && t[p].Full? && (t[p].key, t[p].val) == x;
      assert t'[if p == i then j else p] == t[p];
    }
    forall x | x in Entries(t') ensures x in Entries(t) {
      var p :| 0 <= p < |t'| && t'[p].Full? && (t'[p].key, t'[p].val) == x;
      assert t'[p] == t[if p == j then i else p];
    }
  }

  // ----- Room ---------------------------------------------------------------

  lemma {:induction false} EntriesCount<K, V>(t: seq<Slot<K, V>>)
    requires DistinctKeys(t)
    ensures |Entries(t)| <= |t|
    ensures (forall p :: 0 <= p < |t| ==> t[p].Full?) ==> |Entries(t)| == |t|
  {
    if |t| > 0 {
      var n := |t| - 1;
      var t0 := t[..n];
      EntriesCount(t0);
      if t[n].Full? {
        assert Entries(t) == Entries(t0) + {(t[n].key, t[n].val)} by {
          forall x | x in Entries(t) ensures x in Entries(t0) || x == (t[n].key, t[n].val) {
            var p :| 0 <= p < |t| && t[p].Full? && (t[p].key, t[p].val) == x;
            if p < n { assert t0[p] == t[p]; }
          }
        }
        assert (t[n].key, t[n].val) !in Entries(t0);
      } else {
        assert Entries(t) == Entries(t0) by {
          forall x | x in Entries(t) ensures x in Entries(t0) {
            var p :| 0 <= p < |t| && t[p].Full? && (t[p].key, t[p].val) == x;
            assert t0[p] == t[p];
          }
        }
      }
    }
  }

  /** A table with fewer entries than slots has an empty slot, so every walk ends. */
  lemma HasRoom<K, V>(t: seq<Slot<K, V>>)
    requires DistinctKeys(t) && |Entries(t)| < |t|
    ensures exists e :: 0 <= e < |t| && t[e].Empty?
  {
    if forall p :: 0 <= p < |t| ==> t[p].Full? {
      EntriesCount(t);
    } else {
      var e :| 0 <= e < |t| && !t[e].Full?;
      assert t[e].Empty?;
    }
  }

  lemma EmptyTable<K, V>(t: seq<Slot<K, V>>, home: K -> nat)
    requires forall p :: 0 <= p < |t| ==> t[p].Empty?
    ensures WellPlaced(t, home) && DistinctKeys(t) && Entries(t) == {}
  {
  }
}
