/**
How much memory each of several values owns: a walk over the heap graph from each root in
turn, with an explicit stack and one shared table of marks, that charges a block to the
root that reaches it and moves it to the shared account when a second root does.
*/
module ReachableWords {
  import opened Options
  import opened PositionTable
  import ProbedMap

  /** A block: its size in words with its header, and the fields a walk follows. */
  datatype Node = Node(words: nat, fields: seq<Value>)

  type Heap = map<nat, Node>

  /** Pointers in the heap lead to blocks of the heap. */
  ghost predicate Closed(h: Heap) {
    forall a, i :: a in h && 0 <= i < |h[a].fields| && h[a].fields[i].Ptr? ==> h[a].fields[i].addr in h
  }

  // ----- What is reached from where ------------------------------------------

  ghost predicate Edge(h: Heap, a: nat, b: nat) {
    a in h && Ptr(b) in h[a].fields
  }

  /** A way from its first block to its last that enters no block of `stop`. */
  ghost predicate Way(h: Heap, stop: set<nat>, p: seq<nat>) {
    && |p| >= 2
    && (forall i :: 0 <= i < |p| - 1 ==> Edge(h, p[i], p[i + 1]))
    && (forall i :: 1 <= i < |p| ==> p[i] !in stop)
  }

  ghost predicate Reaches(h: Heap, stop: set<nat>, a: nat, b: nat) {
    exists p :: Way(h, stop, p) && p[0] == a && p[|p| - 1] == b
  }

  lemma ReachesEdge(h: Heap, stop: set<nat>, a: nat, b: nat)
    requires Edge(h, a, b) && b !in stop
    ensures Reaches(h, stop, a, b)
  {
    assert Way(h, stop, [a, b]);
  }

  lemma ReachesOn(h: Heap, stop: set<nat>, a: nat, b: nat, c: nat)
    requires Reaches(h, stop, a, b) && Edge(h, b, c) && c !in stop
    ensures Reaches(h, stop, a, c)
  {
    var p :| Way(h, stop, p) && p[0] == a && p[|p| - 1] == b;
    var q := p + [c];
    forall i | 0 <= i < |q| - 1 ensures Edge(h, q[i], q[i + 1]) {
      if i < |p| - 1 { assert Edge(h, p[i], p[i + 1]); }
    }
    assert Way(h, stop, q);
  }

  /** A set with all children of `a` and of its own members contains what `a` reaches. */
  ghost predicate ClosedUnder(h: Heap, stop: set<nat>, a: nat, s: set<nat>) {
    && (forall b :: Edge(h, a, b) && b !in stop ==> b in s)
    && (forall b, c :: b in s && Edge(h, b, c) && c !in stop ==> c in s)
  }

  lemma {:induction false} WayStays(h: Heap, stop: set<nat>, a: nat, s: set<nat>, p: seq<nat>, i: nat)
    requires ClosedUnder(h, stop, a, s) && Way(h, stop, p) && p[0] == a && 1 <= i < |p|
    ensures p[i] in s
  {
    assert Edge(h, p[i - 1], p[i]);
    if i > 1 { WayStays(h, stop, a, s, p, i - 1); }
  }

  lemma ReachedInside(h: Heap, stop: set<nat>, a: nat, s: set<nat>, b: nat)
    requires ClosedUnder(h, stop, a, s) && Reaches(h, stop, a, b)
    ensures b in s && b !in stop
  {
    var p :| Way(h, stop, p) && p[0] == a && p[|p| - 1] == b;
    WayStays(h, stop, a, s, p, |p| - 1);
  }

  // ----- What belongs to whom ------------------------------------------------

  function RootSet(roots: seq<Value>): set<nat> {
    set i | 0 <= i < |roots| && roots[i].Ptr? :: roots[i].addr
  }

  /** A value given as a root several times counts as its first occurrence. */
  ghost predicate First(roots: seq<Value>, i: nat)
    requires i < |roots|
  {
    roots[i] !in roots[..i]
  }

  /** Root `i` reaches the block `a`, which is no root, without passing through another root. */
  ghost predicate Holds(h: Heap, roots: seq<Value>, i: nat, a: nat)
    requires i < |roots|
  {
    roots[i].Ptr? && First(roots, i) && Reaches(h, RootSet(roots), roots[i].addr, a)
  }

  /** Those of the first `k` roots that reach `a`. */
  ghost function Holders(h: Heap, roots: seq<Value>, k: nat, a: nat): set<nat>
    requires k <= |roots|
  {
    set i | 0 <= i < k && Holds(h, roots, i, a)
  }

  /** Total size of a set of blocks. */
  ghost function Words(h: Heap, s: set<nat>): nat {
    if s == {} then 0
    else var a :| a in s; (if a in h then h[a].words else 0) + Words(h, s - {a})
  }

  function SizeAt(h: Heap, a: nat): nat {
    if a in h then h[a].words else 0
  }

  lemma {:induction false} WordsWithout(h: Heap, s: set<nat>, a: nat)
    requires a in s
    ensures Words(h, s) == SizeAt(h, a) + Words(h, s - {a})
    decreases |s|
  {
    var b :| b in s && Words(h, s) == SizeAt(h, b) + Words(h, s - {b});
    if a != b {
      WordsWithout(h, s - {b}, a);
      WordsWithout(h, s - {a}, b);
      assert s - {a} - {b} == s - {b} - {a};
    }
  }

  lemma WordsWith(h: Heap, s: set<nat>, a: nat)
    requires a !in s
    ensures Words(h, s + {a}) == SizeAt(h, a) + Words(h, s)
  {
    WordsWithout(h, s + {a}, a);
    assert s + {a} - {a} == s;
  }

  // ----- Marks ---------------------------------------------------------------

  datatype Mark = Id(root: nat) | Shared | RootUnprocessed | RootProcessed

  type Marks = map<Value, Mark>

  /** The mark of a block that is no root tells which of the roots walked so far reach it. */
  ghost predicate MarkTells(m: Marks, a: nat, holders: set<nat>) {
    if Ptr(a) !in m then holders == {}
    else match m[Ptr(a)]
      case Id(i) => holders == {i}
      case Shared => holders != {} && forall i :: holders != {i}
      case _ => false
  }

  /** The state of the table when the first `k` roots have been walked. */
  ghost predicate MarksAgree(h: Heap, roots: seq<Value>, k: nat, m: Marks)
    requires k <= |roots|
  {
    && (forall v :: v in m ==> v in roots || (v.Ptr? && v.addr in h && v.addr !in RootSet(roots)))
    && (forall i :: 0 <= i < |roots| ==>
          roots[i] in m && m[roots[i]] == if roots[i].Ptr? && roots[i] in roots[..k] then RootProcessed else RootUnprocessed)
    && (forall a :: a in h && a !in RootSet(roots) ==> MarkTells(m, a, Holders(h, roots, k, a)))
  }

  /** The new mark of a value that carries one already, if it is to be walked. */
  function AfterMark(mark: Mark, isRoot: bool, k: nat): Option<Mark> {
    match mark
    case RootUnprocessed => if isRoot then Some(RootProcessed) else None
    case Shared => None
    case RootProcessed => None
    case Id(j) => if j == k then None else Some(Shared)
  }

  /** What a visit writes into the table, if anything. */
  function NewMark(m: Marks, v: Value, root: Value, k: nat): Option<Mark> {
    if v !in m then Some(Id(k)) else AfterMark(m[v], v == root, k)
  }

  /** The walk of root `k` has nothing more to do at `a`. */
  ghost predicate Final(m: Marks, k: nat, a: nat) {
    Ptr(a) in m && (m[Ptr(a)] == Id(k) || m[Ptr(a)] == Shared)
  }

  /** A block this walk has marked: the root itself, or one it newly holds or shares. */
  ghost predicate Touched(h: Heap, roots: seq<Value>, k: nat, m0: Marks, m: Marks, a: nat)
    requires k < |roots|
  {
    && a in h && Ptr(a) in m
    && if Ptr(a) == roots[k] then m[Ptr(a)] == RootProcessed
       else && a !in RootSet(roots) && Holds(h, roots, k, a)
            && if Ptr(a) in m0 then m0[Ptr(a)].Id? && m0[Ptr(a)].root < k && m[Ptr(a)] == Shared
               else m[Ptr(a)] == Id(k)
  }

  /** Children of finished blocks are finished or waiting. */
  ghost predicate ChildrenKept(h: Heap, roots: seq<Value>, k: nat, m: Marks, touched: set<nat>, pending: set<Value>)
    requires k < |roots|
  {
    forall a, b ::
      && (Final(m, k, a) || (Ptr(a) == roots[k] && a in touched))
      && Edge(h, a, b) && b !in RootSet(roots)
      ==> Final(m, k, b) || Ptr(b) in pending
  }

  /** The marks differ from those the walk found, `m0`, exactly at the blocks it has touched. */
  ghost predicate MarksMoved(h: Heap, roots: seq<Value>, k: nat, m0: Marks, m: Marks, touched: set<nat>)
    requires k < |roots|
  {
    && (forall v :: v in m ==> v in m0 || (v.Ptr? && v.addr in touched))
    && (forall v :: v in m0 ==> v in m && (m[v] == m0[v] || (v.Ptr? && v.addr in touched)))
    && (forall a :: a in touched ==> Touched(h, roots, k, m0, m, a))
  }

  /** The values still to visit are held by root `k`, and the root itself has its turn. */
  ghost predicate Agenda(h: Heap, roots: seq<Value>, k: nat, touched: set<nat>, pending: set<Value>)
    requires k < |roots|
  {
    && (forall v :: v in pending && v.Ptr? ==> v.addr in h)
    && (forall v :: v in pending && v.Ptr? && v.addr !in RootSet(roots) ==> Holds(h, roots, k, v.addr))
    && (roots[k].Ptr? && First(roots, k) && roots[k] !in pending ==> roots[k].addr in touched)
  }

  /** The walk from root `k`, with `pending` still to visit. */
  ghost predicate Walking(h: Heap, roots: seq<Value>, k: nat, m0: Marks, m: Marks, touched: set<nat>, pending: set<Value>)
    requires k < |roots|
  {
    && MarksMoved(h, roots, k, m0, m, touched)
    && Agenda(h, roots, k, touched, pending)
    && ChildrenKept(h, roots, k, m, touched, pending)
  }

  lemma HoldersGrow(h: Heap, roots: seq<Value>, k: nat, a: nat)
    requires k < |roots|
    ensures Holders(h, roots, k + 1, a) ==
            if Holds(h, roots, k, a) then Holders(h, roots, k, a) + {k} else Holders(h, roots, k, a)
  {
  }

  /** Only blocks that are no roots carry a root's number or the shared mark. */
  lemma NumberedBlock(h: Heap, roots: seq<Value>, k: nat, m: Marks, a: nat)
    requires k <= |roots| && MarksAgree(h, roots, k, m)
    requires Ptr(a) in m && (m[Ptr(a)].Id? || m[Ptr(a)].Shared?)
    ensures a in h && a !in RootSet(roots) && MarkTells(m, a, Holders(h, roots, k, a))
    ensures m[Ptr(a)].Id? ==> m[Ptr(a)].root < k
  {
    forall i | 0 <= i < |roots| ensures roots[i] != Ptr(a) { assert m[roots[i]].RootProcessed? || m[roots[i]].RootUnprocessed?; }
    assert MarkTells(m, a, Holders(h, roots, k, a));
    assert m[Ptr(a)].Id? ==> m[Ptr(a)].root in Holders(h, roots, k, a);
  }

  lemma ChildOfShared(h: Heap, roots: seq<Value>, k: nat, m: Marks, a: nat, b: nat)
    requires Closed(h) && k <= |roots| && MarksAgree(h, roots, k, m)
    requires Ptr(a) in m && m[Ptr(a)] == Shared && Edge(h, a, b) && b !in RootSet(roots)
    ensures Ptr(b) in m && m[Ptr(b)] == Shared
  {
    NumberedBlock(h, roots, k, m, a);
    assert b in h by { var i :| 0 <= i < |h[a].fields| && h[a].fields[i] == Ptr(b); }
    assert MarkTells(m, b, Holders(h, roots, k, b));
    forall i | i in Holders(h, roots, k, a) ensures i in Holders(h, roots, k, b) {
      ReachesOn(h, RootSet(roots), roots[i].addr, a, b);
    }
  }

  lemma WalkStarts(h: Heap, roots: seq<Value>, k: nat, m: Marks)
    requires Closed(h) && k < |roots| && MarksAgree(h, roots, k, m) && (roots[k].Ptr? ==> roots[k].addr in h)
    ensures Walking(h, roots, k, m, m, {}, {roots[k]})
  {
    forall a, b | Final(m, k, a) && Edge(h, a, b) && b !in RootSet(roots) ensures Final(m, k, b) {
      NumberedBlock(h, roots, k, m, a);
      ChildOfShared(h, roots, k, m, a, b);
    }
  }

  ghost function Elements(s: seq<Value>): set<Value> {
    set v | v in s
  }

  /** A visit that writes nothing: an immediate, another root, or a block already dealt with. */
  lemma VisitSkips(h: Heap, roots: seq<Value>, k: nat, m0: Marks, m: Marks, touched: set<nat>, pending: set<Value>, v: Value)
    requires k < |roots| && MarksAgree(h, roots, k, m0)
    requires Walking(h, roots, k, m0, m, touched, pending + {v})
    requires v.Ptr? ==> NewMark(m, v, roots[k], k).None?
    ensures Walking(h, roots, k, m0, m, touched, pending)
  {
    if v.Ptr? && v == roots[k] && First(roots, k) { assert m0[roots[k]] == RootUnprocessed; }
    forall a, b | (Final(m, k, a) || (Ptr(a) == roots[k] && a in touched)) && Edge(h, a, b) && b !in RootSet(roots)
      ensures Final(m, k, b) || Ptr(b) in pending
    {
      if v == Ptr(b) { MarkOfNonRoot(h, roots, k, m0, m, touched, b); }
    }
  }

  /** During the walk, too, blocks that are no roots carry a number or the shared mark. */
  lemma MarkOfNonRoot(h: Heap, roots: seq<Value>, k: nat, m0: Marks, m: Marks, touched: set<nat>, b: nat)
    requires k < |roots| && MarksAgree(h, roots, k, m0) && b !in RootSet(roots) && Ptr(b) in m
    requires MarksMoved(h, roots, k, m0, m, touched)
    ensures b in h && (m[Ptr(b)].Id? || m[Ptr(b)].Shared?)
    ensures m[Ptr(b)].Id? && b !in touched ==> Ptr(b) in m0 && m[Ptr(b)] == m0[Ptr(b)] && m[Ptr(b)].root < k
    ensures b in touched ==> Final(m, k, b)
  {
    if b in touched {
      assert Touched(h, roots, k, m0, m, b);
    } else {
      assert b in h && MarkTells(m0, b, Holders(h, roots, k, b));
      NumberedBlock(h, roots, k, m0, b);
    }
  }

  lemma AgendaAfterMarking(h: Heap, roots: seq<Value>, k: nat, touched: set<nat>, pending: set<Value>, a: nat)
    requires Closed(h) && k < |roots| && a in h && First(roots, k) && (Ptr(a) == roots[k] || Holds(h, roots, k, a))
    requires Agenda(h, roots, k, touched, pending + {Ptr(a)})
    ensures Agenda(h, roots, k, touched + {a}, pending + Elements(h[a].fields))
  {
    var p' := pending + Elements(h[a].fields);
    forall w | w in p' && w.Ptr? ensures w.addr in h && (w.addr in RootSet(roots) || Holds(h, roots, k, w.addr)) {
      if w in pending {
        assert w in pending + {Ptr(a)};
      } else {
        var i :| 0 <= i < |h[a].fields| && h[a].fields[i] == w;
        if w.addr !in RootSet(roots) {
          if Ptr(a) == roots[k] { ReachesEdge(h, RootSet(roots), a, w.addr); }
          else { ReachesOn(h, RootSet(roots), roots[k].addr, a, w.addr); }
        }
      }
    }
  }

  lemma ChildrenAfterMarking(h: Heap, roots: seq<Value>, k: nat, m: Marks, touched: set<nat>, pending: set<Value>, a: nat, mark: Mark)
    requires k < |roots| && a in h
    requires ChildrenKept(h, roots, k, m, touched, pending + {Ptr(a)})
    requires Final(m[Ptr(a) := mark], k, a) || a in RootSet(roots)
    ensures ChildrenKept(h, roots, k, m[Ptr(a) := mark], touched + {a}, pending + Elements(h[a].fields))
  {
    var m', p' := m[Ptr(a) := mark], pending + Elements(h[a].fields);
    forall b, c | (Final(m', k, b) || (Ptr(b) == roots[k] && b in touched + {a})) && Edge(h, b, c) && c !in RootSet(roots)
      ensures Final(m', k, c) || Ptr(c) in p'
    {
      if b == a {
        assert Ptr(c) in Elements(h[a].fields);
      } else {
        assert Final(m, k, b) || (Ptr(b) == roots[k] && b in touched);
        assert Final(m, k, c) || Ptr(c) in pending + {Ptr(a)};
      }
    }
  }

  /** A visit that marks a block and puts its fields on the agenda. */
  lemma VisitMarks(h: Heap, roots: seq<Value>, k: nat, m0: Marks, m: Marks, touched: set<nat>, pending: set<Value>, v: Value)
    requires Closed(h) && k < |roots| && MarksAgree(h, roots, k, m0)
    requires Walking(h, roots, k, m0, m, touched, pending + {v})
    requires v.Ptr? && NewMark(m, v, roots[k], k).Some?
    ensures v.addr in h && v.addr !in touched
    ensures Walking(h, roots, k, m0, m[v := NewMark(m, v, roots[k], k).value], touched + {v.addr},
                    pending + Elements(h[v.addr].fields))
  {
    var a, mark := v.addr, NewMark(m, v, roots[k], k).value;
    assert v in pending + {v} && v == Ptr(a);
    hide MarksMoved, MarksAgree, Closed, ChildrenKept, First, Holds;
    MarkedNow(h, roots, k, m0, m, touched, v);
    MovedByMarking(h, roots, k, m0, m, touched, a, mark);
    hide Agenda;
    AgendaAfterMarking(h, roots, k, touched, pending, a);
    ChildrenAfterMarking(h, roots, k, m, touched, pending, a, mark);
  }

  lemma MovedByMarking(h: Heap, roots: seq<Value>, k: nat, m0: Marks, m: Marks, touched: set<nat>, a: nat, mark: Mark)
    requires k < |roots| && MarksMoved(h, roots, k, m0, m, touched) && a !in touched
    requires Touched(h, roots, k, m0, m[Ptr(a) := mark], a)
    ensures MarksMoved(h, roots, k, m0, m[Ptr(a) := mark], touched + {a})
  {
    var m' := m[Ptr(a) := mark];
    forall b | b in touched ensures Touched(h, roots, k, m0, m', b) {
      assert Touched(h, roots, k, m0, m, b);
    }
  }

  /** The block of a marking visit is the root, or newly held, or newly shared. */
  lemma MarkedNow(h: Heap, roots: seq<Value>, k: nat, m0: Marks, m: Marks, touched: set<nat>, v: Value)
    requires k < |roots| && MarksAgree(h, roots, k, m0) && v.Ptr? && v.addr in h
    requires v.addr !in RootSet(roots) ==> Holds(h, roots, k, v.addr)
    requires MarksMoved(h, roots, k, m0, m, touched)
    requires NewMark(m, v, roots[k], k).Some?
    ensures v.addr !in touched
    ensures Touched(h, roots, k, m0, m[v := NewMark(m, v, roots[k], k).value], v.addr)
    ensures First(roots, k) && (v == roots[k] || v.addr !in RootSet(roots))
  {
    var a := v.addr;
    if a in RootSet(roots) {
      var i :| 0 <= i < |roots| && roots[i].Ptr? && roots[i].addr == a;
      assert roots[i] == v && m0[v] == if v in roots[..k] then RootProcessed else RootUnprocessed;
      assert a in touched ==> Touched(h, roots, k, m0, m, a);
    } else if v in m {
      MarkOfNonRoot(h, roots, k, m0, m, touched, a);
    } else {
      assert a in touched ==> Touched(h, roots, k, m0, m, a);
    }
  }

  /** When nothing is pending, the walk has dealt with all the root holds. */
  lemma HeldAreFinal(h: Heap, roots: seq<Value>, k: nat, m0: Marks, m: Marks, touched: set<nat>, a: nat)
    requires Closed(h) && k < |roots| && Walking(h, roots, k, m0, m, touched, {}) && Holds(h, roots, k, a)
    ensures Final(m, k, a) && a in h && a !in RootSet(roots)
  {
    var s := set b | b in h && Final(m, k, b);
    var r := roots[k].addr;
    forall b, c | (b == r || b in s) && Edge(h, b, c) && c !in RootSet(roots) ensures c in s {
      var i :| 0 <= i < |h[b].fields| && h[b].fields[i] == Ptr(c);
    }
    ReachedInside(h, RootSet(roots), r, s, a);
  }

  lemma MarkAfterWalk(h: Heap, roots: seq<Value>, k: nat, m0: Marks, m: Marks, touched: set<nat>, a: nat)
    requires Closed(h) && k < |roots| && MarksAgree(h, roots, k, m0)
    requires Walking(h, roots, k, m0, m, touched, {}) && a in h && a !in RootSet(roots)
    ensures MarkTells(m, a, Holders(h, roots, k + 1, a))
    ensures a in touched <==> Holds(h, roots, k, a) && (Ptr(a) in m0 ==> m0[Ptr(a)].Id?)
  {
    HoldersGrow(h, roots, k, a);
    assert MarkTells(m0, a, Holders(h, roots, k, a));
    assert k !in Holders(h, roots, k, a);
    assert a in touched ==> Touched(h, roots, k, m0, m, a);
    if Holds(h, roots, k, a) {
      HeldAreFinal(h, roots, k, m0, m, touched, a);
      if Ptr(a) in m0 && m0[Ptr(a)].Id? {
        assert a in touched;
        assert Holders(h, roots, k + 1, a) == {m0[Ptr(a)].root, k};
      } else if Ptr(a) in m0 {
        forall i ensures Holders(h, roots, k + 1, a) != {i} {
          assert Holders(h, roots, k + 1, a) == {i} ==> i == k;
          assert Holders(h, roots, k, a) == {} || exists j :: j in Holders(h, roots, k, a) && j != k;
        }
      }
    }
  }

  /** When nothing is pending, the table tells the truth about one root more. */
  lemma WalkEnds(h: Heap, roots: seq<Value>, k: nat, m0: Marks, m: Marks, touched: set<nat>)
    requires Closed(h) && k < |roots| && MarksAgree(h, roots, k, m0)
    requires Walking(h, roots, k, m0, m, touched, {})
    ensures MarksAgree(h, roots, k + 1, m)
  {
    forall a | a in h && a !in RootSet(roots) ensures MarkTells(m, a, Holders(h, roots, k + 1, a)) {
      MarkAfterWalk(h, roots, k, m0, m, touched, a);
    }
    forall i | 0 <= i < |roots|
      ensures roots[i] in m && m[roots[i]] == if roots[i].Ptr? && roots[i] in roots[..k + 1] then RootProcessed else RootUnprocessed
    {
      assert roots[i] in m0;
      if roots[i].Ptr? && roots[i].addr in touched { assert Touched(h, roots, k, m0, m, roots[i].addr); }
    }
    forall v | v in m ensures v in roots || (v.Ptr? && v.addr in h && v.addr !in RootSet(roots)) {
      if v !in m0 { assert Touched(h, roots, k, m0, m, v.addr); }
    }
  }

  // ----- The accounts --------------------------------------------------------

  /** The blocks charged to root `i` when the table is `m`: those that carry its number, and its own. */
  ghost function Account(h: Heap, roots: seq<Value>, m: Marks, i: nat): set<nat>
    requires i < |roots|
  {
    set a | a in h && Ptr(a) in m
      && (m[Ptr(a)] == Id(i) || (m[Ptr(a)] == RootProcessed && roots[i] == Ptr(a) && First(roots, i)))
  }

  ghost function SharedAccount(h: Heap, m: Marks): set<nat> {
    set a | a in h && Ptr(a) in m && m[Ptr(a)] == Shared
  }

  ghost predicate Charged(h: Heap, roots: seq<Value>, m: Marks, sizes: seq<int>, shared: int) {
    && |sizes| == |roots|
    && (forall i :: 0 <= i < |roots| ==> sizes[i] == Words(h, Account(h, roots, m, i)))
    && shared == Words(h, SharedAccount(h, m))
  }

  lemma AccountAfterMarking(h: Heap, roots: seq<Value>, k: nat, m: Marks, a: nat, mark: Mark, i: nat)
    requires k < |roots| && i < |roots| && a in h && First(roots, k)
    requires NewMark(m, Ptr(a), roots[k], k) == Some(mark)
    ensures mark != Shared && i == k ==>
      a !in Account(h, roots, m, i) && Account(h, roots, m[Ptr(a) := mark], i) == Account(h, roots, m, i) + {a}
    ensures mark == Shared && m[Ptr(a)] == Id(i) ==>
      a in Account(h, roots, m, i) && Account(h, roots, m[Ptr(a) := mark], i) == Account(h, roots, m, i) - {a}
    ensures mark != Shared && i != k ==> Account(h, roots, m[Ptr(a) := mark], i) == Account(h, roots, m, i)
    ensures mark == Shared && m[Ptr(a)] != Id(i) ==> Account(h, roots, m[Ptr(a) := mark], i) == Account(h, roots, m, i)
  {
    assert i < k ==> roots[i] in roots[..k];
    assert k < i ==> roots[k] in roots[..i];
  }

  lemma SharedAfterMarking(h: Heap, root: Value, k: nat, m: Marks, a: nat, mark: Mark)
    requires a in h && NewMark(m, Ptr(a), root, k) == Some(mark)
    ensures a !in SharedAccount(h, m)
    ensures SharedAccount(h, m[Ptr(a) := mark]) == SharedAccount(h, m) + if mark == Shared then {a} else {}
  {
  }

  /** Charging what a marking visit charges keeps the books right. */
  lemma ChargedAfterMarking(h: Heap, roots: seq<Value>, k: nat, m: Marks, a: nat, mark: Mark, sizes: seq<int>, shared: int)
    requires k < |roots| && a in h && First(roots, k) && Charged(h, roots, m, sizes, shared)
    requires NewMark(m, Ptr(a), roots[k], k) == Some(mark)
    requires mark == Shared ==> m[Ptr(a)].root < |roots|
    ensures mark == Shared ==>
      Charged(h, roots, m[Ptr(a) := mark], sizes[m[Ptr(a)].root := sizes[m[Ptr(a)].root] - h[a].words], shared + h[a].words)
    ensures mark != Shared ==> Charged(h, roots, m[Ptr(a) := mark], sizes[k := sizes[k] + h[a].words], shared)
  {
    hide NewMark, First, Account, SharedAccount;
    var m' := m[Ptr(a) := mark];
    SharedAfterMarking(h, roots[k], k, m, a, mark);
    WordsWith(h, SharedAccount(h, m), a);
    assert mark != Shared ==> SharedAccount(h, m') == SharedAccount(h, m);
    if mark == Shared { NumberBefore(m, Ptr(a), roots[k], k); }
    forall i | 0 <= i < |roots|
      ensures mark != Shared && i == k ==> Words(h, Account(h, roots, m', i)) == Words(h, Account(h, roots, m, i)) + h[a].words
      ensures mark == Shared && m[Ptr(a)] == Id(i) ==> Words(h, Account(h, roots, m', i)) == Words(h, Account(h, roots, m, i)) - h[a].words
      ensures mark != Shared && i != k ==> Account(h, roots, m', i) == Account(h, roots, m, i)
      ensures mark == Shared && m[Ptr(a)] != Id(i) ==> Account(h, roots, m', i) == Account(h, roots, m, i)
    {
      AccountAfterMarking(h, roots, k, m, a, mark, i);
      if a in Account(h, roots, m, i) { WordsWithout(h, Account(h, roots, m, i), a); } else { WordsWith(h, Account(h, roots, m, i), a); }
    }
  }

  lemma SizesCount(h: Heap, roots: seq<Value>, m: Marks, sizes: seq<int>, shared: int)
    requires Charged(h, roots, m, sizes, shared)
    ensures |sizes| == |roots|
  {
  }

  /** A marking visit may charge: its root is a first occurrence and an old number is that of a root. */
  lemma VisitCharges(h: Heap, roots: seq<Value>, k: nat, m0: Marks, m: Marks, touched: set<nat>, pending: set<Value>, v: Value)
    requires k < |roots| && MarksAgree(h, roots, k, m0) && v.Ptr?
    requires Walking(h, roots, k, m0, m, touched, pending + {v})
    requires NewMark(m, v, roots[k], k).Some?
    ensures First(roots, k)
    ensures NewMark(m, v, roots[k], k).value == Shared ==> v in m && m[v].Id? && m[v].root < |roots|
  {
    assert v in pending + {v};
    MarkedNow(h, roots, k, m0, m, touched, v);
    if v in m && v.addr !in RootSet(roots) { MarkOfNonRoot(h, roots, k, m0, m, touched, v.addr); }
  }

  lemma NumberBefore(m: Marks, v: Value, root: Value, k: nat)
    requires NewMark(m, v, root, k) == Some(Shared)
    ensures v in m && m[v].Id?
  {
  }

  // ----- The explicit stack --------------------------------------------------

  /** All values that wait on a stack of runs of fields. */
  ghost function Waiting(stack: seq<seq<Value>>): set<Value> {
    if stack == [] then {} else Waiting(stack[..|stack| - 1]) + Elements(stack[|stack| - 1])
  }

  ghost function Load(stack: seq<seq<Value>>): nat {
    if stack == [] then 0 else Load(stack[..|stack| - 1]) + |stack[|stack| - 1]|
  }

  ghost predicate NoEmptyRun(stack: seq<seq<Value>>) {
    forall i :: 0 <= i < |stack| ==> stack[i] != []
  }

  /** Advance the top run by one field, and drop it when it is used up. */
  function Popped(stack: seq<seq<Value>>): seq<seq<Value>>
    requires |stack| > 0 && stack[|stack| - 1] != []
  {
    var top := stack[|stack| - 1];
    stack[..|stack| - 1] + if |top| > 1 then [top[1..]] else []
  }

  lemma {:induction false} PoppedWaits(stack: seq<seq<Value>>)
    requires |stack| > 0 && NoEmptyRun(stack)
    ensures Waiting(stack) == Waiting(Popped(stack)) + {stack[|stack| - 1][0]}
    ensures Load(Popped(stack)) + 1 == Load(stack) && NoEmptyRun(Popped(stack))
  {
    var low, top := stack[..|stack| - 1], stack[|stack| - 1];
    ElementsHead(top);
    hide Elements;
    if |top| > 1 {
      assert Popped(stack)[..|low|] == low;
    } else {
      assert Popped(stack) == low && Elements(top) == {top[0]};
    }
  }

  lemma ElementsHead(s: seq<Value>)
    requires |s| > 0
    ensures Elements(s) == Elements(s[1..]) + {s[0]} && (|s| == 1 ==> Elements(s) == {s[0]})
  {
  }

  lemma {:induction false} PushedWaits(stack: seq<seq<Value>>, fields: seq<Value>)
    requires |fields| > 0 && NoEmptyRun(stack)
    ensures var stack' := if |fields| > 1 then stack + [fields[1..]] else stack;
      Waiting(stack) + Elements(fields) == Waiting(stack') + {fields[0]} && NoEmptyRun(stack')
  {
    ElementsHead(fields);
    if |fields| > 1 { assert (stack + [fields[1..]])[..|stack|] == stack; }
  }

  /** Where the walk goes on: to the first of the fields, or to the next that waits, if any does. */
  function Onward(stack: seq<seq<Value>>, fields: seq<Value>): Option<(Value, seq<seq<Value>>)>
    requires NoEmptyRun(stack)
  {
    if |fields| > 0 then Some((fields[0], if |fields| > 1 then stack + [fields[1..]] else stack))
    else if |stack| == 0 then None
    else Some((stack[|stack| - 1][0], Popped(stack)))
  }

  lemma OnwardWaits(stack: seq<seq<Value>>, fields: seq<Value>)
    requires NoEmptyRun(stack)
    ensures var r := Onward(stack, fields);
      if r.None? then Waiting(stack) + Elements(fields) == {}
      else
        && Waiting(stack) + Elements(fields) == Waiting(r.value.1) + {r.value.0} && NoEmptyRun(r.value.1)
        && (fields == [] ==> Load(r.value.1) < Load(stack))
  {
    hide Waiting, Load, Elements;
    if |fields| > 0 {
      PushedWaits(stack, fields);
    } else {
      NoElements();
      assert fields == [];
      if |stack| == 0 {
        assert stack == [];
      } else {
        PoppedWaits(stack);
        assert Waiting(stack) + {} == Waiting(stack);
      }
    }
  }

  lemma NoElements()
    ensures Waiting([]) == {} && Elements([]) == {}
  {
  }

  // ----- The walker ----------------------------------------------------------

  class Walker {
    const heap: Heap
    const table: Table<Mark>
    var sizes: seq<int>
    var shared: int

    ghost predicate Valid()
      reads this, table
    {
      Closed(heap) && table.Valid()
    }

    /** The books are right for the marks in the table. */
    ghost predicate Balanced(roots: seq<Value>)
      reads this, table
    {
      Charged(heap, roots, table.contents, sizes, shared)
    }

    /** `reachable_words_init` */
    constructor (heap: Heap, word: Value -> nat, n: nat)
      requires Closed(heap)
      ensures Valid() && this.heap == heap && table.contents == map[] && fresh(table)
      ensures sizes == seq(n, i => 0) && shared == 0
    {
      this.heap := heap;
      table := new Table(word);
      sizes := seq(n, i => 0);
      shared := 0;
    }

    /** `reachable_words_mark_root` */
    method MarkRoot(v: Value)
      requires Valid()
      modifies table
      ensures Valid() && table.contents == old(table.contents)[v := RootUnprocessed]
    {
      var mark, h := table.Lookup(v);
      table.Record(v, h, RootUnprocessed);
    }

    /** One turn of the walk's loop at the pointer `v`: what it marks, and the fields it goes on to. */
    method Visit(ghost roots: seq<Value>, root: Value, k: nat, tally: bool, v: Value,
                 ghost m0: Marks, ghost touched: set<nat>, ghost pending: set<Value>)
      returns (size: nat, fields: seq<Value>, ghost touched': set<nat>)
      requires Valid() && k < |roots| && root == roots[k] && v.Ptr? && MarksAgree(heap, roots, k, m0)
      requires Walking(heap, roots, k, m0, table.contents, touched, pending + {v})
      requires tally ==> Balanced(roots)
      modifies this, table
      ensures Valid() && Walking(heap, roots, k, m0, table.contents, touched', pending + Elements(fields))
      ensures touched' == touched ==> fields == [] && size == 0
      ensures touched' != touched ==>
        v.addr in heap && v.addr !in touched && touched' == touched + {v.addr} && size == heap[v.addr].words
      ensures tally ==> Balanced(roots)
    {
      hide Walking, MarksAgree, Charged, ProbedMap.SlotFor, First, Table.Valid;
      ghost var m := table.contents;
      var mark, h := table.Lookup(v);
      var next := if mark.None? then Some(Id(k)) else AfterMark(mark.value, v == root, k);
      assert next == NewMark(m, v, root, k);
      if next.None? {
        VisitSkips(heap, roots, k, m0, m, touched, pending, v);
        size, fields, touched' := 0, [], touched;
        assert pending + Elements(fields) == pending;
      } else {
        VisitMarks(heap, roots, k, m0, m, touched, pending, v);
        VisitCharges(heap, roots, k, m0, m, touched, pending, v);
        if tally {
          ChargedAfterMarking(heap, roots, k, m, v.addr, next.value, sizes, shared);
          SizesCount(heap, roots, m, sizes, shared);
        }
        if mark.None? { table.Record(v, h, next.value); } else { table.Update(v, h, next.value); }
        size := heap[v.addr].words;
        if tally {
          if next.value == Shared {
            sizes := sizes[mark.value.root := sizes[mark.value.root] - size];
            shared := shared + size;
          } else {
            sizes := sizes[k := sizes[k] + size];
          }
        }
        fields := heap[v.addr].fields;
        touched' := touched + {v.addr};
      }
    }

    /** Visits `v`, which may be an immediate. */
    method VisitValue(ghost roots: seq<Value>, root: Value, k: nat, tally: bool, v: Value,
                      ghost m0: Marks, ghost touched: set<nat>, ghost pending: set<Value>)
      returns (size: nat, fields: seq<Value>, ghost touched': set<nat>)
      requires Valid() && k < |roots| && root == roots[k] && MarksAgree(heap, roots, k, m0)
      requires Walking(heap, roots, k, m0, table.contents, touched, pending + {v})
      requires touched <= heap.Keys && (tally ==> Balanced(roots))
      modifies this, table
      ensures Valid() && Walking(heap, roots, k, m0, table.contents, touched', pending + Elements(fields))
      ensures touched' <= heap.Keys && Words(heap, touched') == Words(heap, touched) + size && (tally ==> Balanced(roots))
      ensures |heap.Keys - touched'| < |heap.Keys - touched| || (touched' == touched && fields == [])
    {
      hide Walking, MarksAgree, Charged, First, Closed, Table.Valid, Words, Elements;
      if v.Ptr? {
        size, fields, touched' := Visit(roots, root, k, tally, v, m0, touched, pending);
        Progress(heap, touched, v.addr);
      } else {
        size, fields, touched' := 0, [], touched;
        VisitSkips(heap, roots, k, m0, table.contents, touched, pending, v);
        NoElements();
        assert pending + Elements(fields) == pending;
      }
    }

    /** One turn of the loop: visit `v`, then go on to its first field or to the next that waits. */
    method Turn(ghost roots: seq<Value>, root: Value, k: nat, tally: bool, v: Value, stack: seq<seq<Value>>,
                ghost m0: Marks, ghost touched: set<nat>)
      returns (size: nat, walking: bool, v': Value, stack': seq<seq<Value>>, ghost touched': set<nat>)
      requires Valid() && k < |roots| && root == roots[k] && MarksAgree(heap, roots, k, m0) && NoEmptyRun(stack)
      requires Walking(heap, roots, k, m0, table.contents, touched, Waiting(stack) + {v})
      requires touched <= heap.Keys && (tally ==> Balanced(roots))
      modifies this, table
      ensures Valid() && NoEmptyRun(stack') && touched' <= heap.Keys && (tally ==> Balanced(roots))
      ensures walking ==> Walking(heap, roots, k, m0, table.contents, touched', Waiting(stack') + {v'})
      ensures !walking ==> Walking(heap, roots, k, m0, table.contents, touched', {})
      ensures Words(heap, touched') == Words(heap, touched) + size
      ensures |heap.Keys - touched'| < |heap.Keys - touched|
        || (touched' == touched && (walking ==> Load(stack') < Load(stack)))
    {
      hide Walking, MarksAgree, Charged, First, Closed, Table.Valid, Words, Waiting, Load, Elements, Onward;
      var fields;
      size, fields, touched' := VisitValue(roots, root, k, tally, v, m0, touched, Waiting(stack));
      OnwardWaits(stack, fields);
      var next := Onward(stack, fields);
      walking, v', stack' := next.Some?, v, stack;
      if walking { v', stack' := next.value.0, next.value.1; }
    }

    /** `reachable_words_once`: walk from root number `k`, and return the size of what it marks. */
    method Once(roots: seq<Value>, k: nat, tally: bool) returns (size: nat, ghost touched: set<nat>)
      requires Valid() && k < |roots| && MarksAgree(heap, roots, k, table.contents)
      requires RootsInHeap(heap, roots)
      requires tally ==> Balanced(roots)
      modifies this, table
      ensures Valid() && MarksAgree(heap, roots, k + 1, table.contents)
      ensures Walking(heap, roots, k, old(table.contents), table.contents, touched, {})
      ensures size == Words(heap, touched) && touched <= heap.Keys
      ensures tally ==> Balanced(roots)
    {
      hide Walking, MarksAgree, Charged, First, Closed, Table.Valid, Words, Waiting, Load, RootsInHeap;
      ghost var m0 := table.contents;
      StartInHeap(heap, roots, k);
      WalkStarts(heap, roots, k, m0);
      NothingYet(heap);
      var v, stack: seq<seq<Value>> := roots[k], [];
      size, touched := 0, {};
      assert {v} == Waiting(stack) + {v};
      var walking := true;
      while walking
        invariant Valid() && NoEmptyRun(stack) && touched <= heap.Keys && size == Words(heap, touched)
        invariant walking ==> Walking(heap, roots, k, m0, table.contents, touched, Waiting(stack) + {v})
        invariant !walking ==> Walking(heap, roots, k, m0, table.contents, touched, {})
        invariant tally ==> Balanced(roots)
        decreases |heap.Keys - touched|, walking, Load(stack)
      {
        var w;
        w, walking, v, stack, touched := Turn(roots, roots[k], k, tally, v, stack, m0, touched);
        size := size + w;
      }
      WalkEnds(heap, roots, k, m0, table.contents, touched);
    }
  }

  ghost predicate RootsInHeap(h: Heap, roots: seq<Value>) {
    forall i :: 0 <= i < |roots| && roots[i].Ptr? ==> roots[i].addr in h
  }

  lemma StartInHeap(h: Heap, roots: seq<Value>, k: nat)
    requires RootsInHeap(h, roots) && k < |roots|
    ensures roots[k].Ptr? ==> roots[k].addr in h
  {
  }

  lemma NothingYet(h: Heap)
    ensures Waiting([]) == {} && Words(h, {}) == 0
  {
  }

  lemma Progress(h: Heap, touched: set<nat>, a: nat)
    requires touched <= h.Keys
    ensures a in h && a !in touched ==>
      && |h.Keys - (touched + {a})| < |h.Keys - touched|
      && Words(h, touched + {a}) == Words(h, touched) + h[a].words
  {
    if a in h && a !in touched {
      WordsWith(h, touched, a);
      assert h.Keys - (touched + {a}) == h.Keys - touched - {a};
    }
  }

  // ----- Results -------------------------------------------------------------

  /** What root `i` owns: its own block and the blocks that no other root reaches. */
  ghost function Owned(h: Heap, roots: seq<Value>, i: nat): set<nat>
    requires i < |roots|
  {
    set a | a in h && if a in RootSet(roots) then roots[i] == Ptr(a) && First(roots, i)
                      else Holders(h, roots, |roots|, a) == {i}
  }

  /** The blocks that two roots or more reach. */
  ghost function Contested(h: Heap, roots: seq<Value>): set<nat> {
    set a | a in h && a !in RootSet(roots) && |Holders(h, roots, |roots|, a)| >= 2
  }

  lemma BooksRight(h: Heap, roots: seq<Value>, m: Marks, i: nat)
    requires MarksAgree(h, roots, |roots|, m) && i < |roots|
    ensures Account(h, roots, m, i) == Owned(h, roots, i)
    ensures SharedAccount(h, m) == Contested(h, roots)
  {
    forall a | a in h ensures a in Account(h, roots, m, i) <==> a in Owned(h, roots, i) {
      MarkInTheEnd(h, roots, m, a);
    }
    forall a | a in h ensures a in SharedAccount(h, m) <==> a in Contested(h, roots) {
      MarkInTheEnd(h, roots, m, a);
    }
  }

  lemma MarkInTheEnd(h: Heap, roots: seq<Value>, m: Marks, a: nat)
    requires MarksAgree(h, roots, |roots|, m) && a in h
    ensures a in RootSet(roots) ==> Ptr(a) in m && m[Ptr(a)] == RootProcessed
    ensures a !in RootSet(roots) ==> forall i: nat :: Ptr(a) in m && m[Ptr(a)] == Id(i) <==> Holders(h, roots, |roots|, a) == {i}
    ensures a !in RootSet(roots) ==> (Ptr(a) in m && m[Ptr(a)] == Shared <==> |Holders(h, roots, |roots|, a)| >= 2)
    ensures a !in RootSet(roots) && Ptr(a) in m ==> m[Ptr(a)].Id? || m[Ptr(a)].Shared?
  {
    if a in RootSet(roots) {
      var i :| 0 <= i < |roots| && roots[i] == Ptr(a);
      assert roots[i] in roots[..|roots|];
    } else {
      var holders := Holders(h, roots, |roots|, a);
      assert MarkTells(m, a, holders);
      ManyHolders(holders);
    }
  }

  lemma ManyHolders(s: set<nat>)
    ensures |s| >= 2 <==> s != {} && forall i :: s != {i}
  {
    if s != {} {
      var i :| i in s;
      assert s == {i} + (s - {i});
      assert |s| == 1 + |s - {i}|;
    }
  }

  method UniquelyReachableWords(heap: Heap, word: Value -> nat, roots: seq<Value>) returns (sizes: seq<int>, shared: int)
    requires Closed(heap) && RootsInHeap(heap, roots)
    ensures |sizes| == |roots|
    ensures forall i :: 0 <= i < |roots| ==> sizes[i] == Words(heap, Owned(heap, roots, i))
    ensures shared == Words(heap, Contested(heap, roots))
    ensures Sum(sizes) + shared == Words(heap, Live(heap, roots))
  {
    hide MarksAgree, Charged, Words, Table.Valid, RootsInHeap, Closed, Owned, Contested;
    var w := new Walker(heap, word, |roots|);
    for i := 0 to |roots|
      invariant w.Valid() && w.heap == heap && fresh(w) && fresh(w.table)
      invariant w.sizes == seq(|roots|, j => 0) && w.shared == 0
      invariant RootsMarked(roots, i, w.table.contents)
    {
      w.MarkRoot(roots[i]);
    }
    AgreesAtFirst(heap, roots, w.table.contents);
    for i := 0 to |roots|
      invariant w.Valid() && w.heap == heap && fresh(w) && fresh(w.table)
      invariant MarksAgree(heap, roots, i, w.table.contents) && w.Balanced(roots)
    {
      var size; ghost var touched;
      size, touched := w.Once(roots, i, true);
    }
    sizes, shared := w.sizes, w.shared;
    FinalBooks(heap, roots, w.table.contents, sizes, shared);
    Conservation(heap, roots, sizes, shared);
  }

  ghost predicate RootsMarked(roots: seq<Value>, n: nat, m: Marks) {
    n <= |roots| && (forall v :: v in m <==> v in roots[..n]) && (forall v :: v in m ==> m[v] == RootUnprocessed)
  }

  lemma AgreesAtFirst(h: Heap, roots: seq<Value>, m: Marks)
    requires RootsMarked(roots, |roots|, m)
    ensures MarksAgree(h, roots, 0, m)
    ensures Charged(h, roots, m, seq(|roots|, j => 0), 0)
  {
    forall a | a in h && a !in RootSet(roots) ensures Ptr(a) !in m {
    }
    assert SharedAccount(h, m) == {};
    forall i | 0 <= i < |roots| ensures Account(h, roots, m, i) == {} {
    }
  }

  lemma FinalBooks(h: Heap, roots: seq<Value>, m: Marks, sizes: seq<int>, shared: int)
    requires MarksAgree(h, roots, |roots|, m) && Charged(h, roots, m, sizes, shared)
    ensures |sizes| == |roots|
    ensures forall i :: 0 <= i < |roots| ==> sizes[i] == Words(h, Owned(h, roots, i))
    ensures shared == Words(h, Contested(h, roots))
  {
    forall i | 0 <= i < |roots| ensures sizes[i] == Words(h, Owned(h, roots, i)) {
      BooksRight(h, roots, m, i);
    }
    if roots == [] { assert SharedAccount(h, m) == Contested(h, roots); } else { BooksRight(h, roots, m, 0); }
  }

  method ReachableWords(heap: Heap, word: Value -> nat, v: Value) returns (size: nat)
    requires Closed(heap) && (v.Ptr? ==> v.addr in heap)
    ensures !v.Ptr? ==> size == 0
    ensures v.Ptr? ==> size == Words(heap, {v.addr} + set a | a in heap && Reaches(heap, {}, v.addr, a))
  {
    hide MarksAgree, Charged, Words, Table.Valid, Closed, Walking;
    var w := new Walker(heap, word, 1);
    w.MarkRoot(v);
    assert [v][..1] == [v];
    NothingYet(heap);
    AgreesAtFirst(heap, [v], w.table.contents);
    ghost var m := w.table.contents;
    ghost var touched;
    size, touched := w.Once([v], 0, false);
    OnlyRoot(heap, v, m, w.table.contents, touched);
  }

  lemma OnlyRoot(h: Heap, v: Value, m0: Marks, m: Marks, touched: set<nat>)
    requires Closed(h) && RootsMarked([v], 1, m0) && MarksAgree(h, [v], 0, m0)
    requires Walking(h, [v], 0, m0, m, touched, {}) && touched <= h.Keys
    ensures !v.Ptr? ==> touched == {}
    ensures v.Ptr? ==> touched == {v.addr} + set a | a in h && Reaches(h, {}, v.addr, a)
  {
    assert [v][..0] == [];
    forall a | a in h ensures a in touched <==> v.Ptr? && (a == v.addr || Reaches(h, {}, v.addr, a)) {
      if v == Ptr(a) {
      } else {
        MarkAfterWalk(h, [v], 0, m0, m, touched, a);
        if v.Ptr? { LoopsDropped(h, v.addr, a); }
      }
    }
  }

  /** Forbidding a return to the start does not change what is reached, but for the start. */
  lemma {:induction false} LoopsDropped(h: Heap, r: nat, a: nat)
    requires a != r
    ensures Reaches(h, {}, r, a) <==> Reaches(h, {r}, r, a)
  {
    if Reaches(h, {}, r, a) {
      var p :| Way(h, {}, p) && p[0] == r && p[|p| - 1] == a;
      ShortenWay(h, r, p);
    }
    if Reaches(h, {r}, r, a) {
      var p :| Way(h, {r}, p) && p[0] == r && p[|p| - 1] == a;
      assert Way(h, {}, p);
    }
  }

  lemma {:induction false} ShortenWay(h: Heap, r: nat, p: seq<nat>)
    requires Way(h, {}, p) && p[0] == r && p[|p| - 1] != r
    ensures Reaches(h, {r}, r, p[|p| - 1])
    decreases |p|
  {
    if i :| 1 <= i < |p| && p[i] == r {
      var q := p[i..];
      forall j | 0 <= j < |q| - 1 ensures Edge(h, q[j], q[j + 1]) { assert q[j] == p[i + j] && q[j + 1] == p[i + j + 1]; }
      ShortenWay(h, r, q);
    } else {
      assert Way(h, {r}, p);
    }
  }

  // ----- Conservation --------------------------------------------------------

  function Sum(s: seq<int>): int {
    if s == [] then 0 else Sum(s[..|s| - 1]) + s[|s| - 1]
  }

  /** Every block that is a root or is reached from one. */
  ghost function Live(h: Heap, roots: seq<Value>): set<nat> {
    set a | a in h && (a in RootSet(roots) || Holders(h, roots, |roots|, a) != {})
  }

  ghost function OwnedBelow(h: Heap, roots: seq<Value>, n: nat): set<nat>
    requires n <= |roots|
  {
    set i, a | 0 <= i < n && a in Owned(h, roots, i) :: a
  }

  lemma {:induction false} WordsJoin(h: Heap, s: set<nat>, t: set<nat>)
    requires s !! t
    ensures Words(h, s + t) == Words(h, s) + Words(h, t)
    decreases |t|
  {
    if t == {} {
      assert s + t == s;
    } else {
      var a :| a in t;
      WordsJoin(h, s, t - {a});
      WordsWithout(h, t, a);
      WordsWithout(h, s + t, a);
      assert s + t - {a} == s + (t - {a});
    }
  }

  lemma OwnersDiffer(h: Heap, roots: seq<Value>, i: nat, j: nat)
    requires i < j < |roots|
    ensures Owned(h, roots, i) !! Owned(h, roots, j)
  {
    assert roots[i] in roots[..j];
    assert i !in {j};
  }

  lemma {:induction false} OwnedSum(h: Heap, roots: seq<Value>, sizes: seq<int>, n: nat)
    requires n <= |roots| == |sizes|
    requires forall i :: 0 <= i < |roots| ==> sizes[i] == Words(h, Owned(h, roots, i))
    ensures Sum(sizes[..n]) == Words(h, OwnedBelow(h, roots, n))
  {
    hide Owned, OwnedBelow, Words;
    if n == 0 {
      NoneOwned(h, roots);
    } else {
      OwnedSum(h, roots, sizes, n - 1);
      assert sizes[..n][..n - 1] == sizes[..n - 1];
      OneMoreOwner(h, roots, n - 1);
      WordsJoin(h, OwnedBelow(h, roots, n - 1), Owned(h, roots, n - 1));
    }
  }

  lemma NoneOwned(h: Heap, roots: seq<Value>)
    ensures Words(h, OwnedBelow(h, roots, 0)) == 0
  {
    assert OwnedBelow(h, roots, 0) == {};
  }

  lemma OneMoreOwner(h: Heap, roots: seq<Value>, n: nat)
    requires n < |roots|
    ensures OwnedBelow(h, roots, n + 1) == OwnedBelow(h, roots, n) + Owned(h, roots, n)
    ensures OwnedBelow(h, roots, n) !! Owned(h, roots, n)
  {
    hide Owned;
    forall a | a in OwnedBelow(h, roots, n) ensures a !in Owned(h, roots, n) {
      var i :| 0 <= i < n && a in Owned(h, roots, i);
      OwnersDiffer(h, roots, i, n);
    }
  }

  /** The first place of a value in a sequence. */
  lemma {:induction false} FirstPlace(roots: seq<Value>, i: nat) returns (j: nat)
    requires i < |roots|
    ensures j <= i && roots[j] == roots[i] && First(roots, j)
  {
    if First(roots, i) {
      j := i;
    } else {
      var k :| 0 <= k < i && roots[k] == roots[i];
      j := FirstPlace(roots, k);
    }
  }

  lemma AccountsCover(h: Heap, roots: seq<Value>)
    ensures OwnedBelow(h, roots, |roots|) + Contested(h, roots) == Live(h, roots)
    ensures OwnedBelow(h, roots, |roots|) !! Contested(h, roots)
  {
    forall a | a in Live(h, roots) ensures a in OwnedBelow(h, roots, |roots|) + Contested(h, roots) {
      if a in RootSet(roots) {
        var i :| 0 <= i < |roots| && roots[i] == Ptr(a);
        var j := FirstPlace(roots, i);
        assert a in Owned(h, roots, j);
      } else {
        var holders := Holders(h, roots, |roots|, a);
        ManyHolders(holders);
        if i :| holders == {i} {
          assert i in holders;
          assert a in Owned(h, roots, i);
        }
      }
    }
  }

  /** Nothing is lost or counted twice: the accounts add up to all that is live. */
  lemma Conservation(h: Heap, roots: seq<Value>, sizes: seq<int>, shared: int)
    requires |sizes| == |roots|
    requires forall i :: 0 <= i < |roots| ==> sizes[i] == Words(h, Owned(h, roots, i))
    requires shared == Words(h, Contested(h, roots))
    ensures Sum(sizes) + shared == Words(h, Live(h, roots))
  {
    OwnedSum(h, roots, sizes, |roots|);
    assert sizes[..|roots|] == sizes;
    AccountsCover(h, roots);
    WordsJoin(h, OwnedBelow(h, roots, |roots|), Contested(h, roots));
  }
}
