/**
Scanning the local allocations of a fiber: one upward pass over the arenas of its local
stack that marks what the blocks met so far point to, calls the collector's action on
their pointers into the heaps, and takes each mark away again when it passes the block.
*/
module FiberLocalScan {

  const HEADER: nat := 8

  datatype Arena = Arena(base: nat, length: nat)

  /** A place in the local stack: an arena and the (negative) offset of a header from its end. */
  datatype Loc = Loc(arena: nat, sp: int)

  /** A field: a pointer to a local block points `inner` bytes behind its first field. */
  datatype Word =
    | Immediate
    | Young(x: nat)
    | Major(x: nat)
    | External(addr: nat)
    | Local(loc: Loc, inner: nat)

  /** A block: its size in bytes with its header, and the fields the collector looks at. */
  datatype Block = Block(size: nat, scannable: bool, fields: seq<Word>)

  type Memory = map<Loc, Block>

  // ----- Arenas --------------------------------------------------------------

  /** The address of the first field of the block at `l`. */
  function Address(arenas: seq<Arena>, l: Loc): int
    requires l.arena < |arenas|
  {
    arenas[l.arena].base + arenas[l.arena].length + l.sp + HEADER
  }

  predicate Within(a: Arena, addr: int) {
    a.base <= addr < a.base + a.length
  }

  ghost predicate Apart(arenas: seq<Arena>) {
    forall i, j, x :: 0 <= i < j < |arenas| && Within(arenas[i], x) ==> !Within(arenas[j], x)
  }

  method GetLocalIx(arenas: seq<Arena>, addr: int) returns (ix: int)
    ensures -1 <= ix < |arenas|
    ensures ix >= 0 ==> Within(arenas[ix], addr)
    ensures ix == -1 ==> forall i :: 0 <= i < |arenas| ==> !Within(arenas[i], addr)
    ensures ix >= 0 ==> arenas[ix].base <= addr < arenas[ix].base + arenas[ix].length
    ensures ix == -1 ==> forall i :: 0 <= i < |arenas| ==> addr < arenas[i].base || addr >= arenas[i].base + arenas[i].length
  {
    for i := 0 to |arenas|
      invariant forall j :: 0 <= j < i ==> !Within(arenas[j], addr)
    {
      if Within(arenas[i], addr) { return i; }
    }
    ix := -1;
  }

  // ----- The layout of the local stack ---------------------------------------

  /** `order` lists the blocks from the cursor upwards; an unused header leads on to the arena below. */
  ghost predicate LaidOut(arenas: seq<Arena>, mem: Memory, unused: set<Loc>, at: Loc, order: seq<Loc>)
    decreases at.arena, |order|
  {
    && at.arena < |arenas|
    && if at.sp >= 0 then at.sp == 0 && order == []
       else if at in unused then at.arena > 0 && LaidOut(arenas, mem, unused, Loc(at.arena - 1, at.sp), order)
       else
         && |order| > 0 && order[0] == at && at in mem && mem[at].size >= 2 * HEADER
         && Within(arenas[at.arena], Address(arenas, at))
         && LaidOut(arenas, mem, unused, Loc(at.arena, at.sp + mem[at].size), order[1..])
  }

  /** The offsets grow, so a block stands in one place of the order. */
  ghost predicate Ascending(mem: Memory, order: seq<Loc>) {
    && (forall i :: 0 <= i < |order| ==> order[i] in mem && order[i].sp < 0)
    && (forall i, j :: 0 <= i < j < |order| ==> order[i].sp + mem[order[i]].size <= order[j].sp)
    && (forall i :: 0 <= i < |order| ==> mem[order[i]].size >= 2 * HEADER)
  }

  lemma {:induction false} LaidOutAscends(arenas: seq<Arena>, mem: Memory, unused: set<Loc>, at: Loc, order: seq<Loc>)
    requires LaidOut(arenas, mem, unused, at, order)
    ensures Ascending(mem, order) && (forall i :: 0 <= i < |order| ==> at.sp <= order[i].sp)
    ensures forall i :: 0 <= i < |order| ==> order[i].arena < |arenas| && Within(arenas[order[i].arena], Address(arenas, order[i]))
    decreases at.arena, |order|
  {
    if at.sp >= 0 {
    } else if at in unused {
      LaidOutAscends(arenas, mem, unused, Loc(at.arena - 1, at.sp), order);
    } else {
      LaidOutAscends(arenas, mem, unused, Loc(at.arena, at.sp + mem[at].size), order[1..]);
      forall i | 0 < i < |order|
        ensures order[i] in mem && at.sp + mem[at].size <= order[i].sp < 0 && mem[order[i]].size >= 2 * HEADER
        ensures order[i].arena < |arenas| && Within(arenas[order[i].arena], Address(arenas, order[i]))
      {
        assert order[i] == order[1..][i - 1];
      }
      forall i, j | 0 <= i < j < |order| ensures order[i].sp + mem[order[i]].size <= order[j].sp {
        assert i > 0 ==> order[i] == order[1..][i - 1];
        assert order[j] == order[1..][j - 1];
      }
    }
  }

  // ----- What is alive -------------------------------------------------------

  ghost predicate Points(mem: Memory, a: Loc, b: Loc) {
    a in mem && mem[a].scannable && exists i :: 0 <= i < |mem[a].fields| && mem[a].fields[i].Local? && mem[a].fields[i].loc == b
  }

  /** A way along pointers between local blocks; an upward one never goes to a lower offset. */
  ghost predicate Way(mem: Memory, up: bool, p: seq<Loc>) {
    |p| > 0 && forall i :: 0 <= i < |p| - 1 ==> Points(mem, p[i], p[i + 1]) && (up ==> p[i].sp <= p[i + 1].sp)
  }

  /** Reached from the blocks marked at the start. */
  ghost predicate Reached(mem: Memory, marked: set<Loc>, b: Loc) {
    exists p :: Way(mem, false, p) && p[0] in marked && p[|p| - 1] == b
  }

  /** Reached upwards. */
  ghost predicate Alive(mem: Memory, marked: set<Loc>, b: Loc) {
    exists p :: Way(mem, true, p) && p[0] in marked && p[|p| - 1] == b
  }

  lemma AliveMarked(mem: Memory, marked: set<Loc>, b: Loc)
    requires b in marked
    ensures Alive(mem, marked, b)
  {
    assert Way(mem, true, [b]);
  }

  lemma AliveOn(mem: Memory, marked: set<Loc>, a: Loc, b: Loc)
    requires Alive(mem, marked, a) && Points(mem, a, b) && a.sp <= b.sp
    ensures Alive(mem, marked, b)
  {
    var p :| Way(mem, true, p) && p[0] in marked && p[|p| - 1] == a;
    var q := p + [b];
    forall i | 0 <= i < |q| - 1 ensures Points(mem, q[i], q[i + 1]) && q[i].sp <= q[i + 1].sp {
      if i < |p| - 1 { assert Points(mem, p[i], p[i + 1]); }
    }
    assert Way(mem, true, q);
  }

  /** Local pointers lead to blocks of the stack, inside the block they name. */
  ghost predicate PointersOk(arenas: seq<Arena>, mem: Memory, order: seq<Loc>) {
    forall a, i :: a in order && a in mem && 0 <= i < |mem[a].fields| ==>
      match mem[a].fields[i]
      case Local(b, inner) => b in order && b in mem && inner + HEADER < mem[b].size
      case External(x) => forall k :: 0 <= k < |arenas| ==> !Within(arenas[k], x)
      case _ => true
  }

  /** A live block points back to one that will not be marked any more. */
  ghost predicate PointsBack(mem: Memory, marked: set<Loc>, a: Loc, b: Loc) {
    Alive(mem, marked, a) && Points(mem, a, b) && b.sp < a.sp && !(Alive(mem, marked, b) && Points(mem, b, b))
  }

  ghost predicate Backwards(mem: Memory, marked: set<Loc>) {
    exists a, b :: PointsBack(mem, marked, a, b)
  }

  /** Unless a live block points back, all that is reached is reached upwards. */
  lemma ReachedIsAlive(mem: Memory, marked: set<Loc>, b: Loc)
    requires !Backwards(mem, marked)
    ensures Reached(mem, marked, b) <==> Alive(mem, marked, b)
  {
    if Reached(mem, marked, b) {
      var p :| Way(mem, false, p) && p[0] in marked && p[|p| - 1] == b;
      WayIsAlive(mem, marked, p, |p| - 1);
    }
    if Alive(mem, marked, b) {
      var p :| Way(mem, true, p) && p[0] in marked && p[|p| - 1] == b;
      assert Way(mem, false, p);
    }
  }

  lemma {:induction false} WayIsAlive(mem: Memory, marked: set<Loc>, p: seq<Loc>, i: nat)
    requires !Backwards(mem, marked) && Way(mem, false, p) && p[0] in marked && i < |p|
    ensures Alive(mem, marked, p[i])
  {
    if i == 0 {
      AliveMarked(mem, marked, p[0]);
    } else {
      WayIsAlive(mem, marked, p, i - 1);
      assert Points(mem, p[i - 1], p[i]);
      if p[i - 1].sp <= p[i].sp { AliveOn(mem, marked, p[i - 1], p[i]); }
      else { assert !PointsBack(mem, marked, p[i - 1], p[i]); }
    }
  }

  // ----- What the pass does --------------------------------------------------

  datatype Call = Call(block: Loc, field: nat)

  predicate InHeap(w: Word) {
    w.Young? || w.Major?
  }

  /** The calls for the first `n` fields of a block. */
  ghost function CallsFor(a: Loc, fields: seq<Word>, n: nat): seq<Call>
    requires n <= |fields|
  {
    if n == 0 then []
    else CallsFor(a, fields, n - 1) + if InHeap(fields[n - 1]) then [Call(a, n - 1)] else []
  }

  /** The calls for the first `n` blocks, those that are alive. */
  ghost function CallsBelow(mem: Memory, marked: set<Loc>, order: seq<Loc>, n: nat): seq<Call>
    requires n <= |order|
  {
    if n == 0 then []
    else
      var a := order[n - 1];
      CallsBelow(mem, marked, order, n - 1)
        + if a in mem && mem[a].scannable && Alive(mem, marked, a) then CallsFor(a, mem[a].fields, |mem[a].fields|) else []
  }

  /** The local blocks the first `n` fields point to. */
  ghost function Targets(fields: seq<Word>, n: nat): set<Loc>
    requires n <= |fields|
  {
    set i | 0 <= i < n && fields[i].Local? :: fields[i].loc
  }

  /**
  The marks when the cursor stands before block `n`: ahead, what was marked at the start or
  is pointed to from a live block behind; behind, live blocks that point to themselves.
  */
  ghost predicate MarksAt(mem: Memory, marked: set<Loc>, order: seq<Loc>, n: nat, marks: set<Loc>)
    requires n <= |order|
  {
    && (forall b :: b in marks ==> b in order)
    && (forall j :: n <= j < |order| ==> AheadOk(mem, marked, order, n, marks, order[j]))
    && (forall j :: 0 <= j < n ==> BehindOk(mem, marked, marks, order[j]))
  }

  ghost predicate AheadOk(mem: Memory, marked: set<Loc>, order: seq<Loc>, n: nat, marks: set<Loc>, b: Loc)
    requires n <= |order|
  {
    b in marks <==> b in marked || PointedBelow(mem, marked, order, n, b)
  }

  ghost predicate BehindOk(mem: Memory, marked: set<Loc>, marks: set<Loc>, b: Loc) {
    b in marks <==> Alive(mem, marked, b) && Points(mem, b, b)
  }

  ghost predicate PointedBelow(mem: Memory, marked: set<Loc>, order: seq<Loc>, n: nat, b: Loc)
    requires n <= |order|
  {
    exists i :: 0 <= i < n && Alive(mem, marked, order[i]) && Points(mem, order[i], b)
  }

  /** The blocks marked at the start, the pointers and the layout are as they should be. */
  ghost predicate Sensible(arenas: seq<Arena>, mem: Memory, marked: set<Loc>, order: seq<Loc>) {
    && Ascending(mem, order) && PointersOk(arenas, mem, order) && Apart(arenas)
    && (forall b :: b in marked ==> b in order)
    && (forall i :: 0 <= i < |order| ==> order[i].arena < |arenas| && Within(arenas[order[i].arena], Address(arenas, order[i])))
  }

  lemma {:induction false} WayInOrder(arenas: seq<Arena>, mem: Memory, marked: set<Loc>, order: seq<Loc>, p: seq<Loc>, i: nat)
    requires Sensible(arenas, mem, marked, order) && Way(mem, true, p) && p[0] in marked && i < |p|
    ensures p[i] in order
  {
    if i > 0 {
      WayInOrder(arenas, mem, marked, order, p, i - 1);
      PointsInOrder(arenas, mem, order, p[i - 1], p[i]);
    }
  }

  lemma AliveInOrder(arenas: seq<Arena>, mem: Memory, marked: set<Loc>, order: seq<Loc>, a: Loc)
    requires Sensible(arenas, mem, marked, order) && Alive(mem, marked, a)
    ensures a in order
  {
    var p :| Way(mem, true, p) && p[0] in marked && p[|p| - 1] == a;
    WayInOrder(arenas, mem, marked, order, p, |p| - 1);
  }

  lemma PointsInOrder(arenas: seq<Arena>, mem: Memory, order: seq<Loc>, a: Loc, b: Loc)
    requires PointersOk(arenas, mem, order) && a in order && Points(mem, a, b)
    ensures b in order
  {
    var i :| 0 <= i < |mem[a].fields| && mem[a].fields[i].Local? && mem[a].fields[i].loc == b;
  }

  /** Offsets tell the order of blocks. */
  lemma OffsetsTell(mem: Memory, order: seq<Loc>, i: nat, j: nat)
    requires Ascending(mem, order) && i < |order| && j < |order|
    ensures order[i].sp <= order[j].sp <==> i <= j
    ensures order[i] == order[j] <==> i == j
  {
  }

  /** When the cursor reaches a block, all that can mark it has been seen. */
  lemma AliveByThen(arenas: seq<Arena>, mem: Memory, marked: set<Loc>, order: seq<Loc>, n: nat)
    requires Sensible(arenas, mem, marked, order) && n < |order|
    ensures Alive(mem, marked, order[n]) <==> order[n] in marked || PointedBelow(mem, marked, order, n, order[n])
  {
    if Alive(mem, marked, order[n]) {
      var p :| Way(mem, true, p) && p[0] in marked && p[|p| - 1] == order[n];
      LastWay(arenas, mem, marked, order, n, p);
    }
    if order[n] in marked { AliveMarked(mem, marked, order[n]); }
    if PointedBelow(mem, marked, order, n, order[n]) {
      var i :| 0 <= i < n && Alive(mem, marked, order[i]) && Points(mem, order[i], order[n]);
      AliveOn(mem, marked, order[i], order[n]);
    }
  }

  lemma {:induction false} LastWay(arenas: seq<Arena>, mem: Memory, marked: set<Loc>, order: seq<Loc>, n: nat, p: seq<Loc>)
    requires Sensible(arenas, mem, marked, order) && n < |order|
    requires Way(mem, true, p) && p[0] in marked && p[|p| - 1] == order[n]
    ensures order[n] in marked || PointedBelow(mem, marked, order, n, order[n])
    decreases |p|
  {
    if |p| > 1 {
      var q := p[..|p| - 1];
      var a := p[|p| - 2];
      assert Way(mem, true, q) by {
        forall i | 0 <= i < |q| - 1 ensures Points(mem, q[i], q[i + 1]) && q[i].sp <= q[i + 1].sp {
          assert Points(mem, p[i], p[i + 1]);
        }
      }
      assert q[|q| - 1] == a && q[0] == p[0];
      assert Points(mem, a, order[n]) && a.sp <= order[n].sp by { assert Points(mem, p[|p| - 2], p[|p| - 1]); }
      assert Alive(mem, marked, a);
      WayInOrder(arenas, mem, marked, order, p, |p| - 2);
      var j :| 0 <= j < |order| && order[j] == a;
      OffsetsTell(mem, order, j, n);
      if j == n { LastWay(arenas, mem, marked, order, n, q); }
    }
  }

  lemma MarkTellsLife(arenas: seq<Arena>, mem: Memory, marked: set<Loc>, order: seq<Loc>, n: nat, marks: set<Loc>)
    requires Sensible(arenas, mem, marked, order) && n < |order| && MarksAt(mem, marked, order, n, marks)
    ensures order[n] in marks <==> Alive(mem, marked, order[n])
  {
    AliveByThen(arenas, mem, marked, order, n);
    assert AheadOk(mem, marked, order, n, marks, order[n]);
  }

  lemma PointedOn(mem: Memory, marked: set<Loc>, order: seq<Loc>, n: nat, b: Loc)
    requires n < |order|
    ensures PointedBelow(mem, marked, order, n + 1, b) <==>
      PointedBelow(mem, marked, order, n, b) || (Alive(mem, marked, order[n]) && Points(mem, order[n], b))
  {
  }

  /** What passing block `n` does to the mark of another block, or to its own. */
  ghost predicate Passed(mem: Memory, a: Loc, alive: bool, marks: set<Loc>, marks': set<Loc>, b: Loc) {
    b in marks' <==> (b != a && b in marks) || (alive && Points(mem, a, b))
  }

  /** Passing block `n`: its mark goes, and what it points to, if it is alive, is marked. */
  lemma MarksPass(mem: Memory, marked: set<Loc>, order: seq<Loc>, n: nat, marks: set<Loc>, marks': set<Loc>)
    requires n < |order| && Ascending(mem, order) && MarksAt(mem, marked, order, n, marks)
    requires forall b :: b in marks' ==> b in order
    requires forall b :: Passed(mem, order[n], Alive(mem, marked, order[n]), marks, marks', b)
    requires forall b :: !PointsBack(mem, marked, order[n], b)
    ensures MarksAt(mem, marked, order, n + 1, marks')
  {
    var a := order[n];
    forall j | n + 1 <= j < |order| ensures AheadOk(mem, marked, order, n + 1, marks', order[j]) {
      assert AheadOk(mem, marked, order, n, marks, order[j]);
      assert Passed(mem, a, Alive(mem, marked, a), marks, marks', order[j]);
      PointedOn(mem, marked, order, n, order[j]);
      OffsetsTell(mem, order, j, n);
    }
    forall j | 0 <= j < n + 1 ensures BehindOk(mem, marked, marks', order[j]) {
      assert Passed(mem, a, Alive(mem, marked, a), marks, marks', order[j]);
      OffsetsTell(mem, order, j, n);
      OffsetsTell(mem, order, n, j);
      if j < n {
        assert BehindOk(mem, marked, marks, order[j]);
        assert !PointsBack(mem, marked, a, order[j]);
      }
    }
  }

  // ----- Exactly the calls that are due --------------------------------------

  ghost predicate Due(mem: Memory, marked: set<Loc>, order: seq<Loc>, c: Call) {
    && c.block in order && c.block in mem && mem[c.block].scannable && Alive(mem, marked, c.block)
    && c.field < |mem[c.block].fields| && InHeap(mem[c.block].fields[c.field])
  }

  /** How often `c` stands in `s`. */
  function Count(s: seq<Call>, c: Call): nat {
    if s == [] then 0 else Count(s[..|s| - 1], c) + if s[|s| - 1] == c then 1 else 0
  }

  lemma {:induction false} CountConcat(s: seq<Call>, t: seq<Call>, c: Call)
    ensures Count(s + t, c) == Count(s, c) + Count(t, c)
  {
    if t == [] {
      assert s + t == s;
    } else {
      CountConcat(s, t[..|t| - 1], c);
      assert (s + t)[..|s + t| - 1] == s + t[..|t| - 1];
    }
  }

  lemma {:induction false} CallsForOnce(a: Loc, fields: seq<Word>, n: nat, c: Call)
    requires n <= |fields|
    ensures Count(CallsFor(a, fields, n), c) == if c.block == a && c.field < n && InHeap(fields[c.field]) then 1 else 0
  {
    if n > 0 {
      CallsForOnce(a, fields, n - 1, c);
      CountConcat(CallsFor(a, fields, n - 1), [Call(a, n - 1)], c);
      CountOne(Call(a, n - 1), c);
      assert CallsFor(a, fields, n - 1) + [] == CallsFor(a, fields, n - 1);
    }
  }

  lemma CountOne(d: Call, c: Call)
    ensures Count([d], c) == if d == c then 1 else 0
  {
    assert [d][..0] == [];
  }

  lemma {:induction false} CallsBelowOnce(mem: Memory, marked: set<Loc>, order: seq<Loc>, n: nat, c: Call)
    requires Ascending(mem, order) && n <= |order|
    ensures Count(CallsBelow(mem, marked, order, n), c) == if Due(mem, marked, order[..n], c) then 1 else 0
  {
    hide Count, CallsFor, Alive;
    if n > 0 {
      var a := order[n - 1];
      CallsBelowOnce(mem, marked, order, n - 1, c);
      CallsForOnce(a, mem[a].fields, |mem[a].fields|, c);
      CountConcat(CallsBelow(mem, marked, order, n - 1), CallsFor(a, mem[a].fields, |mem[a].fields|), c);
      assert order[..n] == order[..n - 1] + [a];
      assert CallsBelow(mem, marked, order, n - 1) + [] == CallsBelow(mem, marked, order, n - 1);
      forall j | 0 <= j < n - 1 ensures order[j] != a { OffsetsTell(mem, order, j, n - 1); }
    } else {
      NoCalls(c);
    }
  }

  lemma NoCalls(c: Call)
    ensures Count([], c) == 0
  {
  }

  // ----- The scanner ---------------------------------------------------------

  /** What a visit relies on: local pointers go into their arena, external ones into none. */
  ghost predicate WordOk(arenas: seq<Arena>, w: Word) {
    && (w.Local? ==> w.loc.arena < |arenas| && Within(arenas[w.loc.arena], Address(arenas, w.loc)))
    && (w.External? ==> forall k :: 0 <= k < |arenas| ==> !Within(arenas[k], w.addr))
  }

  class Scanner {
    const arenas: seq<Arena>
    const mem: Memory
    const unused: set<Loc>
    var marks: set<Loc>
    var calls: seq<Call>

    constructor (arenas: seq<Arena>, mem: Memory, unused: set<Loc>, marked: set<Loc>)
      ensures this.arenas == arenas && this.mem == mem && this.unused == unused && marks == marked && calls == []
    {
      this.arenas, this.mem, this.unused, marks, calls := arenas, mem, unused, marked, [];
    }

    /** `visit` at field `i` of the block at `a`: the arena of a local block it marks, else -1. */
    method Visit(a: Loc, i: nat) returns (ix: int)
      requires Apart(arenas) && a in mem && i < |mem[a].fields| && WordOk(arenas, mem[a].fields[i])
      modifies this
      ensures var w := mem[a].fields[i];
        && calls == old(calls) + (if InHeap(w) then [Call(a, i)] else [])
        && marks == old(marks) + (if w.Local? then {w.loc} else {})
        && ix == if w.Local? && w.loc !in old(marks) then w.loc.arena else -1
    {
      ix := -1;
      match mem[a].fields[i] {
        case Immediate =>
        case Young(_) => calls := calls + [Call(a, i)];
        case Major(_) => calls := calls + [Call(a, i)];
        case External(addr) => ix := GetLocalIx(arenas, addr);
        case Local(loc, _) =>
          if loc !in marks {
            ix := GetLocalIx(arenas, Address(arenas, loc));
            if ix != -1 { marks := marks + {loc}; }
          }
      }
    }

    /** The fields of a marked block: fatal on meeting an unmarked block at a lower offset. */
    method ScanFields(a: Loc) returns (fatal: bool)
      requires Apart(arenas) && a in mem && forall i :: 0 <= i < |mem[a].fields| ==> WordOk(arenas, mem[a].fields[i])
      requires forall i :: 0 <= i < |mem[a].fields| && mem[a].fields[i].Local? ==> ClearlyPlaced(a, mem[a].fields[i])
      modifies this
      ensures fatal ==> exists i :: 0 <= i < |mem[a].fields| && LeadsBack(a, mem[a].fields[i], old(marks))
      ensures !fatal ==> forall i :: 0 <= i < |mem[a].fields| ==> !LeadsBack(a, mem[a].fields[i], old(marks))
      ensures !fatal ==> marks == old(marks) + Targets(mem[a].fields, |mem[a].fields|)
      ensures !fatal ==> calls == old(calls) + CallsFor(a, mem[a].fields, |mem[a].fields|)
    {
      hide CallsFor, Targets;
      var fields := mem[a].fields;
      fatal := false;
      NoFieldYet(a, fields);
      for i := 0 to |fields|
        invariant marks == old(marks) + Targets(fields, i)
        invariant calls == old(calls) + CallsFor(a, fields, i)
        invariant forall j :: 0 <= j < i ==> !LeadsBack(a, fields[j], old(marks))
        invariant forall b :: b in Targets(fields, i) ==> b in old(marks) || a.sp <= b.sp
      {
        var ix := Visit(a, i);
        NextField(a, fields, i);
        assert fields[i].Local? ==> ClearlyPlaced(a, fields[i]);
        if ix != -1 {
          var newsp := Address(arenas, fields[i].loc) + fields[i].inner - (arenas[ix].base + arenas[ix].length);
          if a.sp > newsp {
            assert LeadsBack(a, fields[i], old(marks));
            return true;
          }
        }
      }
    }

    /**
    `scan_local_allocations`. It stops with a fatal error exactly when a live block points
    back to an unmarked one. Otherwise the action is called exactly once for each pointer
    into the heaps from a reached block, and the marks left are those of self-pointing ones.
    */
    method Scan(localSp: int, ghost order: seq<Loc>) returns (fatal: bool)
      requires |arenas| > 0 && LaidOut(arenas, mem, unused, Loc(|arenas| - 1, localSp), order)
      requires Sensible(arenas, mem, marks, order)
      modifies this
      ensures fatal <==> Backwards(mem, old(marks))
      ensures !fatal ==> calls == old(calls) + CallsBelow(mem, old(marks), order, |order|)
      ensures !fatal ==> forall b :: b in marks <==> b in order && Alive(mem, old(marks), b) && Points(mem, b, b)
    {
      hide LaidOut, Sensible, MarksAt, PointsBack, Backwards, Alive, Points, CallsBelow, CallsFor, Targets, Ascending, Apart;
      ghost var marked, n := marks, 0;
      var at := Loc(|arenas| - 1, localSp);
      NothingPassed(arenas, mem, marked, order);
      assert order[0..] == order;
      fatal := false;
      while at.sp < 0
        invariant at.arena < |arenas| && n <= |order| && LaidOut(arenas, mem, unused, at, order[n..])
        invariant MarksAt(mem, marked, order, n, marks)
        invariant calls == old(calls) + CallsBelow(mem, marked, order, n)
        invariant forall j :: 0 <= j < n ==> SendsNoneBack(mem, marked, order[j])
        decreases at.arena, |order| - n
      {
        LayoutStep(arenas, mem, unused, at, order, n);
        if at in unused {
          at := Loc(at.arena - 1, at.sp);
        } else {
          MarkTellsLife(arenas, mem, marked, order, n, marks);
          ghost var before := marks;
          var block := mem[at];
          if at !in marks || !block.scannable {
            marks := marks - {at};
            BlockSkipped(arenas, mem, marked, order, n, before);
          } else {
            marks := marks - {at};
            FieldsReady(arenas, mem, marked, order, n);
            fatal := ScanFields(at);
            if fatal {
              FieldsLeadBack(arenas, mem, marked, order, n, before);
              return;
            }
            FieldsPassed(arenas, mem, marked, order, n, before);
          }
          CallsStep(mem, marked, order, n);
          n := n + 1;
          at := Loc(at.arena, at.sp + block.size);
        }
      }
      AllPassed(arenas, mem, unused, marked, at, order, n, marks);
    }
  }

  lemma NoFieldYet(a: Loc, fields: seq<Word>)
    ensures Targets(fields, 0) == {} && CallsFor(a, fields, 0) == []
  {
  }

  lemma NextField(a: Loc, fields: seq<Word>, i: nat)
    requires i < |fields|
    ensures Targets(fields, i + 1) == Targets(fields, i) + if fields[i].Local? then {fields[i].loc} else {}
    ensures CallsFor(a, fields, i + 1) == CallsFor(a, fields, i) + if InHeap(fields[i]) then [Call(a, i)] else []
  {
  }

  ghost predicate SendsNoneBack(mem: Memory, marked: set<Loc>, a: Loc) {
    forall b :: !PointsBack(mem, marked, a, b)
  }

  lemma NothingPassed(arenas: seq<Arena>, mem: Memory, marked: set<Loc>, order: seq<Loc>)
    requires Sensible(arenas, mem, marked, order)
    ensures MarksAt(mem, marked, order, 0, marked) && CallsBelow(mem, marked, order, 0) == []
  {
  }

  lemma LayoutStep(arenas: seq<Arena>, mem: Memory, unused: set<Loc>, at: Loc, order: seq<Loc>, n: nat)
    requires n <= |order| && LaidOut(arenas, mem, unused, at, order[n..]) && at.sp < 0
    ensures at in unused ==> at.arena > 0 && LaidOut(arenas, mem, unused, Loc(at.arena - 1, at.sp), order[n..])
    ensures at !in unused ==> n < |order| && order[n] == at && at in mem
    ensures at !in unused ==> LaidOut(arenas, mem, unused, Loc(at.arena, at.sp + mem[at].size), order[n + 1..])
  {
    assert at !in unused ==> order[n..][1..] == order[n + 1..];
  }

  lemma CallsStep(mem: Memory, marked: set<Loc>, order: seq<Loc>, n: nat)
    requires n < |order| && order[n] in mem
    ensures mem[order[n]].scannable && Alive(mem, marked, order[n]) ==>
      CallsBelow(mem, marked, order, n + 1)
      == CallsBelow(mem, marked, order, n) + CallsFor(order[n], mem[order[n]].fields, |mem[order[n]].fields|)
    ensures !mem[order[n]].scannable || !Alive(mem, marked, order[n]) ==>
      CallsBelow(mem, marked, order, n + 1) == CallsBelow(mem, marked, order, n)
  {
  }

  lemma BlockSkipped(arenas: seq<Arena>, mem: Memory, marked: set<Loc>, order: seq<Loc>, n: nat, marks: set<Loc>)
    requires Sensible(arenas, mem, marked, order) && n < |order| && MarksAt(mem, marked, order, n, marks)
    requires order[n] in marks <==> Alive(mem, marked, order[n])
    requires order[n] !in marks || (order[n] in mem && !mem[order[n]].scannable)
    ensures MarksAt(mem, marked, order, n + 1, marks - {order[n]}) && SendsNoneBack(mem, marked, order[n])
  {
    var a, marks' := order[n], marks - {order[n]};
    forall b ensures Passed(mem, a, Alive(mem, marked, a), marks, marks', b) && !PointsBack(mem, marked, a, b) {
    }
    MarksPass(mem, marked, order, n, marks, marks');
  }

  lemma FieldsReady(arenas: seq<Arena>, mem: Memory, marked: set<Loc>, order: seq<Loc>, n: nat)
    requires Sensible(arenas, mem, marked, order) && n < |order| && order[n] in mem
    ensures Apart(arenas)
    ensures forall i :: 0 <= i < |mem[order[n]].fields| ==> WordOk(arenas, mem[order[n]].fields[i])
    ensures forall i :: 0 <= i < |mem[order[n]].fields| && mem[order[n]].fields[i].Local? ==>
      ClearlyPlaced(order[n], mem[order[n]].fields[i])
  {
    var fields := mem[order[n]].fields;
    forall i | 0 <= i < |fields| && fields[i].Local? ensures WordOk(arenas, fields[i]) && ClearlyPlaced(order[n], fields[i]) {
      var j :| 0 <= j < |order| && order[j] == fields[i].loc;
      OffsetsTell(mem, order, n, j);
    }
  }

  lemma TargetsArePointed(mem: Memory, a: Loc, b: Loc)
    requires a in mem && mem[a].scannable
    ensures b in Targets(mem[a].fields, |mem[a].fields|) <==> Points(mem, a, b)
  {
  }

  /** Behind the cursor a mark means: alive and pointing to itself. */
  lemma MarkBehind(mem: Memory, marked: set<Loc>, order: seq<Loc>, n: nat, marks: set<Loc>, b: Loc)
    requires n < |order| && Ascending(mem, order) && MarksAt(mem, marked, order, n, marks) && b in order && b.sp < order[n].sp
    ensures b in marks <==> Alive(mem, marked, b) && Points(mem, b, b)
  {
    var j :| 0 <= j < |order| && order[j] == b;
    OffsetsTell(mem, order, n, j);
    assert BehindOk(mem, marked, marks, order[j]);
  }

  lemma FieldsLeadBack(arenas: seq<Arena>, mem: Memory, marked: set<Loc>, order: seq<Loc>, n: nat, marks: set<Loc>)
    requires n < |order| && MarksAt(mem, marked, order, n, marks) && order[n] in mem && mem[order[n]].scannable
    requires Sensible(arenas, mem, marked, order)
    requires Alive(mem, marked, order[n])
    requires exists i :: 0 <= i < |mem[order[n]].fields| && LeadsBack(order[n], mem[order[n]].fields[i], marks - {order[n]})
    ensures Backwards(mem, marked)
  {
    var a := order[n];
    var i :| 0 <= i < |mem[a].fields| && LeadsBack(a, mem[a].fields[i], marks - {a});
    var b := mem[a].fields[i].loc;
    assert Points(mem, a, b);
    MarkBehind(mem, marked, order, n, marks, b);
    assert PointsBack(mem, marked, a, b);
  }

  lemma FieldsPassed(arenas: seq<Arena>, mem: Memory, marked: set<Loc>, order: seq<Loc>, n: nat, marks: set<Loc>)
    requires Sensible(arenas, mem, marked, order) && n < |order| && MarksAt(mem, marked, order, n, marks)
    requires order[n] in mem && mem[order[n]].scannable && Alive(mem, marked, order[n])
    requires forall i :: 0 <= i < |mem[order[n]].fields| ==> !LeadsBack(order[n], mem[order[n]].fields[i], marks - {order[n]})
    ensures MarksAt(mem, marked, order, n + 1, marks - {order[n]} + Targets(mem[order[n]].fields, |mem[order[n]].fields|))
    ensures SendsNoneBack(mem, marked, order[n])
  {
    var a, fields := order[n], mem[order[n]].fields;
    var marks' := marks - {a} + Targets(fields, |fields|);
    forall b ensures Passed(mem, a, true, marks, marks', b) { TargetsArePointed(mem, a, b); }
    forall b | Points(mem, a, b) ensures b in order && !PointsBack(mem, marked, a, b) {
      PointsInOrder(arenas, mem, order, a, b);
      var i :| 0 <= i < |fields| && fields[i].Local? && fields[i].loc == b;
      assert !LeadsBack(a, fields[i], marks - {a});
      if b.sp < a.sp { MarkBehind(mem, marked, order, n, marks, b); }
    }
    forall b | b in marks' ensures b in order { TargetsArePointed(mem, a, b); }
    MarksPass(mem, marked, order, n, marks, marks');
  }

  lemma AllPassed(arenas: seq<Arena>, mem: Memory, unused: set<Loc>, marked: set<Loc>, at: Loc, order: seq<Loc>, n: nat, marks: set<Loc>)
    requires Sensible(arenas, mem, marked, order) && n <= |order| && MarksAt(mem, marked, order, n, marks)
    requires at.sp >= 0 && LaidOut(arenas, mem, unused, at, order[n..])
    requires forall j :: 0 <= j < n ==> SendsNoneBack(mem, marked, order[j])
    ensures n == |order| && !Backwards(mem, marked)
    ensures forall b :: b in marks <==> b in order && Alive(mem, marked, b) && Points(mem, b, b)
  {
    assert |order[n..]| == |order| - n;
    forall a, b ensures !PointsBack(mem, marked, a, b) {
      if Alive(mem, marked, a) {
        AliveInOrder(arenas, mem, marked, order, a);
        assert exists j :: 0 <= j < |order| && order[j] == a && SendsNoneBack(mem, marked, order[j]);
      }
    }
    forall b | b in order ensures b in marks <==> Alive(mem, marked, b) && Points(mem, b, b) {
      var j :| 0 <= j < |order| && order[j] == b;
      assert BehindOk(mem, marked, marks, order[j]);
    }
  }

  /** A pointer goes up, or into a block that ends below. */
  ghost predicate ClearlyPlaced(a: Loc, w: Word)
    requires w.Local?
  {
    a.sp <= w.loc.sp || w.loc.sp + HEADER + w.inner < a.sp
  }

  ghost predicate LeadsBack(a: Loc, w: Word, marks: set<Loc>) {
    w.Local? && w.loc.sp < a.sp && w.loc !in marks
  }

  // ----- Results -------------------------------------------------------------

  /** Without a fatal error, each pointer into the heaps from a reached block is called for exactly once, and no other. */
  lemma CalledExactlyOnce(mem: Memory, marked: set<Loc>, order: seq<Loc>, c: Call)
    requires Ascending(mem, order) && !Backwards(mem, marked)
    ensures Count(CallsBelow(mem, marked, order, |order|), c) ==
      if c.block in order && Reached(mem, marked, c.block) && mem[c.block].scannable
         && c.field < |mem[c.block].fields| && InHeap(mem[c.block].fields[c.field]) then 1 else 0
  {
    CallsBelowOnce(mem, marked, order, |order|, c);
    ReachedIsAlive(mem, marked, c.block);
    assert order[..|order|] == order;
  }

  /** When every pointer between local blocks goes strictly up, the pass succeeds and leaves no mark. */
  lemma StrictlyUpwards(arenas: seq<Arena>, mem: Memory, marked: set<Loc>, order: seq<Loc>, b: Loc)
    requires Sensible(arenas, mem, marked, order)
    requires forall x, y :: x in order && Points(mem, x, y) ==> x.sp < y.sp
    ensures !Backwards(mem, marked) && !(b in order && Points(mem, b, b))
  {
    forall x, y ensures !PointsBack(mem, marked, x, y) {
      if Alive(mem, marked, x) { AliveInOrder(arenas, mem, marked, order, x); }
    }
  }

  /** A reached block that points to itself passes for a forward pointer and keeps its mark. */
  lemma SelfPointerKeepsMark()
    ensures var a := Loc(0, -16);
      var mem := map[a := Block(16, true, [Local(a, 0)])];
      Sensible([Arena(0, 16)], mem, {a}, [a]) && LaidOut([Arena(0, 16)], mem, {}, a, [a])
      && !Backwards(mem, {a}) && Alive(mem, {a}, a) && Points(mem, a, a)
  {
    var a := Loc(0, -16);
    var mem := map[a := Block(16, true, [Local(a, 0)])];
    AliveMarked(mem, {a}, a);
    assert mem[a].fields[0] == Local(a, 0);
    assert [a][1..] == [];
    assert LaidOut([Arena(0, 16)], mem, {}, Loc(0, 0), []);
    forall x, y ensures !PointsBack(mem, {a}, x, y) {
      if Points(mem, x, y) { assert x == a && y == a; }
    }
  }
}
