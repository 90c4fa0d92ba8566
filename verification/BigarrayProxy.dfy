/**
Shared ownership of the data of a managed bigarray. Views are created by any number of
threads and finalised by the collector, in any order; a reference-counted proxy, installed
by the first of them that needs one, says when the data may be freed.
*/
module BigarrayProxy {
  import opened Options

  type Thread = nat
  type ViewId = nat
  type ProxyId = nat

  /** The stage of a view's life. */
  datatype Stage =
    | Fresh           // allocated by the thread that creates it
    | Pledged         // the new proxy counts it already
    | Live
    | Dying           // unreachable, about to be finalised
    | Freeing         // was the last, about to free the data
    | Unproxying      // about to free the proxy
    | Dead

  datatype View = View(proxy: Option<ProxyId>, stage: Stage)

  /** A thread in `caml_ba_update_proxy`, making `b2` a view of the data of `b1`. */
  datatype Creating =
    | Idle
    | Started(b1: ViewId, b2: ViewId)
    | Making(b1: ViewId, b2: ViewId)                              // saw no proxy
    | Made(b1: ViewId, b2: ViewId, own: ProxyId)                  // allocated one
    | Won(b1: ViewId, b2: ViewId, own: ProxyId)                   // installed it
    | Lost(b1: ViewId, b2: ViewId, own: ProxyId, other: ProxyId)  // saw that another was installed
    | Adopting(b1: ViewId, b2: ViewId, other: ProxyId)
    | Counting(b1: ViewId, b2: ViewId, other: ProxyId)            // set `b2->proxy`, before the count

  /** `count` has the allocated proxies; `installed` and `frees` are an observer's notes. */
  datatype State = State(
    views: map<ViewId, View>,
    count: map<ProxyId, int>,
    threads: map<Thread, Creating>,
    installed: Option<ProxyId>,
    frees: nat)

  ghost predicate Init(s: State) {
    && (exists b :: s.views == map[b := View(None, Live)])
    && s.count == map[] && s.installed == None && s.frees == 0
    && forall t :: t in s.threads ==> s.threads[t] == Idle
  }

  datatype Action =
    | Begin(t: Thread, b1: ViewId, b2: ViewId)
    | Load(t: Thread)
    | Malloc(t: Thread, q: ProxyId)
    | MallocFails(t: Thread)
    | Exchange(t: Thread)
    | Attach(t: Thread)
    | BackOut(t: Thread)
    | Adopt(t: Thread)
    | Count(t: Thread)
    | Die(v: ViewId)
    | Finalize(v: ViewId)
    | FreeData(v: ViewId)
    | FreeProxy(v: ViewId)

  predicate IsThreadAction(a: Action) {
    a.Begin? || a.Load? || a.Malloc? || a.MallocFails? || a.Exchange? || a.Attach? || a.BackOut? || a.Adopt? || a.Count?
  }

  ghost predicate AtStage(s: State, v: ViewId, stage: Stage) {
    v in s.views && s.views[v].stage == stage
  }

  /** A thread that works on a view keeps it reachable. */
  ghost predicate InUse(s: State, v: ViewId) {
    exists t :: t in s.threads && !s.threads[t].Idle? && s.threads[t].b1 == v
  }

  ghost predicate CanAct(s: State, a: Action) {
    if IsThreadAction(a) then
      a.t in s.threads &&
      match a {
        case Begin(t, b1, b2) => s.threads[t].Idle? && AtStage(s, b1, Live) && b2 !in s.views
        case Load(t) => s.threads[t].Started? && s.threads[t].b1 in s.views
        case Malloc(t, q) => s.threads[t].Making? && q !in s.count
        case MallocFails(t) => s.threads[t].Making? && s.threads[t].b2 in s.views
        case Exchange(t) => s.threads[t].Made? && s.threads[t].b1 in s.views && s.threads[t].b2 in s.views
        case Attach(t) => s.threads[t].Won?
        case BackOut(t) => s.threads[t].Lost?
        case Adopt(t) => s.threads[t].Adopting? && s.threads[t].b2 in s.views
        case Count(t) => s.threads[t].Counting? && s.threads[t].b2 in s.views
        case Die(v) => false
        case Finalize(v) => false
        case FreeData(v) => false
        case FreeProxy(v) => false
      }
    else
      a.v in s.views &&
      match a {
        case Die(v) => AtStage(s, v, Live) && !InUse(s, v)
        case Finalize(v) => AtStage(s, v, Dying)
        case FreeData(v) => AtStage(s, v, Freeing)
        case FreeProxy(v) => AtStage(s, v, Unproxying) && s.views[v].proxy.Some?
        case _ => false
      }
  }

  ghost function SetThread(s: State, t: Thread, c: Creating): State {
    s.(threads := s.threads[t := c])
  }

  ghost function SetView(s: State, v: ViewId, w: View): State {
    s.(views := s.views[v := w])
  }

  ghost function CountOf(s: State, p: ProxyId): int {
    if p in s.count then s.count[p] else 0
  }

  ghost function Act(s: State, a: Action): State
    requires CanAct(s, a)
  {
    match a
    case Begin(t, b1, b2) => SetThread(SetView(s, b2, View(None, Fresh)), t, Started(b1, b2))
    case Load(t) =>
      var c := s.threads[t];
      var existing := s.views[c.b1].proxy;
      SetThread(s, t, if existing.Some? then Adopting(c.b1, c.b2, existing.value) else Making(c.b1, c.b2))
    case Malloc(t, q) =>
      var c := s.threads[t];
      SetThread(s, t, Made(c.b1, c.b2, q)).(count := s.count[q := 2])
    case MallocFails(t) =>  // the exception leaves the new view to the collector as it is
      var c := s.threads[t];
      SetThread(SetView(s, c.b2, View(None, Live)), t, Idle)
    case Exchange(t) =>
      var c := s.threads[t];
      var existing := s.views[c.b1].proxy;
      if existing.None?
      then SetThread(SetView(SetView(s, c.b1, View(Some(c.own), s.views[c.b1].stage)), c.b2, View(None, Pledged)),
                     t, Won(c.b1, c.b2, c.own)).(installed := Some(c.own))
      else SetThread(s, t, Lost(c.b1, c.b2, c.own, existing.value))
    case Attach(t) =>
      var c := s.threads[t];
      SetThread(SetView(s, c.b2, View(Some(c.own), Live)), t, Idle)
    case BackOut(t) =>
      var c := s.threads[t];
      SetThread(s, t, Adopting(c.b1, c.b2, c.other)).(count := s.count - {c.own})
    case Adopt(t) =>
      var c := s.threads[t];
      SetThread(SetView(s, c.b2, View(Some(c.other), Fresh)), t, Counting(c.b1, c.b2, c.other))
    case Count(t) =>
      var c := s.threads[t];
      SetThread(SetView(s, c.b2, View(s.views[c.b2].proxy, Live)), t, Idle)
        .(count := s.count[c.other := CountOf(s, c.other) + 1])
    case Die(v) => SetView(s, v, View(s.views[v].proxy, Dying))
    case Finalize(v) =>
      var p := s.views[v].proxy;
      if p.None? then SetView(s, v, View(p, Dead)).(frees := s.frees + 1)
      else
        var n := CountOf(s, p.value) - 1;
        SetView(s, v, View(p, if n == 0 then Freeing else Dead)).(count := s.count[p.value := n])
    case FreeData(v) => SetView(s, v, View(s.views[v].proxy, Unproxying)).(frees := s.frees + 1)
    case FreeProxy(v) => SetView(s, v, View(s.views[v].proxy, Dead)).(count := s.count - {s.views[v].proxy.value})
  }

  /** A run in which memory for proxies is always found. */
  ghost predicate Run(t: seq<State>, acts: seq<Action>) {
    && |t| == |acts| + 1 && Init(t[0])
    && forall i {:trigger acts[i]} :: 0 <= i < |acts| ==> CanAct(t[i], acts[i]) && !acts[i].MallocFails? && t[i + 1] == Act(t[i], acts[i])
  }

  // ----- Invariants ----------------------------------------------------------

  predicate Holds(stage: Stage) {
    stage.Pledged? || stage.Live? || stage.Dying?
  }

  /** The views the data is kept for. */
  ghost function Holders(views: map<ViewId, View>): set<ViewId> {
    set v | v in views && Holds(views[v].stage)
  }

  /** Views that have been handed out share one proxy; until there is one, there is one view. */
  ghost predicate OneProxy(s: State) {
    && (forall v :: v in s.views && (s.views[v].stage.Live? || s.views[v].stage.Dying? || s.views[v].stage.Freeing? || s.views[v].stage.Unproxying?) ==>
          s.views[v].proxy == s.installed)
    && (s.installed == None ==> |Holders(s.views)| <= 1)
    && (forall v :: v in s.views && s.views[v].stage.Pledged? ==> s.installed.Some?)
  }

  ghost predicate ThreadOk(s: State, c: Creating) {
    !c.Idle? ==>
      && AtStage(s, c.b1, Live)
      && c.b2 in s.views && s.views[c.b2].stage == (if c.Won? then Pledged else Fresh)
      && (c.Made? || c.Lost? ==> c.own in s.count && s.installed != Some(c.own))
      && (c.Made? ==> s.count[c.own] == 2)
      && (c.Won? ==> s.installed == Some(c.own))
      && (c.Lost? || c.Adopting? || c.Counting? ==> s.installed == Some(c.other))
      && (c.Counting? ==> s.views[c.b2].proxy == Some(c.other))
  }

  ghost predicate ThreadsOk(s: State) {
    && (forall t :: t in s.threads ==> ThreadOk(s, s.threads[t]))
    && (forall t, u :: t in s.threads && u in s.threads && t != u && !s.threads[t].Idle? && !s.threads[u].Idle? ==>
          s.threads[t].b2 != s.threads[u].b2)
    && (forall t, u :: t in s.threads && u in s.threads && t != u && Owns(s.threads[t]) && Owns(s.threads[u]) ==>
          s.threads[t].own != s.threads[u].own)
  }

  predicate Owns(c: Creating) {
    c.Made? || c.Lost?
  }

  /** The proxies that threads have allocated and not installed. */
  ghost function Private(threads: map<Thread, Creating>): set<ProxyId> {
    set t | t in threads && Owns(threads[t]) :: threads[t].own
  }

  /** The views on their way out after the count reached zero. */
  ghost function Closing(views: map<ViewId, View>): set<ViewId> {
    set v | v in views && (views[v].stage.Freeing? || views[v].stage.Unproxying?)
  }

  /** The count of the installed proxy is right as long as it exists, and no other proxy is left over. */
  ghost predicate CountRight(s: State) {
    && (s.installed.Some? && s.installed.value in s.count ==> s.count[s.installed.value] == |Holders(s.views)|)
    && s.count.Keys == Private(s.threads)
         + (if s.installed.Some? && (Holders(s.views) != {} || Closing(s.views) != {}) then {s.installed.value} else {})
  }

  /** The data is there exactly as long as somebody holds it or is about to free it. */
  ghost predicate DataRight(s: State) {
    && (Holders(s.views) != {} ==> s.frees == 0 && Closing(s.views) == {})
    && (forall v, w :: v in Closing(s.views) && w in Closing(s.views) ==> v == w)
    && (forall v :: v in Closing(s.views) ==> s.frees == if s.views[v].stage.Freeing? then 0 else 1)
    && (Holders(s.views) == {} && Closing(s.views) == {} ==> s.frees == 1)
  }

  ghost predicate Inv(s: State) {
    OneProxy(s) && ThreadsOk(s) && CountRight(s) && DataRight(s)
  }

  // ----- What single updates do to the sets ----------------------------------

  lemma ViewSet(views: map<ViewId, View>, v: ViewId, w: View)
    ensures Holders(views[v := w]) == Holders(views) - {v} + (if Holds(w.stage) then {v} else {})
    ensures Closing(views[v := w]) == Closing(views) - {v} + (if w.stage.Freeing? || w.stage.Unproxying? then {v} else {})
    ensures v in Holders(views) <==> v in views && Holds(views[v].stage)
    ensures v in Closing(views) <==> v in views && (views[v].stage.Freeing? || views[v].stage.Unproxying?)
  {
  }

  lemma ThreadSet(threads: map<Thread, Creating>, t: Thread, c: Creating)
    requires t in threads
    requires forall u :: u in threads && u != t && Owns(threads[t]) && Owns(threads[u]) ==> threads[t].own != threads[u].own
    ensures Private(threads[t := c])
      == Private(threads) - (if Owns(threads[t]) then {threads[t].own} else {}) + (if Owns(c) then {c.own} else {})
    ensures Owns(threads[t]) ==> threads[t].own in Private(threads)
  {
    var threads' := threads[t := c];
    forall x | x in Private(threads) && !(Owns(threads[t]) && x == threads[t].own) ensures x in Private(threads') {
      var u :| u in threads && Owns(threads[u]) && threads[u].own == x;
      assert u in threads' && threads'[u] == threads[u];
    }
    forall x | x in Private(threads') 
      ensures (x in Private(threads) && !(Owns(threads[t]) && x == threads[t].own)) || (Owns(c) && x == c.own)
    {
      var u :| u in threads' && Owns(threads'[u]) && threads'[u].own == x;
      assert u != t ==> u in threads && threads[u] == threads'[u];
    }
    if Owns(c) { assert threads'[t] == c; }
  }

  /** While a thread is at work, the data is held. */
  lemma WorkHolds(s: State, t: Thread)
    requires ThreadsOk(s) && t in s.threads && !s.threads[t].Idle?
    ensures ThreadOk(s, s.threads[t]) && s.threads[t].b1 in Holders(s.views)
  {
  }

  lemma Alone(a: set<ViewId>, v: ViewId)
    requires v in a && |a| <= 1
    ensures a == {v} && |a| == 1
  {
    assert |a - {v}| == |a| - 1;
  }

  // ----- Steps of a thread ---------------------------------------------------

  predicate Unborn(v: View) {
    v.stage.Fresh? || v.stage.Pledged?
  }

  /** What a step of thread `t` leaves alone, as far as the other threads are concerned. */
  ghost predicate Gentle(s: State, s': State, t: Thread)
    requires t in s.threads && t in s'.threads
  {
    && s'.threads == s.threads[t := s'.threads[t]]
    && s'.installed == s.installed
    && (forall v :: v in s.views ==> v in s'.views)
    && (forall v :: v in s.views && s.views[v].stage.Live? ==> s'.views[v].stage.Live?)
    && (forall v :: v in s.views && Unborn(s.views[v]) && !(!s.threads[t].Idle? && v == s.threads[t].b2) ==> s'.views[v] == s.views[v])
    && (forall p :: p in s.count && s.installed != Some(p) && !(Owns(s.threads[t]) && p == s.threads[t].own) ==>
          p in s'.count && s'.count[p] == s.count[p])
  }

  lemma OthersKept(s: State, s': State, t: Thread)
    requires ThreadsOk(s) && t in s.threads && t in s'.threads && Gentle(s, s', t) && ThreadOk(s', s'.threads[t])
    requires !s'.threads[t].Idle? ==> s'.threads[t].b2 !in s.views || (!s.threads[t].Idle? && s'.threads[t].b2 == s.threads[t].b2)
    requires Owns(s'.threads[t]) ==> s'.threads[t].own !in s.count || (Owns(s.threads[t]) && s'.threads[t].own == s.threads[t].own)
    ensures ThreadsOk(s')
  {
    forall u | u in s.threads && u != t ensures ThreadOk(s', s.threads[u]) {
      assert ThreadOk(s, s.threads[u]);
      assert !s.threads[u].Idle? && !s.threads[t].Idle? ==> s.threads[u].b2 != s.threads[t].b2;
    }
    forall u, w | u in s'.threads && w in s'.threads && u != w && !s'.threads[u].Idle? && !s'.threads[w].Idle?
      ensures s'.threads[u].b2 != s'.threads[w].b2
    {
      assert ThreadOk(s, s.threads[u]) && ThreadOk(s, s.threads[w]);
    }
    forall u, w | u in s'.threads && w in s'.threads && u != w && Owns(s'.threads[u]) && Owns(s'.threads[w])
      ensures s'.threads[u].own != s'.threads[w].own
    {
      assert ThreadOk(s, s.threads[u]) && ThreadOk(s, s.threads[w]);
    }
  }

  lemma OwnersApart(s: State, t: Thread)
    requires ThreadsOk(s) && t in s.threads
    ensures forall u :: u in s.threads && u != t && Owns(s.threads[t]) && Owns(s.threads[u]) ==> s.threads[t].own != s.threads[u].own
  {
  }

  predicate Settled(v: View) {
    v.stage.Live? || v.stage.Dying? || v.stage.Freeing? || v.stage.Unproxying?
  }

  /** A step that changes one view, if any, but neither who holds the data nor who frees it. */
  ghost predicate SameHolding(s: State, s': State, v: ViewId, w: View) {
    && (s'.views == s.views || s'.views == s.views[v := w])
    && Holders(s'.views) == Holders(s.views) && Closing(s'.views) == Closing(s.views)
    && !w.stage.Freeing? && !w.stage.Unproxying?
    && s'.installed == s.installed && s'.frees == s.frees
    && (Settled(w) ==> w.proxy == s.installed)
    && (w.stage.Pledged? ==> s.installed.Some?)
  }

  lemma DataKept(s: State, s': State, v: ViewId, w: View)
    requires DataRight(s) && SameHolding(s, s', v, w)
    ensures DataRight(s')
  {
    forall x | x in Closing(s'.views) ensures s'.frees == if s'.views[x].stage.Freeing? then 0 else 1 {
      assert s'.views[x] == s.views[x];
    }
  }

  lemma ProxyKept(s: State, s': State, v: ViewId, w: View)
    requires OneProxy(s) && SameHolding(s, s', v, w)
    ensures OneProxy(s')
  {
    hide Holders, Closing;
  }

  /** Proxies come and go with the threads that own them. */
  lemma CountKept(s: State, s': State, v: ViewId, w: View, gone: set<ProxyId>, come: set<ProxyId>)
    requires CountRight(s) && SameHolding(s, s', v, w)
    requires Private(s'.threads) == Private(s.threads) - gone + come && s'.count.Keys == s.count.Keys - gone + come
    requires s.installed.Some? ==> s.installed.value !in gone && s.installed.value !in come
    requires s.installed.Some? && s.installed.value in s'.count && s.installed.value in s.count ==>
      s'.count[s.installed.value] == s.count[s.installed.value]
    ensures CountRight(s')
  {
    hide Holders, Closing, Private;
    assert s.installed.Some? ==> (s.installed.value in s'.count.Keys <==> s.installed.value in s.count.Keys);
  }

  lemma StepBegin(s: State, t: Thread, b1: ViewId, b2: ViewId)
    requires Inv(s) && CanAct(s, Begin(t, b1, b2))
    ensures Inv(Act(s, Begin(t, b1, b2)))
  {
    hide Holders, Closing, Private, ThreadsOk, OneProxy, CountRight, DataRight, Gentle, ThreadOk;
    var s', w := Act(s, Begin(t, b1, b2)), View(None, Fresh);
    ViewSet(s.views, b2, w);
    OwnersApart(s, t);
    ThreadSet(s.threads, t, Started(b1, b2));
    DataKept(s, s', b2, w);
    ProxyKept(s, s', b2, w);
    CountKept(s, s', b2, w, {}, {});
    BeginGentle(s, t, b1, b2);
    OthersKept(s, s', t);
  }

  lemma BeginGentle(s: State, t: Thread, b1: ViewId, b2: ViewId)
    requires CanAct(s, Begin(t, b1, b2))
    ensures Gentle(s, Act(s, Begin(t, b1, b2)), t) && ThreadOk(Act(s, Begin(t, b1, b2)), Started(b1, b2))
  {
  }

  lemma LoadGentle(s: State, t: Thread)
    requires CanAct(s, Load(t)) && ThreadOk(s, s.threads[t]) && OneProxy(s)
    ensures Gentle(s, Act(s, Load(t)), t) && ThreadOk(Act(s, Load(t)), Act(s, Load(t)).threads[t])
  {
    hide Holders;
  }

  lemma StepLoad(s: State, t: Thread)
    requires Inv(s) && CanAct(s, Load(t))
    ensures Inv(Act(s, Load(t)))
  {
    hide Holders, Closing, Private, ThreadsOk, OneProxy, CountRight, DataRight, Gentle, ThreadOk;
    var s', w := Act(s, Load(t)), View(None, Fresh);
    WorkHolds(s, t);
    LoadGentle(s, t);
    assert SameHolding(s, s', 0, w);
    OwnersApart(s, t);
    ThreadSet(s.threads, t, s'.threads[t]);
    DataKept(s, s', 0, w);
    ProxyKept(s, s', 0, w);
    CountKept(s, s', 0, w, {}, {});
    OthersKept(s, s', t);
  }

  /** The installed proxy exists while somebody holds the data. */
  lemma InstalledExists(s: State, v: ViewId)
    requires CountRight(s) && v in Holders(s.views)
    ensures s.installed.Some? ==> s.installed.value in s.count && s.count[s.installed.value] == |Holders(s.views)|
  {
    assert s.installed.Some? ==> s.installed.value in s.count.Keys;
  }

  lemma MallocGentle(s: State, t: Thread, q: ProxyId)
    requires CanAct(s, Malloc(t, q)) && ThreadOk(s, s.threads[t]) && s.installed != Some(q)
    ensures Gentle(s, Act(s, Malloc(t, q)), t) && ThreadOk(Act(s, Malloc(t, q)), Made(s.threads[t].b1, s.threads[t].b2, q))
  {
  }

  lemma StepMalloc(s: State, t: Thread, q: ProxyId)
    requires Inv(s) && CanAct(s, Malloc(t, q))
    ensures Inv(Act(s, Malloc(t, q)))
  {
    hide Holders, Closing, Private, ThreadsOk, OneProxy, CountRight, DataRight, Gentle, ThreadOk;
    var s', w := Act(s, Malloc(t, q)), View(None, Fresh);
    WorkHolds(s, t);
    InstalledExists(s, s.threads[t].b1);
    assert SameHolding(s, s', 0, w);
    OwnersApart(s, t);
    ThreadSet(s.threads, t, s'.threads[t]);
    assert s'.count.Keys == s.count.Keys + {q};
    DataKept(s, s', 0, w);
    ProxyKept(s, s', 0, w);
    CountKept(s, s', 0, w, {}, {q});
    MallocGentle(s, t, q);
    OthersKept(s, s', t);
  }

  lemma AttachGentle(s: State, t: Thread)
    requires CanAct(s, Attach(t)) && ThreadOk(s, s.threads[t])
    ensures Gentle(s, Act(s, Attach(t)), t) && ThreadOk(Act(s, Attach(t)), Idle)
    ensures AtStage(s, s.threads[t].b2, Pledged) && s.installed == Some(s.threads[t].own)
  {
  }

  lemma StepAttach(s: State, t: Thread)
    requires Inv(s) && CanAct(s, Attach(t))
    ensures Inv(Act(s, Attach(t)))
  {
    hide Holders, Closing, Private, ThreadsOk, OneProxy, CountRight, DataRight, Gentle, ThreadOk;
    var s', b2, w := Act(s, Attach(t)), s.threads[t].b2, View(Some(s.threads[t].own), Live);
    WorkHolds(s, t);
    AttachGentle(s, t);
    ViewSet(s.views, b2, w);
    assert SameHolding(s, s', b2, w);
    OwnersApart(s, t);
    ThreadSet(s.threads, t, Idle);
    DataKept(s, s', b2, w);
    ProxyKept(s, s', b2, w);
    CountKept(s, s', b2, w, {}, {});
    OthersKept(s, s', t);
  }

  lemma BackOutGentle(s: State, t: Thread)
    requires CanAct(s, BackOut(t)) && ThreadOk(s, s.threads[t])
    ensures Gentle(s, Act(s, BackOut(t)), t) && ThreadOk(Act(s, BackOut(t)), Act(s, BackOut(t)).threads[t])
    ensures s.installed != Some(s.threads[t].own)
  {
  }

  lemma StepBackOut(s: State, t: Thread)
    requires Inv(s) && CanAct(s, BackOut(t))
    ensures Inv(Act(s, BackOut(t)))
  {
    hide Holders, Closing, Private, ThreadsOk, OneProxy, CountRight, DataRight, Gentle, ThreadOk;
    var s', w, q := Act(s, BackOut(t)), View(None, Fresh), s.threads[t].own;
    WorkHolds(s, t);
    BackOutGentle(s, t);
    assert SameHolding(s, s', 0, w);
    OwnersApart(s, t);
    ThreadSet(s.threads, t, s'.threads[t]);
    assert s'.count.Keys == s.count.Keys - {q};
    DataKept(s, s', 0, w);
    ProxyKept(s, s', 0, w);
    CountKept(s, s', 0, w, {q}, {});
    OthersKept(s, s', t);
  }

  lemma AdoptGentle(s: State, t: Thread)
    requires CanAct(s, Adopt(t)) && ThreadOk(s, s.threads[t])
    ensures Gentle(s, Act(s, Adopt(t)), t) && ThreadOk(Act(s, Adopt(t)), Act(s, Adopt(t)).threads[t])
    ensures s.views[s.threads[t].b2].stage.Fresh?
  {
  }

  lemma StepAdopt(s: State, t: Thread)
    requires Inv(s) && CanAct(s, Adopt(t))
    ensures Inv(Act(s, Adopt(t)))
  {
    hide Holders, Closing, Private, ThreadsOk, OneProxy, CountRight, DataRight, Gentle, ThreadOk;
    var s', b2, w := Act(s, Adopt(t)), s.threads[t].b2, View(Some(s.threads[t].other), Fresh);
    WorkHolds(s, t);
    AdoptGentle(s, t);
    ViewSet(s.views, b2, w);
    assert SameHolding(s, s', b2, w);
    OwnersApart(s, t);
    ThreadSet(s.threads, t, s'.threads[t]);
    DataKept(s, s', b2, w);
    ProxyKept(s, s', b2, w);
    CountKept(s, s', b2, w, {}, {});
    OthersKept(s, s', t);
  }

  // ----- Gaining and losing a holder -----------------------------------------

  lemma CountGentle(s: State, t: Thread)
    requires CanAct(s, Count(t)) && ThreadOk(s, s.threads[t])
    ensures Gentle(s, Act(s, Count(t)), t) && ThreadOk(Act(s, Count(t)), Idle)
    ensures AtStage(s, s.threads[t].b2, Fresh) && s.installed == Some(s.threads[t].other) && s.views[s.threads[t].b2].proxy == s.installed
  {
  }

  /** One more view holds the data and is counted. */
  lemma OneMore(s: State, s': State, v: ViewId)
    requires OneProxy(s) && CountRight(s) && DataRight(s) && AtStage(s, v, Fresh) && Holders(s.views) != {}
    requires s.installed.Some? && s'.views == s.views[v := View(s.installed, Live)] && s'.installed == s.installed
    requires s.installed.value in s.count && s'.count == s.count[s.installed.value := s.count[s.installed.value] + 1]
    requires Private(s'.threads) == Private(s.threads) && s'.frees == s.frees
    ensures OneProxy(s') && CountRight(s') && DataRight(s')
  {
    hide Holders, Closing, Private;
    ViewSet(s.views, v, View(s.installed, Live));
    assert v !in Holders(s.views) && v !in Closing(s.views);
    assert Holders(s'.views) == Holders(s.views) + {v} && Closing(s'.views) == {};
    assert s'.count.Keys == s.count.Keys;
  }

  lemma StepCount(s: State, t: Thread)
    requires Inv(s) && CanAct(s, Count(t))
    ensures Inv(Act(s, Count(t)))
  {
    hide Holders, Closing, Private, ThreadsOk, OneProxy, CountRight, DataRight, Gentle, ThreadOk;
    var s' := Act(s, Count(t));
    WorkHolds(s, t);
    CountGentle(s, t);
    InstalledExists(s, s.threads[t].b1);
    OwnersApart(s, t);
    ThreadSet(s.threads, t, Idle);
    OneMore(s, s', s.threads[t].b2);
    OthersKept(s, s', t);
  }

  /** Before a proxy is installed there is one holder; the exchange gives it the proxy and adds the second. */
  lemma SecondHolder(s: State, s': State, b1: ViewId, b2: ViewId, q: ProxyId)
    requires OneProxy(s) && CountRight(s) && DataRight(s) && AtStage(s, b1, Live) && AtStage(s, b2, Fresh)
    requires s.installed == None && q in Private(s.threads) && q in s.count && s.count[q] == 2 && s'.count == s.count
    requires s'.views == s.views[b1 := View(Some(q), Live)][b2 := View(None, Pledged)] && s'.installed == Some(q)
    requires Private(s'.threads) == Private(s.threads) - {q} && s'.frees == s.frees
    ensures OneProxy(s') && CountRight(s') && DataRight(s')
  {
    hide Private, Holders, Closing, OneProxy, CountRight, DataRight;
    OnlyHolder(s, b1);
    TwoHolders(s.views, b1, b2, q);
    OwnProxy(s, s', b1, b2, q);
    CountOfTwo(s, s', b1, b2, q);
    HeldAndWhole(s', b1);
  }

  lemma TwoHolders(views: map<ViewId, View>, b1: ViewId, b2: ViewId, q: ProxyId)
    requires Holders(views) == {b1} && Closing(views) == {}
    ensures var views' := views[b1 := View(Some(q), Live)][b2 := View(None, Pledged)];
      Holders(views') == {b1, b2} && Closing(views') == {}
  {
    hide Holders, Closing;
    ViewSet(views, b1, View(Some(q), Live));
    ViewSet(views[b1 := View(Some(q), Live)], b2, View(None, Pledged));
  }

  lemma HeldAndWhole(s: State, v: ViewId)
    requires v in Holders(s.views) && Closing(s.views) == {} && s.frees == 0
    ensures DataRight(s)
  {
  }

  lemma CountOfTwo(s: State, s': State, b1: ViewId, b2: ViewId, q: ProxyId)
    requires CountRight(s) && s.installed == None && q in s.count && s.count[q] == 2 && s'.count == s.count && s'.installed == Some(q)
    requires q in Private(s.threads) && Private(s'.threads) == Private(s.threads) - {q} && b1 != b2 && Holders(s'.views) == {b1, b2}
    ensures CountRight(s')
  {
    hide Holders, Closing, Private;
    assert |{b1, b2}| == 2;
    assert b1 in Holders(s'.views);
    assert s.count.Keys == Private(s.threads);
  }

  /** Where there is no proxy and the data is held, one view holds it and none is closing. */
  lemma OnlyHolder(s: State, b1: ViewId)
    requires OneProxy(s) && DataRight(s) && s.installed == None && b1 in s.views && Holds(s.views[b1].stage)
    ensures Holders(s.views) == {b1} && Closing(s.views) == {} && s.frees == 0
    ensures forall v :: v in s.views && Settled(s.views[v]) ==> v == b1
    ensures forall v :: v in s.views ==> !s.views[v].stage.Pledged?
  {
    assert b1 in Holders(s.views);
    Alone(Holders(s.views), b1);
    forall v | v in s.views && Settled(s.views[v]) ensures v == b1 {
      assert v in Holders(s.views) || v in Closing(s.views);
    }
  }

  lemma OwnProxy(s: State, s': State, b1: ViewId, b2: ViewId, q: ProxyId)
    requires forall v :: v in s.views && Settled(s.views[v]) ==> v == b1
    requires s'.views == s.views[b1 := View(Some(q), Live)][b2 := View(None, Pledged)] && s'.installed == Some(q)
    ensures OneProxy(s')
  {
    hide Holders;
  }

  /** Nobody can know of a proxy before one is installed. */
  lemma ExchangeThreads(s: State, t: Thread)
    requires CanAct(s, Exchange(t)) && ThreadsOk(s) && s.installed == None && s.views[s.threads[t].b1].proxy == None
    ensures ThreadsOk(Act(s, Exchange(t)))
  {
    var s', c := Act(s, Exchange(t)), s.threads[t];
    assert ThreadOk(s, c);
    forall u | u in s.threads && u != t ensures ThreadOk(s', s.threads[u]) {
      assert ThreadOk(s, s.threads[u]);
    }
  }

  lemma LostGentle(s: State, t: Thread)
    requires CanAct(s, Exchange(t)) && ThreadOk(s, s.threads[t]) && OneProxy(s) && s.views[s.threads[t].b1].proxy.Some?
    ensures Gentle(s, Act(s, Exchange(t)), t) && ThreadOk(Act(s, Exchange(t)), Act(s, Exchange(t)).threads[t])
  {
    hide Holders;
  }

  lemma MadeTells(s: State, t: Thread)
    requires t in s.threads && s.threads[t].Made? && ThreadOk(s, s.threads[t])
    ensures var c := s.threads[t];
      AtStage(s, c.b1, Live) && AtStage(s, c.b2, Fresh) && c.own in s.count && s.count[c.own] == 2
  {
  }

  lemma LiveHasInstalled(s: State, v: ViewId)
    requires OneProxy(s) && AtStage(s, v, Live)
    ensures s.views[v].proxy == s.installed
  {
  }

  lemma StepExchange(s: State, t: Thread)
    requires Inv(s) && CanAct(s, Exchange(t))
    ensures Inv(Act(s, Exchange(t)))
  {
    hide Holders, Closing, Private, ThreadsOk, OneProxy, CountRight, DataRight, Gentle, ThreadOk;
    var s', w, c := Act(s, Exchange(t)), View(None, Fresh), s.threads[t];
    WorkHolds(s, t);
    MadeTells(s, t);
    LiveHasInstalled(s, c.b1);
    OwnersApart(s, t);
    ThreadSet(s.threads, t, s'.threads[t]);
    if s.views[c.b1].proxy.None? {
      SecondHolder(s, s', c.b1, c.b2, c.own);
      ExchangeThreads(s, t);
    } else {
      LostGentle(s, t);
      assert SameHolding(s, s', 0, w);
      assert Private(s'.threads) == Private(s.threads);
      DataKept(s, s', 0, w);
      ProxyKept(s, s', 0, w);
      CountKept(s, s', 0, w, {}, {});
      OthersKept(s, s', t);
    }
  }

  // ----- Steps of the collector ----------------------------------------------

  /** The collector touches no view that a thread works on. */
  lemma ThreadsUntouched(s: State, s': State, v: ViewId)
    requires ThreadsOk(s) && s'.threads == s.threads && s'.installed == s.installed
    requires v in s.views && v in s'.views && s'.views == s.views[v := s'.views[v]]
    requires !Unborn(s.views[v]) && (s.views[v].stage.Live? ==> !InUse(s, v))
    requires forall p :: p in s.count && s.installed != Some(p) ==> p in s'.count && s'.count[p] == s.count[p]
    ensures ThreadsOk(s')
  {
    forall u | u in s.threads ensures ThreadOk(s', s.threads[u]) {
      assert ThreadOk(s, s.threads[u]);
    }
  }

  lemma StepDie(s: State, v: ViewId)
    requires Inv(s) && CanAct(s, Die(v))
    ensures Inv(Act(s, Die(v)))
  {
    hide Holders, Closing, Private, ThreadsOk, OneProxy, CountRight, DataRight, InUse;
    var s', w := Act(s, Die(v)), View(s.views[v].proxy, Dying);
    LiveHasInstalled(s, v);
    ViewSet(s.views, v, w);
    assert SameHolding(s, s', v, w);
    DataKept(s, s', v, w);
    ProxyKept(s, s', v, w);
    CountKept(s, s', v, w, {}, {});
    ThreadsUntouched(s, s', v);
  }

  lemma DyingHasInstalled(s: State, v: ViewId)
    requires OneProxy(s) && AtStage(s, v, Dying)
    ensures s.views[v].proxy == s.installed
  {
  }

  /** The only view there is frees the data itself. */
  lemma LastWithoutProxy(s: State, s': State, v: ViewId)
    requires OneProxy(s) && CountRight(s) && DataRight(s) && AtStage(s, v, Dying) && s.installed == None
    requires s' == s.(views := s.views[v := View(None, Dead)], frees := s.frees + 1)
    ensures OneProxy(s') && CountRight(s') && DataRight(s')
  {
    hide Holders, Closing, Private;
    OnlyHolder(s, v);
    ViewSet(s.views, v, View(None, Dead));
    assert Holders(s'.views) == {} && Closing(s'.views) == {};
  }

  lemma OneLess(s: State, s': State, v: ViewId)
    requires OneProxy(s) && CountRight(s) && DataRight(s) && AtStage(s, v, Dying) && s.installed.Some?
    requires s.installed.value in s.count && s.count[s.installed.value] == |Holders(s.views)|
    requires var n := s.count[s.installed.value] - 1;
      s' == s.(views := s.views[v := View(s.installed, if n == 0 then Freeing else Dead)], count := s.count[s.installed.value := n])
    ensures OneProxy(s') && CountRight(s') && DataRight(s')
  {
    hide Holders, Closing, Private;
    ViewSet(s.views, v, s'.views[v]);
    assert v in Holders(s.views) && Closing(s.views) == {};
    assert Holders(s'.views) == Holders(s.views) - {v};
    assert |Holders(s'.views)| == |Holders(s.views)| - 1;
    assert s'.count.Keys == s.count.Keys;
    assert OneProxy(s');
    hide OneProxy;
    if |Holders(s'.views)| == 0 {
      assert Holders(s'.views) == {} && Closing(s'.views) == {v};
    } else {
      assert Closing(s'.views) == {};
    }
  }

  lemma StepFinalize(s: State, v: ViewId)
    requires Inv(s) && CanAct(s, Finalize(v))
    ensures Inv(Act(s, Finalize(v)))
  {
    hide Holders, Closing, Private, ThreadsOk, OneProxy, CountRight, DataRight;
    var s' := Act(s, Finalize(v));
    DyingHasInstalled(s, v);
    ViewSet(s.views, v, s'.views[v]);
    InstalledExists(s, v);
    if s.installed.None? { LastWithoutProxy(s, s', v); } else { OneLess(s, s', v); }
    ThreadsUntouched(s, s', v);
  }

  /** A view is closing only when nobody holds the data, and it is the only one. */
  lemma OnlyCloser(s: State, v: ViewId)
    requires DataRight(s) && OneProxy(s) && v in s.views && (s.views[v].stage.Freeing? || s.views[v].stage.Unproxying?)
    ensures Closing(s.views) == {v} && Holders(s.views) == {} && s.views[v].proxy == s.installed
    ensures s.frees == if s.views[v].stage.Freeing? then 0 else 1
  {
    assert v in Closing(s.views);
  }

  lemma DataFreed(s: State, s': State, v: ViewId)
    requires OneProxy(s) && CountRight(s) && DataRight(s) && AtStage(s, v, Freeing)
    requires s' == s.(views := s.views[v := View(s.views[v].proxy, Unproxying)], frees := s.frees + 1)
    ensures OneProxy(s') && CountRight(s') && DataRight(s')
  {
    hide Holders, Closing, Private;
    OnlyCloser(s, v);
    ViewSet(s.views, v, s'.views[v]);
    assert Closing(s'.views) == {v} && Holders(s'.views) == {};
  }

  lemma StepFreeData(s: State, v: ViewId)
    requires Inv(s) && CanAct(s, FreeData(v))
    ensures Inv(Act(s, FreeData(v)))
  {
    hide ThreadsOk, OneProxy, CountRight, DataRight;
    DataFreed(s, Act(s, FreeData(v)), v);
    ThreadsUntouched(s, Act(s, FreeData(v)), v);
  }

  lemma ProxyFreed(s: State, s': State, v: ViewId, p: ProxyId)
    requires OneProxy(s) && CountRight(s) && DataRight(s) && AtStage(s, v, Unproxying)
    requires s.views[v].proxy == Some(p) && p !in Private(s.threads)
    requires s' == s.(views := s.views[v := View(Some(p), Dead)], count := s.count - {p})
    ensures OneProxy(s') && CountRight(s') && DataRight(s')
  {
    hide Holders, Closing, Private;
    OnlyCloser(s, v);
    ViewSet(s.views, v, s'.views[v]);
    assert Closing(s'.views) == {} && Holders(s'.views) == {};
    CountWithout(s, s', p);
    hide CountRight;
    OneProxyWithout(s, s', v);
  }

  lemma OneProxyWithout(s: State, s': State, v: ViewId)
    requires OneProxy(s) && v in s.views && v in s'.views && s'.views == s.views[v := s'.views[v]] && s'.views[v].stage.Dead?
    requires s'.installed == s.installed && Holders(s'.views) == {}
    ensures OneProxy(s')
  {
    hide Holders;
  }

  lemma CountWithout(s: State, s': State, p: ProxyId)
    requires CountRight(s) && s.installed == Some(p) && p !in Private(s.threads) && s'.count == s.count - {p}
    requires s'.threads == s.threads && s'.installed == s.installed && Closing(s'.views) == {} && Holders(s'.views) == {}
    ensures CountRight(s')
  {
    hide Holders, Closing, Private;
    assert s'.count.Keys == s.count.Keys - {p};
  }

  lemma StepFreeProxy(s: State, v: ViewId)
    requires Inv(s) && CanAct(s, FreeProxy(v))
    ensures Inv(Act(s, FreeProxy(v)))
  {
    hide ThreadsOk, OneProxy, CountRight, DataRight, Private;
    PrivateNotInstalled(s);
    OnlyCloser(s, v);
    ProxyFreed(s, Act(s, FreeProxy(v)), v, s.views[v].proxy.value);
    ThreadsUntouched(s, Act(s, FreeProxy(v)), v);
  }

  lemma PrivateNotInstalled(s: State)
    requires ThreadsOk(s)
    ensures s.installed.Some? ==> s.installed.value !in Private(s.threads)
  {
    forall t | t in s.threads && Owns(s.threads[t]) ensures s.installed != Some(s.threads[t].own) { assert ThreadOk(s, s.threads[t]); }
  }

  // ----- Results -------------------------------------------------------------

  lemma StepInv(s: State, a: Action)
    requires Inv(s) && CanAct(s, a) && !a.MallocFails?
    ensures Inv(Act(s, a))
  {
    hide Inv, Act;
    if a.Begin? { StepBegin(s, a.t, a.b1, a.b2); }
    else if a.Load? { StepLoad(s, a.t); }
    else if a.Malloc? { StepMalloc(s, a.t, a.q); }
    else if a.Exchange? { StepExchange(s, a.t); }
    else if a.Attach? { StepAttach(s, a.t); }
    else if a.BackOut? { StepBackOut(s, a.t); }
    else if a.Adopt? { StepAdopt(s, a.t); }
    else if a.Count? { StepCount(s, a.t); }
    else if a.Die? { StepDie(s, a.v); }
    else if a.Finalize? { StepFinalize(s, a.v); }
    else if a.FreeData? { StepFreeData(s, a.v); }
    else { StepFreeProxy(s, a.v); }
  }

  lemma InitInv(s: State)
    requires Init(s)
    ensures Inv(s)
  {
    var b :| s.views == map[b := View(None, Live)];
    assert Holders(s.views) == {b} && Closing(s.views) == {} && Private(s.threads) == {};
    assert |{b}| == 1;
  }

  lemma {:induction false} RunInv(t: seq<State>, acts: seq<Action>, i: nat)
    requires Run(t, acts) && i < |t|
    ensures Inv(t[i])
  {
    hide Inv, Act;
    if i == 0 {
      InitInv(t[0]);
    } else {
      RunInv(t, acts, i - 1);
      StepInv(t[i - 1], acts[i - 1]);
    }
  }

  /** All views that have been handed out share the installed proxy. */
  lemma ViewsShareProxy(t: seq<State>, acts: seq<Action>, i: nat, v: ViewId, w: ViewId)
    requires Run(t, acts) && i < |t| && AtStage(t[i], v, Live) && AtStage(t[i], w, Live)
    ensures t[i].views[v].proxy == t[i].views[w].proxy == t[i].installed
    ensures v != w ==> t[i].installed.Some? && t[i].installed.value in t[i].count
    ensures v != w ==> t[i].count[t[i].installed.value] == |Holders(t[i].views)|
  {
    RunInv(t, acts, i);
    hide CountRight, DataRight, ThreadsOk;
    assert v in Holders(t[i].views) && w in Holders(t[i].views);
    InstalledExists(t[i], v);
    if t[i].installed.None? { Alone(Holders(t[i].views), v); }
  }

  /** The data is never freed while a view that was handed out, or one being created, refers to it. */
  lemma NotFreedWhileUsed(t: seq<State>, acts: seq<Action>, i: nat)
    requires Run(t, acts) && i < |t|
    requires (exists v :: AtStage(t[i], v, Live)) || (exists u :: u in t[i].threads && !t[i].threads[u].Idle?)
    ensures t[i].frees == 0
  {
    RunInv(t, acts, i);
    hide CountRight, OneProxy, ThreadsOk;
    if u :| u in t[i].threads && !t[i].threads[u].Idle? {
      WorkHolds(t[i], u);
    } else {
      var v :| AtStage(t[i], v, Live);
      assert v in Holders(t[i].views);
    }
  }

  /** When every view is dead the data has been freed exactly once and no proxy is left. */
  lemma FreedExactlyOnce(t: seq<State>, acts: seq<Action>, i: nat)
    requires Run(t, acts) && i < |t|
    ensures t[i].frees <= 1
    ensures (forall v :: v in t[i].views ==> t[i].views[v].stage.Dead?) ==> t[i].frees == 1 && t[i].count == map[]
  {
    RunInv(t, acts, i);
    var s := t[i];
    if Closing(s.views) != {} { var v :| v in Closing(s.views); }
    if forall v :: v in s.views ==> s.views[v].stage.Dead? {
      assert Holders(s.views) == {} && Closing(s.views) == {};
      forall u | u in s.threads ensures s.threads[u].Idle? { assert ThreadOk(s, s.threads[u]); }
      assert Private(s.threads) == {};
      assert s.count.Keys == {};
    }
  }

  /** Whoever touches a proxy's count finds the proxy there. */
  lemma NoUseAfterFree(t: seq<State>, acts: seq<Action>, i: nat)
    requires Run(t, acts) && i < |acts|
    ensures acts[i].Count? ==> t[i].threads[acts[i].t].other in t[i].count
    ensures acts[i].Finalize? && t[i].views[acts[i].v].proxy.Some? ==> t[i].views[acts[i].v].proxy.value in t[i].count
  {
    RunInv(t, acts, i);
    hide DataRight, CountRight, ThreadsOk;
    if acts[i].Count? {
      WorkHolds(t[i], acts[i].t);
      InstalledExists(t[i], t[i].threads[acts[i].t].b1);
    } else if acts[i].Finalize? {
      assert acts[i].v in Holders(t[i].views);
      InstalledExists(t[i], acts[i].v);
    }
  }

  /**
  Memory for the proxy must be found: when a thread that saw no proxy fails to allocate one,
  the view it leaves behind is finalised as if it owned the data, which is then freed under
  the view it was made from.
  */
  lemma FailureFreesSharedData(s: State, t: Thread)
    requires Inv(s) && CanAct(s, MallocFails(t))
    ensures var b1, b2 := s.threads[t].b1, s.threads[t].b2;
      var s1 := Act(s, MallocFails(t));
      && CanAct(s1, Die(b2)) && CanAct(Act(s1, Die(b2)), Finalize(b2))
      && var s2 := Act(Act(s1, Die(b2)), Finalize(b2));
         s2.frees == 1 && AtStage(s2, b1, Live)
  {
    WorkHolds(s, t);
    var b1, b2 := s.threads[t].b1, s.threads[t].b2;
    var s1 := Act(s, MallocFails(t));
    forall u | u in s1.threads && !s1.threads[u].Idle? ensures s1.threads[u].b1 != b2 {
      assert u != t && ThreadOk(s, s.threads[u]);
    }
    assert s.frees == 0;
  }

  // ----- One thread at work --------------------------------------------------

  ghost predicate StepsTo(s: State, a: Action, s': State) {
    CanAct(s, a) && s' == Act(s, a)
  }

  /** The first view of an array without a proxy gives both a new one, counted for two. */
  lemma FirstSharing(s: State, t: Thread, b1: ViewId, b2: ViewId, q: ProxyId)
    returns (s1: State, s2: State, s3: State, s4: State, s5: State)
    requires t in s.threads && s.threads[t].Idle? && AtStage(s, b1, Live) && b2 !in s.views && q !in s.count
    requires s.views[b1].proxy.None?
    ensures StepsTo(s, Begin(t, b1, b2), s1) && StepsTo(s1, Load(t), s2) && StepsTo(s2, Malloc(t, q), s3)
    ensures StepsTo(s3, Exchange(t), s4) && StepsTo(s4, Attach(t), s5)
    ensures AtStage(s5, b1, Live) && AtStage(s5, b2, Live) && s5.views[b1].proxy == s5.views[b2].proxy == Some(q) == s5.installed
    ensures s5.count == s.count[q := 2] && s5.frees == s.frees && s5.threads[t].Idle?
  {
    s1 := Act(s, Begin(t, b1, b2));
    s2 := Act(s1, Load(t));
    s3 := Act(s2, Malloc(t, q));
    s4 := Act(s3, Exchange(t));
    s5 := Act(s4, Attach(t));
  }

  /** Every further view takes over the proxy and is counted. */
  lemma NextSharing(s: State, t: Thread, b1: ViewId, b2: ViewId) returns (s1: State, s2: State, s3: State, s4: State)
    requires t in s.threads && s.threads[t].Idle? && AtStage(s, b1, Live) && b2 !in s.views
    requires s.views[b1].proxy.Some? && s.views[b1].proxy.value in s.count
    ensures StepsTo(s, Begin(t, b1, b2), s1) && StepsTo(s1, Load(t), s2) && StepsTo(s2, Adopt(t), s3) && StepsTo(s3, Count(t), s4)
    ensures var p := s.views[b1].proxy.value;
      && AtStage(s4, b1, Live) && AtStage(s4, b2, Live) && s4.views[b1].proxy == s4.views[b2].proxy == Some(p)
      && s4.count == s.count[p := s.count[p] + 1] && s4.frees == s.frees && s4.threads[t].Idle?
  {
    s1 := Act(s, Begin(t, b1, b2));
    s2 := Act(s1, Load(t));
    s3 := Act(s2, Adopt(t));
    s4 := Act(s3, Count(t));
  }

  /** The death of a view that is not the last lowers the count; that of the last frees the data and the proxy. */
  lemma DyingShared(s: State, v: ViewId, p: ProxyId) returns (s1: State, s2: State, s3: State, s4: State)
    requires AtStage(s, v, Live) && !InUse(s, v) && s.views[v].proxy == Some(p) && p in s.count
    ensures StepsTo(s, Die(v), s1) && StepsTo(s1, Finalize(v), s2)
    ensures s.count[p] != 1 ==> AtStage(s2, v, Dead) && s2.frees == s.frees && s2.count == s.count[p := s.count[p] - 1]
    ensures s.count[p] == 1 ==> StepsTo(s2, FreeData(v), s3) && StepsTo(s3, FreeProxy(v), s4)
    ensures s.count[p] == 1 ==> AtStage(s4, v, Dead) && s4.frees == s.frees + 1 && s4.count == s.count - {p}
  {
    s1 := Act(s, Die(v));
    s2 := Act(s1, Finalize(v));
    s3, s4 := s2, s2;
    if s.count[p] == 1 {
      s3 := Act(s2, FreeData(v));
      s4 := Act(s3, FreeProxy(v));
    }
  }

  /** An array that was never shared is freed with its only view. */
  lemma DyingAlone(s: State, v: ViewId) returns (s1: State, s2: State)
    requires AtStage(s, v, Live) && !InUse(s, v) && s.views[v].proxy.None?
    ensures StepsTo(s, Die(v), s1) && StepsTo(s1, Finalize(v), s2)
    ensures AtStage(s2, v, Dead) && s2.frees == s.frees + 1 && s2.count == s.count
  {
    s1 := Act(s, Die(v));
    s2 := Act(s1, Finalize(v));
  }
}
