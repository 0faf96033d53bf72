/**
The mutexes of the subscription machinery, one atomic lock or unlock at a time.

Every code path that touches DynamicSubscriptions::m_mutex, SubscriptionData::mutex or
EventStream::mtx is written down as the trace of its lock operations and of its uses of what
SubscriptionData::mutex guards, the state and the sysrepo subscription. Any number of threads run any
lists of such paths in any interleaving; no reachable state has a circular wait, and which paths can race
for a subscription is known exactly.
*/
module LockOrder {

  datatype Lock = Registry | Subscription(sub: nat) | Stream(stream: nat)

  /** Use: the state of a subscription is read or changed, or its sysrepo subscription terminated or processed. */
  datatype Op = Acquire(lock: Lock) | Release(lock: Lock) | Use(sub: nat)

  // ----- the code paths -----

  datatype Path =
    | Establish(sub: nat)                                     // establishSubscription
    | LookUp                                                  // getSubscriptionForUser
    | Delete(sub: nat, last: bool)                            // deleteSubscription
    | InactivityExpired(sub: nat, last: bool)                 // the timer, terminateSubscription
    | StopAll(subs: seq<nat>)                                 // DynamicSubscriptions::stop
    | DestroyRegistry(subs: seq<nat>)                         // ~DynamicSubscriptions
    | Connect(sub: nat)                                       // GET of a subscribed stream
    | Notify(sub: nat, stream: nat, events: seq<nat>)         // awaitNextNotification
    | TouchStream(stream: nat)                                // enqueue, ping, process
    | PostedResume(stream: nat, sub: nat, last: bool)         // a posted handler
    | TerminateSubscribed(sub: nat, stream: nat)              // the termination slot with its callback
    | Disconnect(stream: nat, sub: nat)                       // on_close with its callback

  /** `inner` done under a lock_guard. */
  function Guarded(lock: Lock, inner: seq<Op>): seq<Op> {
    [Acquire(lock)] + inner + [Release(lock)]
  }

  function Touch(lock: Lock): seq<Op> {
    Guarded(lock, [])
  }

  /** A method of SubscriptionData that locks its own mutex. */
  function Locked(sub: nat): seq<Op> {
    Guarded(Subscription(sub), [Use(sub)])
  }

  /** ~SubscriptionData, when this path drops the last reference. */
  function DropReference(sub: nat, last: bool): seq<Op> {
    if last then Locked(sub) else []
  }

  function LockedEach(subs: seq<nat>): seq<Op> {
    if subs == [] then [] else Locked(subs[0]) + LockedEach(subs[1..])
  }

  function EnqueueTimes(stream: nat, n: nat): seq<Op> {
    if n == 0 then [] else Touch(Stream(stream)) + EnqueueTimes(stream, n - 1)
  }

  /** One processEvent per element; each delivers that many notifications to the stream. */
  function ProcessEvents(sub: nat, stream: nat, events: seq<nat>): seq<Op> {
    if events == [] then []
    else
      Guarded(Subscription(sub), [Use(sub)] + EnqueueTimes(stream, events[0])) + ProcessEvents(sub, stream, events[1..])
  }

  /** deleteSubscription and terminateSubscription end the sysrepo subscription without its mutex. */
  function Trace(p: Path): seq<Op> {
    match p
    case Establish(sub) => Touch(Registry) + Guarded(Registry, Locked(sub))
    case LookUp => Touch(Registry)
    case Delete(sub, last) => Touch(Registry) + ([Use(sub)] + (Touch(Registry) + DropReference(sub, last)))
    case InactivityExpired(sub, last) => Guarded(Registry, [Use(sub)]) + DropReference(sub, last)
    case StopAll(subs) => Guarded(Registry, LockedEach(subs))
    case DestroyRegistry(subs) => LockedEach(subs)
    case Connect(sub) => Touch(Registry) + (Locked(sub) + Locked(sub))
    case Notify(sub, stream, events) => ProcessEvents(sub, stream, events)
    case TouchStream(stream) => Touch(Stream(stream))
    case PostedResume(stream, sub, last) => Touch(Stream(stream)) + DropReference(sub, last)
    case TerminateSubscribed(sub, stream) => Locked(sub) + Touch(Stream(stream))
    case Disconnect(stream, sub) => Touch(Stream(stream)) + Locked(sub)
  }

  function Program(paths: seq<Path>): seq<Op> {
    if paths == [] then [] else Trace(paths[0]) + Program(paths[1..])
  }

  // ----- the lock order -----

  function Rank(l: Lock): nat {
    match l
    case Registry => 0
    case Subscription(_) => 1
    case Stream(_) => 2
  }

  /** A lock may be requested only above everything already held. */
  predicate Above(l: Lock, held: seq<Lock>) {
    held == [] || Rank(held[|held| - 1]) < Rank(l)
  }

  predicate Increasing(held: seq<Lock>) {
    forall i, j | 0 <= i < j < |held| :: Rank(held[i]) < Rank(held[j])
  }

  /** From the stack `held`, `ops` follows the lock order and ends holding `end`. */
  predicate Ordered(held: seq<Lock>, ops: seq<Op>, end: seq<Lock>)
    decreases |ops|
  {
    if ops == [] then held == end
    else match ops[0]
      case Acquire(l) => Above(l, held) && Ordered(held + [l], ops[1..], end)
      case Release(l) => held != [] && held[|held| - 1] == l && Ordered(held[..|held| - 1], ops[1..], end)
      case Use(_) => Ordered(held, ops[1..], end)
  }

  lemma {:induction false} OrderedSeq(a: seq<Lock>, first: seq<Op>, b: seq<Lock>, second: seq<Op>, c: seq<Lock>)
    requires Ordered(a, first, b) && Ordered(b, second, c)
    ensures Ordered(a, first + second, c)
    decreases |first|
  {
    if first == [] {
      assert first + second == second;
    } else {
      assert (first + second)[1..] == first[1..] + second;
      match first[0]
      case Acquire(l) => OrderedSeq(a + [l], first[1..], b, second, c);
      case Release(l) => OrderedSeq(a[..|a| - 1], first[1..], b, second, c);
      case Use(_) => OrderedSeq(a, first[1..], b, second, c);
    }
  }

  lemma OrderedGuard(held: seq<Lock>, l: Lock, inner: seq<Op>)
    requires Above(l, held) && Ordered(held + [l], inner, held + [l])
    ensures Ordered(held, Guarded(l, inner), held)
  {
    var tail := [Release(l)];
    assert (held + [l])[..|held|] == held;
    assert Ordered(held, tail[1..], held);
    assert Ordered(held + [l], tail, held);
    OrderedSeq(held + [l], inner, held + [l], tail, held);
    assert Guarded(l, inner)[1..] == inner + tail;
  }

  lemma OrderedTouch(held: seq<Lock>, l: Lock)
    requires Above(l, held)
    ensures Ordered(held, Touch(l), held)
  {
    OrderedGuard(held, l, []);
  }

  lemma OrderedUse(held: seq<Lock>, sub: nat)
    ensures Ordered(held, [Use(sub)], held)
  {
    assert [Use(sub)][1..] == [];
  }

  lemma OrderedLocked(held: seq<Lock>, sub: nat)
    requires Above(Subscription(sub), held)
    ensures Ordered(held, Locked(sub), held)
  {
    OrderedUse(held + [Subscription(sub)], sub);
    OrderedGuard(held, Subscription(sub), [Use(sub)]);
  }

  lemma {:induction false} OrderedEach(held: seq<Lock>, subs: seq<nat>)
    requires held == [] || held == [Registry]
    ensures Ordered(held, LockedEach(subs), held)
    decreases |subs|
  {
    if subs == [] {
    } else {
      OrderedLocked(held, subs[0]);
      OrderedEach(held, subs[1..]);
      OrderedSeq(held, Locked(subs[0]), held, LockedEach(subs[1..]), held);
    }
  }

  lemma {:induction false} OrderedEnqueues(held: seq<Lock>, stream: nat, n: nat)
    requires Above(Stream(stream), held)
    ensures Ordered(held, EnqueueTimes(stream, n), held)
    decreases n
  {
    if n == 0 {
    } else {
      OrderedTouch(held, Stream(stream));
      OrderedEnqueues(held, stream, n - 1);
      OrderedSeq(held, Touch(Stream(stream)), held, EnqueueTimes(stream, n - 1), held);
    }
  }

  lemma OrderedEvent(sub: nat, stream: nat, n: nat)
    ensures Ordered([Subscription(sub)], [Use(sub)] + EnqueueTimes(stream, n), [Subscription(sub)])
    ensures Ordered([], Guarded(Subscription(sub), [Use(sub)] + EnqueueTimes(stream, n)), [])
  {
    var l := Subscription(sub);
    assert [] + [l] == [l];
    OrderedUse([l], sub);
    OrderedEnqueues([l], stream, n);
    OrderedSeq([l], [Use(sub)], [l], EnqueueTimes(stream, n), [l]);
    OrderedGuard([], l, [Use(sub)] + EnqueueTimes(stream, n));
  }

  lemma {:induction false} OrderedEvents(sub: nat, stream: nat, events: seq<nat>)
    ensures Ordered([], ProcessEvents(sub, stream, events), [])
    decreases |events|
  {
    if events == [] {
    } else {
      OrderedEvent(sub, stream, events[0]);
      OrderedEvents(sub, stream, events[1..]);
      OrderedPair(Guarded(Subscription(sub), [Use(sub)] + EnqueueTimes(stream, events[0])),
                  ProcessEvents(sub, stream, events[1..]));
    }
  }

  lemma OrderedDrop(sub: nat, last: bool)
    ensures Ordered([], DropReference(sub, last), [])
  {
    OrderedLocked([], sub);
  }

  /** Two traces that each start and end without locks. */
  lemma OrderedPair(a: seq<Op>, b: seq<Op>)
    requires Ordered([], a, []) && Ordered([], b, [])
    ensures Ordered([], a + b, [])
  {
    OrderedSeq([], a, [], b, []);
  }

  /** The pieces from which the paths are put together. */
  lemma OrderedPieces(sub: nat, stream: nat, subs: seq<nat>, last: bool)
    ensures Ordered([], Touch(Registry), []) && Ordered([], Touch(Stream(stream)), [])
    ensures Ordered([], Locked(sub), []) && Ordered([], [Use(sub)], []) && Ordered([], DropReference(sub, last), [])
    ensures Ordered([], Guarded(Registry, Locked(sub)), []) && Ordered([], Guarded(Registry, [Use(sub)]), [])
    ensures Ordered([], Guarded(Registry, LockedEach(subs)), []) && Ordered([], LockedEach(subs), [])
    ensures Ordered([Registry], Locked(sub), [Registry]) && Ordered([Registry], [Use(sub)], [Registry])
    ensures Ordered([Registry], LockedEach(subs), [Registry])
  {
    assert [] + [Registry] == [Registry];
    OrderedTouch([], Registry);
    OrderedTouch([], Stream(stream));
    OrderedLocked([], sub);
    OrderedLocked([Registry], sub);
    OrderedUse([], sub);
    OrderedUse([Registry], sub);
    OrderedDrop(sub, last);
    OrderedEach([], subs);
    OrderedEach([Registry], subs);
    OrderedGuard([], Registry, Locked(sub));
    OrderedGuard([], Registry, [Use(sub)]);
    OrderedGuard([], Registry, LockedEach(subs));
  }

  /** Every code path takes the locks in the order registry, subscription, stream, and gives them back. */
  lemma EveryPathIsOrdered(p: Path)
    ensures Ordered([], Trace(p), [])
  {
    match p
    case Establish(sub) =>
      OrderedPieces(sub, 0, [], true);
      OrderedPair(Touch(Registry), Guarded(Registry, Locked(sub)));
    case LookUp => OrderedTouch([], Registry);
    case Delete(sub, last) =>
      OrderedPieces(sub, 0, [], last);
      OrderedPair(Touch(Registry), DropReference(sub, last));
      OrderedPair([Use(sub)], Touch(Registry) + DropReference(sub, last));
      OrderedPair(Touch(Registry), [Use(sub)] + (Touch(Registry) + DropReference(sub, last)));
    case InactivityExpired(sub, last) =>
      OrderedPieces(sub, 0, [], last);
      OrderedPair(Guarded(Registry, [Use(sub)]), DropReference(sub, last));
    case StopAll(subs) => OrderedPieces(0, 0, subs, true);
    case DestroyRegistry(subs) => OrderedPieces(0, 0, subs, true);
    case Connect(sub) =>
      OrderedPieces(sub, 0, [], true);
      OrderedPair(Locked(sub), Locked(sub));
      OrderedPair(Touch(Registry), Locked(sub) + Locked(sub));
    case Notify(sub, stream, events) => OrderedEvents(sub, stream, events);
    case TouchStream(stream) => OrderedTouch([], Stream(stream));
    case PostedResume(stream, sub, last) =>
      OrderedPieces(sub, stream, [], last);
      OrderedPair(Touch(Stream(stream)), DropReference(sub, last));
    case TerminateSubscribed(sub, stream) =>
      OrderedPieces(sub, stream, [], true);
      OrderedPair(Locked(sub), Touch(Stream(stream)));
    case Disconnect(stream, sub) =>
      OrderedPieces(sub, stream, [], true);
      OrderedPair(Touch(Stream(stream)), Locked(sub));
  }

  lemma {:induction false} EveryProgramIsOrdered(paths: seq<Path>)
    ensures Ordered([], Program(paths), [])
    decreases |paths|
  {
    if paths == [] {
    } else {
      EveryPathIsOrdered(paths[0]);
      EveryProgramIsOrdered(paths[1..]);
      OrderedPair(Trace(paths[0]), Program(paths[1..]));
    }
  }

  // ----- threads -----

  datatype Thread = Thread(held: seq<Lock>, todo: seq<Op>)

  predicate Free(s: seq<Thread>, l: Lock) {
    forall t | 0 <= t < |s| :: l !in s[t].held
  }

  predicate Enabled(s: seq<Thread>, t: nat) {
    && t < |s| && s[t].todo != []
    && (s[t].todo[0].Acquire? ==> Free(s, s[t].todo[0].lock))
  }

  function Advance(th: Thread): Thread
    requires th.todo != []
  {
    match th.todo[0]
    case Acquire(l) => Thread(th.held + [l], th.todo[1..])
    case Release(_) => Thread(if th.held == [] then [] else th.held[..|th.held| - 1], th.todo[1..])
    case Use(_) => Thread(th.held, th.todo[1..])
  }

  /** Thread `t` does its next operation; it stays where it is while it has to wait. */
  function Step(s: seq<Thread>, t: nat): seq<Thread> {
    if Enabled(s, t) then s[t := Advance(s[t])] else s
  }

  function Run(s: seq<Thread>, schedule: seq<nat>): seq<Thread>
    decreases |schedule|
  {
    if schedule == [] then s else Run(Step(s, schedule[0]), schedule[1..])
  }

  function Start(programs: seq<seq<Path>>): seq<Thread> {
    seq(|programs|, i requires 0 <= i < |programs| => Thread([], Program(programs[i])))
  }

  predicate Good(th: Thread) {
    Increasing(th.held) && Ordered(th.held, th.todo, [])
  }

  predicate Inv(s: seq<Thread>) {
    && (forall t | 0 <= t < |s| :: Good(s[t]))
    && (forall t, u, l | 0 <= t < u < |s| && l in s[t].held :: l !in s[u].held)
  }

  lemma AdvanceKeepsGood(th: Thread)
    requires Good(th) && th.todo != []
    ensures Good(Advance(th))
  {
  }

  lemma StepKeepsInv(s: seq<Thread>, t: nat)
    requires Inv(s)
    ensures Inv(Step(s, t))
  {
    if Enabled(s, t) {
      assert Good(s[t]);
      AdvanceKeepsGood(s[t]);
      var s' := Step(s, t);
      forall l | l in s'[t].held ensures forall u | 0 <= u < |s| && u != t :: l !in s[u].held {
        if l !in s[t].held {
          assert Free(s, l);
        }
      }
    }
  }

  lemma {:induction false} RunKeepsInv(s: seq<Thread>, schedule: seq<nat>)
    requires Inv(s)
    ensures Inv(Run(s, schedule))
    decreases |schedule|
  {
    if schedule == [] {
    } else {
      StepKeepsInv(s, schedule[0]);
      RunKeepsInv(Step(s, schedule[0]), schedule[1..]);
    }
  }

  lemma StartInv(programs: seq<seq<Path>>)
    ensures Inv(Start(programs))
  {
    forall t | 0 <= t < |programs| ensures Good(Start(programs)[t]) {
      EveryProgramIsOrdered(programs[t]);
    }
  }

  // ----- no circular wait -----

  /** How high the next operation of a thread sits in the lock order; giving a lock back is highest. */
  function Height(th: Thread): nat
    requires th.todo != []
  {
    if th.todo[0].Acquire? then Rank(th.todo[0].lock) else 3
  }

  /** Follow who waits for whom, upwards in the lock order, to a thread that can move. */
  lemma {:induction false} SomeoneCanMove(s: seq<Thread>, t: nat) returns (u: nat)
    requires Inv(s) && t < |s| && s[t].todo != []
    ensures Enabled(s, u)
    decreases 3 - Height(s[t])
  {
    if Enabled(s, t) {
      return t;
    }
    var l := s[t].todo[0].lock;
    var v :| 0 <= v < |s| && l in s[v].held;
    assert Good(s[t]) && Good(s[v]);
    NothingHeldIsWanted(s[t]);
    HolderSitsHigher(s[v], l);
    u := SomeoneCanMove(s, v);
  }

  lemma NothingHeldIsWanted(th: Thread)
    requires Good(th) && th.todo != [] && th.todo[0].Acquire?
    ensures th.todo[0].lock !in th.held
  {
  }

  lemma HolderSitsHigher(th: Thread, l: Lock)
    requires Good(th) && l in th.held
    ensures th.todo != [] && Height(th) > Rank(l)
  {
    var i :| 0 <= i < |th.held| && th.held[i] == l;
    assert i == |th.held| - 1 || Rank(th.held[i]) < Rank(th.held[|th.held| - 1]);
  }

  /** In every interleaving of all programs: while a thread waits for a lock or holds one, some thread can move. */
  lemma NoDeadlock(programs: seq<seq<Path>>, schedule: seq<nat>, t: nat)
    requires var s := Run(Start(programs), schedule); t < |s| && (s[t].todo != [] || s[t].held != [])
    ensures var s := Run(Start(programs), schedule); exists u :: Enabled(s, u)
  {
    StartInv(programs);
    RunKeepsInv(Start(programs), schedule);
    var s := Run(Start(programs), schedule);
    assert Good(s[t]);
    var u := SomeoneCanMove(s, t);
  }

  /** No thread ever waits for a lock it holds itself, and no lock has two holders. */
  lemma MutualExclusion(programs: seq<seq<Path>>, schedule: seq<nat>, t: nat, u: nat, l: Lock)
    requires var s := Run(Start(programs), schedule); t < |s| && u < |s| && l in s[t].held && l in s[u].held
    ensures t == u
    ensures var s := Run(Start(programs), schedule); s[t].todo != [] && s[t].todo[0] != Acquire(l)
  {
    StartInv(programs);
    RunKeepsInv(Start(programs), schedule);
    var s := Run(Start(programs), schedule);
    assert Good(s[t]);
    HolderSitsHigher(s[t], l);
  }

  function Work(s: seq<Thread>): nat {
    if s == [] then 0 else |s[0].todo| + Work(s[1..])
  }

  lemma {:induction false} WorkShrinks(s: seq<Thread>, t: nat, th: Thread)
    requires t < |s| && |th.todo| < |s[t].todo|
    ensures Work(s[t := th]) < Work(s)
    decreases |s|
  {
    if t == 0 {
      assert s[0 := th][1..] == s[1..];
    } else {
      assert s[t := th][1..] == s[1..][t - 1 := th];
      WorkShrinks(s[1..], t - 1, th);
    }
  }

  predicate AllDone(s: seq<Thread>) {
    forall t | 0 <= t < |s| :: s[t].todo == [] && s[t].held == []
  }

  /** From every reachable state there is a schedule in which every thread finishes with no lock held. */
  lemma {:induction false} EveryoneCanFinish(s: seq<Thread>) returns (schedule: seq<nat>)
    requires Inv(s)
    ensures AllDone(Run(s, schedule))
    decreases Work(s)
  {
    if t :| 0 <= t < |s| && s[t].todo != [] {
      var u := SomeoneCanMove(s, t);
      StepKeepsInv(s, u);
      WorkShrinks(s, u, Advance(s[u]));
      var rest := EveryoneCanFinish(Step(s, u));
      schedule := [u] + rest;
      assert schedule[1..] == rest;
    } else {
      forall t | 0 <= t < |s| ensures s[t].held == [] { assert Good(s[t]); }
      schedule := [];
    }
  }

  // ----- what is done under which locks -----

  /** The locks held after one more operation. */
  function HeldAfter(held: seq<Lock>, op: Op): seq<Lock> {
    match op
    case Acquire(l) => held + [l]
    case Release(_) => if held == [] then [] else held[..|held| - 1]
    case Use(_) => held
  }

  /** Starting with `held`, `op` happens somewhere in `ops` while exactly `h` is held. */
  predicate Happens(held: seq<Lock>, ops: seq<Op>, h: seq<Lock>, op: Op)
    decreases |ops|
  {
    ops != [] && ((ops[0] == op && held == h) || Happens(HeldAfter(held, ops[0]), ops[1..], h, op))
  }

  lemma {:induction false} HappensSeq(
    a: seq<Lock>, first: seq<Op>, b: seq<Lock>, second: seq<Op>, h: seq<Lock>, op: Op)
    requires Ordered(a, first, b)
    ensures Happens(a, first + second, h, op) <==> Happens(a, first, h, op) || Happens(b, second, h, op)
    decreases |first|
  {
    if first == [] {
      assert first + second == second;
    } else {
      assert (first + second)[1..] == first[1..] + second;
      HappensSeq(HeldAfter(a, first[0]), first[1..], b, second, h, op);
    }
  }

  lemma HappensPair(a: seq<Op>, b: seq<Op>, h: seq<Lock>, op: Op)
    requires Ordered([], a, [])
    ensures Happens([], a + b, h, op) <==> Happens([], a, h, op) || Happens([], b, h, op)
  {
    HappensSeq([], a, [], b, h, op);
  }

  lemma HappensOnce(held: seq<Lock>, single: Op, h: seq<Lock>, op: Op)
    ensures Happens(held, [single], h, op) <==> single == op && held == h
  {
    assert [single][1..] == [];
  }

  lemma HappensGuarded(held: seq<Lock>, l: Lock, inner: seq<Op>, h: seq<Lock>, op: Op)
    requires Ordered(held + [l], inner, held + [l]) && !op.Release?
    ensures Happens(held, Guarded(l, inner), h, op)
            <==> (op == Acquire(l) && h == held) || Happens(held + [l], inner, h, op)
  {
    assert Guarded(l, inner)[1..] == inner + [Release(l)];
    HappensSeq(held + [l], inner, held + [l], [Release(l)], h, op);
    HappensOnce(held + [l], Release(l), h, op);
  }

  lemma HappensTouch(held: seq<Lock>, l: Lock, h: seq<Lock>, op: Op)
    requires !op.Release?
    ensures Happens(held, Touch(l), h, op) <==> op == Acquire(l) && h == held
  {
    HappensGuarded(held, l, [], h, op);
  }

  /** A locked use of the subscription, entered with `base` held. */
  predicate LockedUse(sub: nat, base: seq<Lock>, h: seq<Lock>, op: Op) {
    (op == Acquire(Subscription(sub)) && h == base) || (op == Use(sub) && h == base + [Subscription(sub)])
  }

  lemma HappensLocked(held: seq<Lock>, sub: nat, h: seq<Lock>, op: Op)
    requires !op.Release?
    ensures Happens(held, Locked(sub), h, op) <==> LockedUse(sub, held, h, op)
  {
    var l := Subscription(sub);
    OrderedUse(held + [l], sub);
    HappensGuarded(held, l, [Use(sub)], h, op);
    HappensOnce(held + [l], Use(sub), h, op);
  }

  lemma {:induction false} HappensEach(held: seq<Lock>, subs: seq<nat>, h: seq<Lock>, op: Op)
    requires (held == [] || held == [Registry]) && !op.Release?
    ensures Happens(held, LockedEach(subs), h, op) <==> exists i | 0 <= i < |subs| :: LockedUse(subs[i], held, h, op)
    decreases |subs|
  {
    if subs == [] {
    } else {
      OrderedLocked(held, subs[0]);
      HappensSeq(held, Locked(subs[0]), held, LockedEach(subs[1..]), h, op);
      HappensLocked(held, subs[0], h, op);
      HappensEach(held, subs[1..], h, op);
      if i :| 0 <= i < |subs[1..]| && LockedUse(subs[1..][i], held, h, op) {
        assert LockedUse(subs[i + 1], held, h, op);
      }
      if i :| 0 <= i < |subs| && LockedUse(subs[i], held, h, op) {
        assert i > 0 ==> LockedUse(subs[1..][i - 1], held, h, op);
      }
    }
  }

  lemma {:induction false} HappensEnqueues(held: seq<Lock>, stream: nat, n: nat, h: seq<Lock>, op: Op)
    requires Above(Stream(stream), held) && !op.Release?
    ensures Happens(held, EnqueueTimes(stream, n), h, op) <==> n > 0 && op == Acquire(Stream(stream)) && h == held
    decreases n
  {
    if n == 0 {
    } else {
      OrderedTouch(held, Stream(stream));
      HappensSeq(held, Touch(Stream(stream)), held, EnqueueTimes(stream, n - 1), h, op);
      HappensTouch(held, Stream(stream), h, op);
      HappensEnqueues(held, stream, n - 1, h, op);
    }
  }

  lemma HappensEvent(sub: nat, stream: nat, n: nat, h: seq<Lock>, op: Op)
    requires !op.Release?
    ensures var l := Subscription(sub);
            Happens([], Guarded(l, [Use(sub)] + EnqueueTimes(stream, n)), h, op)
            <==> LockedUse(sub, [], h, op) || (n > 0 && op == Acquire(Stream(stream)) && h == [l])
  {
    var l := Subscription(sub);
    assert [] + [l] == [l];
    OrderedEvent(sub, stream, n);
    HappensGuarded([], l, [Use(sub)] + EnqueueTimes(stream, n), h, op);
    OrderedUse([l], sub);
    HappensSeq([l], [Use(sub)], [l], EnqueueTimes(stream, n), h, op);
    HappensOnce([l], Use(sub), h, op);
    HappensEnqueues([l], stream, n, h, op);
  }

  predicate Delivers(events: seq<nat>) {
    exists i | 0 <= i < |events| :: events[i] > 0
  }

  lemma DeliversCons(events: seq<nat>)
    requires events != []
    ensures Delivers(events) <==> events[0] > 0 || Delivers(events[1..])
  {
    if i :| 0 <= i < |events[1..]| && events[1..][i] > 0 {
      assert events[i + 1] > 0;
    }
    if i :| 0 <= i < |events| && events[i] > 0 {
      assert i > 0 ==> events[1..][i - 1] > 0;
    }
  }

  lemma {:induction false} HappensEvents(sub: nat, stream: nat, events: seq<nat>, h: seq<Lock>, op: Op)
    requires !op.Release?
    ensures Happens([], ProcessEvents(sub, stream, events), h, op)
            <==> || (events != [] && LockedUse(sub, [], h, op))
                 || (Delivers(events) && op == Acquire(Stream(stream)) && h == [Subscription(sub)])
    decreases |events|
  {
    if events == [] {
    } else {
      OrderedEvent(sub, stream, events[0]);
      HappensPair(Guarded(Subscription(sub), [Use(sub)] + EnqueueTimes(stream, events[0])),
                  ProcessEvents(sub, stream, events[1..]), h, op);
      HappensEvent(sub, stream, events[0], h, op);
      HappensEvents(sub, stream, events[1..], h, op);
      DeliversCons(events);
    }
  }

  lemma HappensDrop(sub: nat, last: bool, h: seq<Lock>, op: Op)
    requires !op.Release?
    ensures Happens([], DropReference(sub, last), h, op) <==> last && LockedUse(sub, [], h, op)
  {
    HappensLocked([], sub, h, op);
  }

  /** What a code path locks and uses, and what it holds at that moment. */
  predicate Does(p: Path, h: seq<Lock>, op: Op) {
    match p
    case Establish(sub) => (op == Acquire(Registry) && h == []) || LockedUse(sub, [Registry], h, op)
    case LookUp => op == Acquire(Registry) && h == []
    case Delete(sub, last) =>
      (op in {Acquire(Registry), Use(sub)} && h == []) || (last && LockedUse(sub, [], h, op))
    case InactivityExpired(sub, last) =>
      || (op == Acquire(Registry) && h == []) || (op == Use(sub) && h == [Registry])
      || (last && LockedUse(sub, [], h, op))
    case StopAll(subs) =>
      (op == Acquire(Registry) && h == []) || exists i | 0 <= i < |subs| :: LockedUse(subs[i], [Registry], h, op)
    case DestroyRegistry(subs) => exists i | 0 <= i < |subs| :: LockedUse(subs[i], [], h, op)
    case Connect(sub) => (op == Acquire(Registry) && h == []) || LockedUse(sub, [], h, op)
    case Notify(sub, stream, events) =>
      || (events != [] && LockedUse(sub, [], h, op))
      || (Delivers(events) && op == Acquire(Stream(stream)) && h == [Subscription(sub)])
    case TouchStream(stream) => op == Acquire(Stream(stream)) && h == []
    case PostedResume(stream, sub, last) =>
      (op == Acquire(Stream(stream)) && h == []) || (last && LockedUse(sub, [], h, op))
    case TerminateSubscribed(sub, stream) => (op == Acquire(Stream(stream)) && h == []) || LockedUse(sub, [], h, op)
    case Disconnect(stream, sub) => (op == Acquire(Stream(stream)) && h == []) || LockedUse(sub, [], h, op)
  }

  /** Every code path does exactly that. */
  lemma EveryPathDoes(p: Path, h: seq<Lock>, op: Op)
    requires !op.Release?
    ensures Happens([], Trace(p), h, op) <==> Does(p, h, op)
  {
    assert [] + [Registry] == [Registry];
    HappensTouch([], Registry, h, op);
    match p
    case Establish(sub) => EstablishDoes(sub, h, op);
    case LookUp =>
    case Delete(sub, last) => DeleteDoes(sub, last, h, op);
    case InactivityExpired(sub, last) => InactivityDoes(sub, last, h, op);
    case StopAll(subs) =>
      OrderedPieces(0, 0, subs, true);
      HappensGuarded([], Registry, LockedEach(subs), h, op);
      HappensEach([Registry], subs, h, op);
    case DestroyRegistry(subs) => HappensEach([], subs, h, op);
    case Connect(sub) => ConnectDoes(sub, h, op);
    case Notify(sub, stream, events) => HappensEvents(sub, stream, events, h, op);
    case TouchStream(stream) => HappensTouch([], Stream(stream), h, op);
    case PostedResume(stream, sub, last) =>
      OrderedTouch([], Stream(stream));
      HappensPair(Touch(Stream(stream)), DropReference(sub, last), h, op);
      HappensTouch([], Stream(stream), h, op);
      HappensDrop(sub, last, h, op);
    case TerminateSubscribed(sub, stream) =>
      OrderedLocked([], sub);
      HappensPair(Locked(sub), Touch(Stream(stream)), h, op);
      HappensTouch([], Stream(stream), h, op);
      HappensLocked([], sub, h, op);
    case Disconnect(stream, sub) =>
      OrderedTouch([], Stream(stream));
      HappensPair(Touch(Stream(stream)), Locked(sub), h, op);
      HappensTouch([], Stream(stream), h, op);
      HappensLocked([], sub, h, op);
  }

  lemma EstablishDoes(sub: nat, h: seq<Lock>, op: Op)
    requires !op.Release?
    ensures Happens([], Trace(Establish(sub)), h, op) <==> Does(Establish(sub), h, op)
  {
    assert [] + [Registry] == [Registry];
    OrderedPieces(sub, 0, [], true);
    HappensTouch([], Registry, h, op);
    HappensPair(Touch(Registry), Guarded(Registry, Locked(sub)), h, op);
    HappensGuarded([], Registry, Locked(sub), h, op);
    HappensLocked([Registry], sub, h, op);
  }

  lemma InactivityDoes(sub: nat, last: bool, h: seq<Lock>, op: Op)
    requires !op.Release?
    ensures Happens([], Trace(InactivityExpired(sub, last)), h, op) <==> Does(InactivityExpired(sub, last), h, op)
  {
    assert [] + [Registry] == [Registry];
    OrderedPieces(sub, 0, [], last);
    HappensPair(Guarded(Registry, [Use(sub)]), DropReference(sub, last), h, op);
    HappensGuarded([], Registry, [Use(sub)], h, op);
    HappensOnce([Registry], Use(sub), h, op);
    HappensDrop(sub, last, h, op);
  }

  lemma ConnectDoes(sub: nat, h: seq<Lock>, op: Op)
    requires !op.Release?
    ensures Happens([], Trace(Connect(sub)), h, op) <==> Does(Connect(sub), h, op)
  {
    OrderedPieces(sub, 0, [], true);
    HappensTouch([], Registry, h, op);
    HappensPair(Touch(Registry), Locked(sub) + Locked(sub), h, op);
    HappensPair(Locked(sub), Locked(sub), h, op);
    HappensLocked([], sub, h, op);
  }

  lemma DeleteDoes(sub: nat, last: bool, h: seq<Lock>, op: Op)
    requires !op.Release?
    ensures Happens([], Trace(Delete(sub, last)), h, op) <==> Does(Delete(sub, last), h, op)
  {
    OrderedPieces(sub, 0, [], last);
    var rest := Touch(Registry) + DropReference(sub, last);
    HappensPair(Touch(Registry), [Use(sub)] + rest, h, op);
    HappensPair([Use(sub)], rest, h, op);
    HappensPair(Touch(Registry), DropReference(sub, last), h, op);
    HappensOnce([], Use(sub), h, op);
    HappensTouch([], Registry, h, op);
    HappensDrop(sub, last, h, op);
  }

  // ----- who can race for a subscription -----

  /** The two paths that end the sysrepo subscription without holding its mutex. */
  predicate EndsUnlocked(p: Path, sub: nat) {
    p == Delete(sub, true) || p == Delete(sub, false)
    || p == InactivityExpired(sub, true) || p == InactivityExpired(sub, false)
  }

  /** Whatever still has to be done with the subscription is done under its mutex. */
  ghost predicate UsesLocked(held: seq<Lock>, ops: seq<Op>, sub: nat) {
    forall h :: Happens(held, ops, h, Use(sub)) ==> Subscription(sub) in h
  }

  lemma PathUsesLockedIff(p: Path, sub: nat)
    ensures UsesLocked([], Trace(p), sub) <==> !EndsUnlocked(p, sub)
  {
    forall h ensures Happens([], Trace(p), h, Use(sub)) <==> Does(p, h, Use(sub)) {
      EveryPathDoes(p, h, Use(sub));
    }
    if EndsUnlocked(p, sub) {
      var h := if p.Delete? then [] else [Registry];
      assert Does(p, h, Use(sub));
    }
  }

  lemma {:induction false} ProgramUsesLocked(paths: seq<Path>, sub: nat)
    requires forall i | 0 <= i < |paths| :: !EndsUnlocked(paths[i], sub)
    ensures UsesLocked([], Program(paths), sub)
    decreases |paths|
  {
    if paths == [] {
    } else {
      ProgramUsesLocked(paths[1..], sub);
      PathUsesLockedIff(paths[0], sub);
      EveryPathIsOrdered(paths[0]);
      forall h ensures Happens([], Program(paths), h, Use(sub)) ==> Subscription(sub) in h {
        HappensPair(Trace(paths[0]), Program(paths[1..]), h, Use(sub));
      }
    }
  }

  /** Two threads are about to use the same subscription, and nothing keeps them apart. */
  predicate IsRace(s: seq<Thread>, t: nat, u: nat, sub: nat) {
    && t < |s| && u < |s| && t != u
    && s[t].todo != [] && s[t].todo[0] == Use(sub)
    && s[u].todo != [] && s[u].todo[0] == Use(sub)
  }

  ghost predicate AllLocked(s: seq<Thread>, sub: nat) {
    forall t | 0 <= t < |s| :: UsesLocked(s[t].held, s[t].todo, sub)
  }

  lemma StepKeepsLocked(s: seq<Thread>, t: nat, sub: nat)
    requires AllLocked(s, sub)
    ensures AllLocked(Step(s, t), sub)
  {
    if Enabled(s, t) {
      var th, th' := s[t], Advance(s[t]);
      assert th'.held == HeldAfter(th.held, th.todo[0]) && th'.todo == th.todo[1..];
      forall h ensures Happens(th'.held, th'.todo, h, Use(sub)) ==> Subscription(sub) in h {
        assert Happens(th'.held, th'.todo, h, Use(sub)) ==> Happens(th.held, th.todo, h, Use(sub));
      }
      assert UsesLocked(th'.held, th'.todo, sub);
    }
  }

  lemma {:induction false} RunKeepsLocked(s: seq<Thread>, schedule: seq<nat>, sub: nat)
    requires AllLocked(s, sub)
    ensures AllLocked(Run(s, schedule), sub)
    decreases |schedule|
  {
    if schedule == [] {
    } else {
      StepKeepsLocked(s, schedule[0], sub);
      RunKeepsLocked(Step(s, schedule[0]), schedule[1..], sub);
    }
  }

  lemma RacersHoldTheLock(s: seq<Thread>, t: nat, u: nat, sub: nat)
    requires AllLocked(s, sub) && IsRace(s, t, u, sub)
    ensures Subscription(sub) in s[t].held && Subscription(sub) in s[u].held
  {
    assert Happens(s[t].held, s[t].todo, s[t].held, Use(sub));
    assert Happens(s[u].held, s[u].todo, s[u].held, Use(sub));
  }

  /** Without these two paths no interleaving of any threads lets two of them use a subscription at once. */
  lemma NoRace(programs: seq<seq<Path>>, schedule: seq<nat>, sub: nat, t: nat, u: nat)
    requires forall i, j | 0 <= i < |programs| && 0 <= j < |programs[i]| :: !EndsUnlocked(programs[i][j], sub)
    ensures !IsRace(Run(Start(programs), schedule), t, u, sub)
  {
    var s := Start(programs);
    forall i | 0 <= i < |s| ensures UsesLocked(s[i].held, s[i].todo, sub) {
      ProgramUsesLocked(programs[i], sub);
    }
    RunKeepsLocked(s, schedule, sub);
    StartInv(programs);
    RunKeepsInv(s, schedule);
    if IsRace(Run(s, schedule), t, u, sub) {
      RacersHoldTheLock(Run(s, schedule), t, u, sub);
    }
  }

  /** The thread does its next operation: the schedule with it in front. */
  lemma RunFirst(s: seq<Thread>, t: nat, schedule: seq<nat>)
    ensures Run(s, [t] + schedule) == Run(Step(s, t), schedule)
  {
    assert ([t] + schedule)[1..] == schedule;
  }

  lemma ProgramOfOne(p: Path)
    ensures Program([p]) == Trace(p)
  {
    assert [p][1..] == [];
    assert Trace(p) + [] == Trace(p);
  }

  /** From the start of on_close to where it uses the subscription, if nobody holds the locks on the way. */
  lemma DisconnectReachesUse(first: Thread, stream: nat, sub: nat)
    requires Stream(stream) !in first.held && Subscription(sub) !in first.held
    ensures var s := Run([first, Thread([], Trace(Disconnect(stream, sub)))], [1, 1, 1]);
            |s| == 2 && s[0] == first && s[1].todo != [] && s[1].todo[0] == Use(sub)
  {
    var x, y := Stream(stream), Subscription(sub);
    var ops := [Acquire(x), Release(x), Acquire(y), Use(sub), Release(y)];
    assert Trace(Disconnect(stream, sub)) == ops;
    var s0 := [first, Thread([], ops)];
    var s1 := [first, Thread([x], ops[1..])];
    var s2 := [first, Thread([], ops[2..])];
    var s3 := [first, Thread([y], ops[3..])];
    assert Free(s0, x) && Free(s2, y);
    assert [] + [x] == [x] && [x][..0] == [] && [] + [y] == [y];
    assert Step(s0, 1) == s1;
    assert Step(s1, 1) == s2;
    assert Step(s2, 1) == s3;
    RunFirst(s0, 1, [1, 1]);
    RunFirst(s1, 1, [1]);
    RunFirst(s2, 1, []);
    assert [1] + [1, 1] == [1, 1, 1] && [1] + [1] == [1, 1] && [1] + [] == [1];
  }

  /** How far an unlocked path runs until it uses the subscription, and what it holds then. */
  function StepsToUse(p: Path): seq<nat> {
    if p.Delete? then [0, 0] else [0]
  }

  lemma UnlockedReachesUse(p: Path, sub: nat, other: Thread) returns (first: Thread)
    requires EndsUnlocked(p, sub) && other.held == []
    ensures Run([Thread([], Trace(p)), other], StepsToUse(p)) == [first, other]
    ensures first.todo != [] && first.todo[0] == Use(sub)
    ensures forall l | l in first.held :: l == Registry
  {
    var ops := Trace(p);
    var s0 := [Thread([], ops), other];
    assert Free(s0, Registry);
    assert ops[0] == Acquire(Registry);
    assert [] + [Registry] == [Registry];
    var s1 := [Thread([Registry], ops[1..]), other];
    assert Step(s0, 0) == s1;
    if p.Delete? {
      assert ops[1] == Release(Registry) && ops[2] == Use(sub);
      first := Thread([], ops[2..]);
      assert [Registry][..0] == [];
      assert Step(s1, 0) == [first, other];
      RunFirst(s0, 0, [0]);
      RunFirst(s1, 0, []);
      assert [0] + [0] == [0, 0] && [0] + [] == [0];
    } else {
      assert ops[1] == Use(sub);
      first := s1[0];
      RunFirst(s0, 0, []);
      assert [0] + [] == [0];
    }
  }

  lemma {:induction false} RunInTwoParts(s: seq<Thread>, a: seq<nat>, b: seq<nat>)
    ensures Run(s, a + b) == Run(Run(s, a), b)
    decreases |a|
  {
    if a == [] {
      assert a + b == b;
    } else {
      assert (a + b)[1..] == a[1..] + b;
      RunInTwoParts(Step(s, a[0]), a[1..], b);
    }
  }

  /** With one of them there is such an interleaving already beside a disconnecting client. */
  lemma RaceIsReachable(p: Path, stream: nat, sub: nat) returns (schedule: seq<nat>)
    requires EndsUnlocked(p, sub)
    ensures IsRace(Run(Start([[p], [Disconnect(stream, sub)]]), schedule), 0, 1, sub)
  {
    ProgramOfOne(p);
    ProgramOfOne(Disconnect(stream, sub));
    var other := Thread([], Trace(Disconnect(stream, sub)));
    var s := Start([[p], [Disconnect(stream, sub)]]);
    assert s == [Thread([], Trace(p)), other];
    var first := UnlockedReachesUse(p, sub, other);
    DisconnectReachesUse(first, stream, sub);
    schedule := StepsToUse(p) + [1, 1, 1];
    RunInTwoParts(s, StepsToUse(p), [1, 1, 1]);
  }

  /** Beside a disconnecting client, in every interleaving. */
  ghost predicate SafeBesideDisconnect(p: Path, stream: nat, sub: nat) {
    forall schedule, t, u :: !IsRace(Run(Start([[p], [Disconnect(stream, sub)]]), schedule), t, u, sub)
  }

  /** A code path is safe exactly if it does not end the sysrepo subscription without the mutex. */
  lemma SafeIff(p: Path, stream: nat, sub: nat)
    ensures SafeBesideDisconnect(p, stream, sub) <==> !EndsUnlocked(p, sub)
  {
    if EndsUnlocked(p, sub) {
      var schedule := RaceIsReachable(p, stream, sub);
    } else {
      forall schedule, t, u ensures !IsRace(Run(Start([[p], [Disconnect(stream, sub)]]), schedule), t, u, sub) {
        NoRace([[p], [Disconnect(stream, sub)]], schedule, sub, t, u);
      }
    }
  }
}
