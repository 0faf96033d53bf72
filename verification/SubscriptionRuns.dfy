/**
The subscription protocol as a whole: the registry, every SubscriptionData object ever made, the
HTTP streams attached to them, the timers and the shutdown.

One step is one handler of the server's single-threaded io_context, run to its end; a timer's expiry
and its handler are one step. Server::stop is such a handler too, as main() posts it there. Objects are
never forgotten, so that statements about destroyed ones make sense. A run is any sequence of actions;
an action that the current state does not allow changes nothing.
*/
module SubscriptionRuns {
  import opened Common
  import opened Subscriptions

  /** An HTTP stream holds its subscription from GET until it is released, some time after on_close. */
  datatype Phase = Open | Closed | Released

  datatype Conn = Conn(sub: nat, phase: Phase)

  datatype System = System(
    recovery: string,
    objs: seq<Sub>, dead: set<nat>,
    reg: map<nat, nat>,
    conns: seq<Conn>)

  datatype Action =
    | Establish(uuid: nat, id: nat, owner: string)
    | Get(uuid: nat, user: Option<string>)
    | OnClose(conn: nat)
    | Release(conn: nat)
    | TimerExpires(obj: nat)
    | DeleteRpc(id: nat, user: Option<string>, isKill: bool, fails: bool)
    | ServerStop
    | DestroyRegistry

  // ----- the steps -----

  /** Fresh uuids and ids: never given to any subscription before. */
  predicate Unused(s: System, uuid: nat, id: nat) {
    forall r | 0 <= r < |s.objs| :: s.objs[r].uuid != uuid && s.objs[r].id != id
  }

  predicate RegistryLinks(s: System) {
    forall u | u in s.reg :: s.reg[u] < |s.objs| && s.objs[s.reg[u]].uuid == u
  }

  /** The registry's content. */
  function Registered(s: System): Entries
    requires RegistryLinks(s)
  {
    map u | u in s.reg :: s.objs[s.reg[u]]
  }

  predicate IsOpenOn(s: System, c: nat, r: nat) {
    c < |s.conns| && s.conns[c] == Conn(r, Open)
  }

  predicate IsHeldBy(s: System, c: nat, r: nat) {
    c < |s.conns| && s.conns[c].sub == r && s.conns[c].phase != Released
  }

  /** The receivers currently attached to object r. */
  ghost function Receivers(s: System, r: nat): set<nat> {
    set c | 0 <= c < |s.conns| && IsOpenOn(s, c, r)
  }

  ghost predicate Unreferenced(s: System, r: nat) {
    && (forall u | u in s.reg :: s.reg[u] != r)
    && (forall c :: !IsHeldBy(s, c, r))
  }

  /** The last shared_ptr to r may just have gone: then its destructor runs. */
  ghost function Collect(s: System, r: nat): System {
    if r < |s.objs| && r !in s.dead && Unreferenced(s, r)
    then s.(objs := s.objs[r := Destroyed(s.objs[r])], dead := s.dead + {r})
    else s
  }

  function EstablishStep(s: System, uuid: nat, id: nat, owner: string): System {
    if Unused(s, uuid, id)
    then s.(objs := s.objs + [Created(id, uuid, owner)], reg := s.reg[uuid := |s.objs|])
    else s
  }

  /** GET: look up, refuse a second receiver, otherwise attach a new stream. */
  ghost function GetStep(s: System, uuid: nat, user: Option<string>): System
    requires RegistryLinks(s)
  {
    var found := LookUpByUuid(Registered(s), uuid, user, s.recovery);
    if found.None? then s
    else
      var r := s.reg[found.value];
      if s.objs[r].state != Start then s
      else s.(objs := s.objs[r := Connected(s.objs[r])], conns := s.conns + [Conn(r, Open)])
  }

  function OnCloseStep(s: System, c: nat): System {
    if c < |s.conns| && s.conns[c].phase == Open && s.conns[c].sub < |s.objs|
    then
      var r := s.conns[c].sub;
      s.(objs := s.objs[r := Disconnected(s.objs[r])], conns := s.conns[c := Conn(r, Closed)])
    else s
  }

  ghost function ReleaseStep(s: System, c: nat): System {
    if c < |s.conns| && s.conns[c].phase == Closed
    then Collect(s.(conns := s.conns[c := Conn(s.conns[c].sub, Released)]), s.conns[c].sub)
    else s
  }

  /** terminateSubscription, called by the live timer of the object with this id. */
  ghost function TerminateById(s: System, id: nat): System
    requires RegistryLinks(s)
  {
    var found := FindById(Registered(s), id);
    if found.None? then s
    else
      var r := s.reg[found.value];
      Collect(s.(objs := s.objs[r := Terminated(s.objs[r])], reg := s.reg - {found.value}), r)
  }

  ghost function TimerStep(s: System, r: nat): System
    requires RegistryLinks(s)
  {
    if r < |s.objs| && r !in s.dead && s.objs[r].timer != Off
    then
      var s' := s.(objs := s.objs[r := s.objs[r].(timer := Off)]);
      if s.objs[r].timer == Armed then TerminateById(s', s.objs[r].id) else s'
    else s
  }

  ghost function DeleteStep(s: System, id: nat, user: Option<string>, isKill: bool, fails: bool): System
    requires RegistryLinks(s)
  {
    var o := Delete(Registered(s), id, user, isKill, s.recovery, fails);
    if o.Deleted? then Collect(s.(reg := s.reg - {o.uuid}), s.reg[o.uuid]) else s
  }

  /** The termination signal reaches every open stream, then the registry stops what it holds. */
  ghost function AfterStop(s: System, r: nat): Sub
    requires r < |s.objs|
  {
    var sub := if exists c :: IsOpenOn(s, c, r) then Terminated(s.objs[r]) else s.objs[r];
    if exists u :: u in s.reg && s.reg[u] == r then Stopped(sub) else sub
  }

  ghost function ServerStopStep(s: System): System {
    s.(objs := seq(|s.objs|, r requires 0 <= r < |s.objs| => AfterStop(s, r)))
  }

  /** ~DynamicSubscriptions: the map goes; objects still held by a stream live on. */
  ghost predicate GoesWithRegistry(s: System, r: nat) {
    r !in s.dead && forall c :: !IsHeldBy(s, c, r)
  }

  ghost function DestroyRegistryStep(s: System): System {
    s.(reg := map[],
       objs := seq(|s.objs|, r requires 0 <= r < |s.objs| =>
         if GoesWithRegistry(s, r) then Destroyed(s.objs[r]) else s.objs[r]),
       dead := s.dead + set r | 0 <= r < |s.objs| && GoesWithRegistry(s, r))
  }

  ghost function Step(s: System, a: Action): (t: System)
    requires RegistryLinks(s)
    ensures |s.objs| <= |t.objs|
  {
    match a
    case Establish(uuid, id, owner) => EstablishStep(s, uuid, id, owner)
    case Get(uuid, user) => GetStep(s, uuid, user)
    case OnClose(c) => OnCloseStep(s, c)
    case Release(c) => ReleaseStep(s, c)
    case TimerExpires(r) => TimerStep(s, r)
    case DeleteRpc(id, user, isKill, fails) => DeleteStep(s, id, user, isKill, fails)
    case ServerStop => ServerStopStep(s)
    case DestroyRegistry => DestroyRegistryStep(s)
  }

  function Initial(recovery: string): System {
    System(recovery, [], {}, map[], [])
  }

  // ----- the invariant -----

  /** References stay within bounds and never lead to a destroyed object; uuids and ids are unique. */
  ghost predicate Linked(s: System) {
    && RegistryLinks(s)
    && (forall u | u in s.reg :: s.reg[u] !in s.dead)
    && (forall q, r | 0 <= q < r < |s.objs| :: s.objs[q].uuid != s.objs[r].uuid && s.objs[q].id != s.objs[r].id)
    && (forall c | 0 <= c < |s.conns| :: s.conns[c].sub < |s.objs|)
    && (forall c | 0 <= c < |s.conns| && s.conns[c].phase != Released :: s.conns[c].sub !in s.dead)
  }

  /** Start: no open stream. ReceiverActive: one. Terminating: at most one. */
  ghost predicate OneReceiver(s: System) {
    && (forall c, d, r :: IsOpenOn(s, c, r) && IsOpenOn(s, d, r) ==> c == d)
    && (forall c: nat, r: nat | r < |s.objs| && IsOpenOn(s, c, r) :: s.objs[r].state != Start)
    && (forall r | 0 <= r < |s.objs| && s.objs[r].state == ReceiverActive :: exists c :: IsOpenOn(s, c, r))
  }

  predicate AllSound(s: System) {
    && (forall r | 0 <= r < |s.objs| :: Sound(s.objs[r]))
    && (forall r | r in s.dead :: r < |s.objs| && s.objs[r].state == Terminating && s.objs[r].timer == Off)
  }

  ghost predicate Inv(s: System) {
    Linked(s) && OneReceiver(s) && AllSound(s)
  }

  /** What no step changes about an object: who it is, and that it is terminating. */
  predicate Persists(a: Sub, b: Sub) {
    && b.id == a.id && b.uuid == a.uuid && b.user == a.user
    && (a.state == Terminating ==> b.state == Terminating)
    && a.terminations <= b.terminations
  }

  predicate ObjectsPersist(s: System, t: System) {
    && |s.objs| <= |t.objs| && s.recovery == t.recovery && s.dead <= t.dead
    && forall r | 0 <= r < |s.objs| :: Persists(s.objs[r], t.objs[r])
  }

  lemma CollectKeepsInv(s: System, r: nat)
    requires Inv(s)
    ensures Inv(Collect(s, r)) && ObjectsPersist(s, Collect(s, r))
  {
    if r < |s.objs| && r !in s.dead && Unreferenced(s, r) {
      assert forall c :: IsOpenOn(s, c, r) ==> IsHeldBy(s, c, r);
      var t := Collect(s, r);
      assert forall c, q :: IsOpenOn(t, c, q) <==> IsOpenOn(s, c, q);
      forall c | 0 <= c < |t.conns| && t.conns[c].phase != Released ensures t.conns[c].sub !in t.dead {
        assert IsHeldBy(s, c, s.conns[c].sub);
      }
      assert Linked(t);
      assert AllSound(t);
      assert OneReceiver(t);
    }
  }

  lemma EstablishKeepsInv(s: System, uuid: nat, id: nat, owner: string)
    requires Inv(s)
    ensures Inv(EstablishStep(s, uuid, id, owner)) && ObjectsPersist(s, EstablishStep(s, uuid, id, owner))
  {
    var t := EstablishStep(s, uuid, id, owner);
    assert forall c, q :: IsOpenOn(t, c, q) <==> IsOpenOn(s, c, q);
  }

  lemma GetKeepsInv(s: System, uuid: nat, user: Option<string>)
    requires Inv(s)
    ensures Inv(GetStep(s, uuid, user)) && ObjectsPersist(s, GetStep(s, uuid, user))
  {
    if uuid in s.reg && MayUse(s.objs[s.reg[uuid]], user, s.recovery) && s.objs[s.reg[uuid]].state == Start {
      AttachKeepsInv(s, s.reg[uuid]);
    }
  }

  lemma AttachKeepsInv(s: System, r: nat)
    requires Inv(s) && r < |s.objs| && s.objs[r].state == Start && r !in s.dead
    ensures var t := s.(objs := s.objs[r := Connected(s.objs[r])], conns := s.conns + [Conn(r, Open)]);
            Inv(t) && ObjectsPersist(s, t)
  {
    var t := s.(objs := s.objs[r := Connected(s.objs[r])], conns := s.conns + [Conn(r, Open)]);
    assert forall c, q :: IsOpenOn(t, c, q) <==> IsOpenOn(s, c, q) || (c == |s.conns| && q == r);
    assert IsOpenOn(t, |s.conns|, r);
    assert Linked(t);
    assert OneReceiver(t);
  }

  lemma OnCloseKeepsInv(s: System, c: nat)
    requires Inv(s)
    ensures Inv(OnCloseStep(s, c)) && ObjectsPersist(s, OnCloseStep(s, c))
  {
    var t := OnCloseStep(s, c);
    if t != s {
      assert IsOpenOn(s, c, s.conns[c].sub);
      assert forall d, q :: IsOpenOn(t, d, q) <==> IsOpenOn(s, d, q) && d != c;
    }
  }

  lemma ReleaseKeepsInv(s: System, c: nat)
    requires Inv(s)
    ensures Inv(ReleaseStep(s, c)) && ObjectsPersist(s, ReleaseStep(s, c))
  {
    if c < |s.conns| && s.conns[c].phase == Closed {
      var t := s.(conns := s.conns[c := Conn(s.conns[c].sub, Released)]);
      assert forall d, q :: IsOpenOn(t, d, q) <==> IsOpenOn(s, d, q);
      CollectKeepsInv(t, s.conns[c].sub);
    }
  }

  /** Replacing one object that has no receiver keeps everything about the others. */
  lemma UpdateIdleKeepsInv(s: System, r: nat, sub: Sub)
    requires Inv(s) && r < |s.objs| && Persists(s.objs[r], sub) && Sound(sub)
    requires r in s.dead ==> sub.state == Terminating && sub.timer == Off
    requires (forall c :: !IsOpenOn(s, c, r)) && sub.state != ReceiverActive
    ensures var t := s.(objs := s.objs[r := sub]); Inv(t) && ObjectsPersist(s, t)
  {
    var t := s.(objs := s.objs[r := sub]);
    assert forall c, q :: IsOpenOn(t, c, q) <==> IsOpenOn(s, c, q);
  }

  lemma UnregisterKeepsInv(s: System, u: nat)
    requires Inv(s)
    ensures Inv(s.(reg := s.reg - {u}))
  {
    var t := s.(reg := s.reg - {u});
    assert forall c, q :: IsOpenOn(t, c, q) <==> IsOpenOn(s, c, q);
  }

  lemma ObjectsPersistTransitively(a: System, b: System, c: System)
    requires ObjectsPersist(a, b) && ObjectsPersist(b, c)
    ensures ObjectsPersist(a, c)
  {
    forall r | 0 <= r < |a.objs| ensures Persists(a.objs[r], c.objs[r]) {
      assert Persists(a.objs[r], b.objs[r]) && Persists(b.objs[r], c.objs[r]);
    }
  }

  /** The timer's own object is the one its callback finds. */
  lemma FindsItself(s: System, r: nat)
    requires Linked(s) && r < |s.objs|
    ensures var found := FindById(Registered(s), s.objs[r].id);
            found.Some? ==> found.value == s.objs[r].uuid && s.reg[found.value] == r
    ensures var found := FindById(Registered(s), s.objs[r].id);
            (exists u :: u in s.reg && s.reg[u] == r) ==> found.Some?
  {
    if u :| u in s.reg && s.reg[u] == r {
      assert HasId(Registered(s), u, s.objs[r].id);
    }
  }

  /** Terminating and unregistering a subscription that nobody receives. */
  lemma ReapKeepsInv(s: System, r: nat, u: nat)
    requires Inv(s) && r < |s.objs| && s.objs[r].timer == Off && s.objs[r].state != ReceiverActive
    requires forall c :: !IsOpenOn(s, c, r)
    ensures var t := Collect(s.(objs := s.objs[r := Terminated(s.objs[r])], reg := s.reg - {u}), r);
            Inv(t) && ObjectsPersist(s, t)
  {
    UpdateIdleKeepsInv(s, r, Terminated(s.objs[r]));
    var s' := s.(objs := s.objs[r := Terminated(s.objs[r])]);
    UnregisterKeepsInv(s', u);
    var s'' := s'.(reg := s'.reg - {u});
    assert ObjectsPersist(s, s'');
    CollectKeepsInv(s'', r);
    ObjectsPersistTransitively(s, s'', Collect(s'', r));
  }

  ghost predicate IsRegistered(s: System, r: nat) {
    exists u :: u in s.reg && s.reg[u] == r
  }

  /** What a live timer does to a registered subscription: it goes, and is destroyed unless a stream holds it. */
  ghost function Reaped(s: System, r: nat): System
    requires r < |s.objs|
  {
    Collect(s.(objs := s.objs[r := Terminated(s.objs[r].(timer := Off))], reg := s.reg - {s.objs[r].uuid}), r)
  }

  lemma LiveTimer(s: System, r: nat)
    requires Inv(s) && r < |s.objs| && r !in s.dead && s.objs[r].timer == Armed
    ensures TimerStep(s, r) ==
            if IsRegistered(s, r) then Reaped(s, r) else s.(objs := s.objs[r := s.objs[r].(timer := Off)])
  {
    var off := s.objs[r].(timer := Off);
    var t := s.(objs := s.objs[r := off]);
    UpdateIdleKeepsInv(s, r, off);
    FindsItself(t, r);
    assert t.objs[r := Terminated(off)] == s.objs[r := Terminated(off)];
  }

  lemma TimerKeepsInv(s: System, r: nat)
    requires Inv(s)
    ensures Inv(TimerStep(s, r)) && ObjectsPersist(s, TimerStep(s, r))
  {
    if r < |s.objs| && r !in s.dead && s.objs[r].timer != Off {
      var t := s.(objs := s.objs[r := s.objs[r].(timer := Off)]);
      UpdateIdleKeepsInv(s, r, s.objs[r].(timer := Off));
      if s.objs[r].timer == Armed {
        FindsItself(t, r);
        var found := FindById(Registered(t), t.objs[r].id);
        if found.Some? {
          assert forall c :: IsOpenOn(t, c, r) <==> IsOpenOn(s, c, r);
          ReapKeepsInv(t, r, found.value);
          ObjectsPersistTransitively(s, t, TimerStep(s, r));
        }
      }
    }
  }

  lemma DeleteKeepsInv(s: System, id: nat, user: Option<string>, isKill: bool, fails: bool)
    requires Inv(s)
    ensures var t := DeleteStep(s, id, user, isKill, fails); Inv(t) && ObjectsPersist(s, t)
  {
    var o := Delete(Registered(s), id, user, isKill, s.recovery, fails);
    if o.Deleted? {
      UnregisterKeepsInv(s, o.uuid);
      CollectKeepsInv(s.(reg := s.reg - {o.uuid}), s.reg[o.uuid]);
    }
  }

  lemma AfterStopIsSound(s: System, r: nat)
    requires Inv(s) && r < |s.objs|
    ensures Sound(AfterStop(s, r)) && Persists(s.objs[r], AfterStop(s, r))
    ensures s.objs[r].state != Start ==> AfterStop(s, r).state != Start
    ensures AfterStop(s, r).state == ReceiverActive ==> s.objs[r].state == ReceiverActive
    ensures r in s.dead ==> AfterStop(s, r).timer == Off && AfterStop(s, r).state == Terminating
  {
    assert Sound(s.objs[r]);
    if c: nat :| IsOpenOn(s, c, r) {
      assert s.objs[r].state != Start;
    }
  }

  lemma ServerStopKeepsInv(s: System)
    requires Inv(s)
    ensures Inv(ServerStopStep(s)) && ObjectsPersist(s, ServerStopStep(s))
  {
    var t := ServerStopStep(s);
    assert forall c, q :: IsOpenOn(t, c, q) <==> IsOpenOn(s, c, q);
    forall r | 0 <= r < |s.objs|
      ensures t.objs[r] == AfterStop(s, r) && Sound(t.objs[r]) && Persists(s.objs[r], t.objs[r])
      ensures s.objs[r].state != Start ==> t.objs[r].state != Start
      ensures t.objs[r].state == ReceiverActive ==> s.objs[r].state == ReceiverActive
      ensures r in s.dead ==> t.objs[r].timer == Off && t.objs[r].state == Terminating
    {
      AfterStopIsSound(s, r);
    }
  }

  lemma DestroyRegistryKeepsInv(s: System)
    requires Inv(s)
    ensures Inv(DestroyRegistryStep(s)) && ObjectsPersist(s, DestroyRegistryStep(s))
  {
    var t := DestroyRegistryStep(s);
    assert forall c, q :: IsOpenOn(t, c, q) <==> IsOpenOn(s, c, q);
    assert forall c, q :: IsOpenOn(s, c, q) ==> IsHeldBy(s, c, q);
    forall c | 0 <= c < |s.conns| && s.conns[c].phase != Released ensures s.conns[c].sub !in t.dead {
      assert IsHeldBy(s, c, s.conns[c].sub);
    }
    forall r | 0 <= r < |s.objs|
      ensures Sound(t.objs[r]) && Persists(s.objs[r], t.objs[r])
      ensures r in t.dead ==> t.objs[r].state == Terminating && t.objs[r].timer == Off
      ensures t.objs[r].state == s.objs[r].state || forall c :: !IsOpenOn(s, c, r)
    {
      assert Sound(s.objs[r]);
    }
    assert Linked(t);
    assert AllSound(t);
    assert OneReceiver(t);
  }

  lemma StepKeepsInv(s: System, a: Action)
    requires Inv(s)
    ensures Inv(Step(s, a)) && ObjectsPersist(s, Step(s, a))
  {
    match a
    case Establish(uuid, id, owner) => EstablishKeepsInv(s, uuid, id, owner);
    case Get(uuid, user) => GetKeepsInv(s, uuid, user);
    case OnClose(c) => OnCloseKeepsInv(s, c);
    case Release(c) => ReleaseKeepsInv(s, c);
    case TimerExpires(r) => TimerKeepsInv(s, r);
    case DeleteRpc(id, user, isKill, fails) => DeleteKeepsInv(s, id, user, isKill, fails);
    case ServerStop => ServerStopKeepsInv(s);
    case DestroyRegistry => DestroyRegistryKeepsInv(s);
  }

  // ----- runs -----

  ghost predicate StepAt(trace: seq<System>, actions: seq<Action>, i: nat)
    requires i < |actions| && |trace| == |actions| + 1
  {
    RegistryLinks(trace[i]) && trace[i + 1] == Step(trace[i], actions[i])
  }

  /** `trace` is a run: it starts in the initial state and each state follows from the one before. */
  ghost predicate IsRun(trace: seq<System>, actions: seq<Action>) {
    && |trace| == |actions| + 1
    && trace[0] == Initial(trace[0].recovery)
    && forall i | 0 <= i < |actions| :: StepAt(trace, actions, i)
  }

  lemma InitialInv(recovery: string)
    ensures Inv(Initial(recovery))
  {
  }

  lemma NextState(trace: seq<System>, actions: seq<Action>, i: nat)
    requires i < |actions| && |trace| == |actions| + 1 && StepAt(trace, actions, i) && Inv(trace[i])
    ensures Inv(trace[i + 1]) && ObjectsPersist(trace[i], trace[i + 1])
  {
    StepKeepsInv(trace[i], actions[i]);
  }

  lemma {:induction false} RunKeepsInv(trace: seq<System>, actions: seq<Action>, i: nat)
    requires IsRun(trace, actions) && i < |trace|
    ensures Inv(trace[i])
    decreases i
  {
    if i == 0 {
      InitialInv(trace[0].recovery);
    } else {
      RunKeepsInv(trace, actions, i - 1);
      assert StepAt(trace, actions, i - 1);
      NextState(trace, actions, i - 1);
    }
  }

  /** Every sequence of actions has its run: no behaviour is excluded by how runs are defined. */
  lemma {:induction false} EveryActionSequenceRuns(recovery: string, actions: seq<Action>) returns (trace: seq<System>)
    ensures IsRun(trace, actions) && trace[0] == Initial(recovery)
    decreases |actions|
  {
    if actions == [] {
      trace := [Initial(recovery)];
    } else {
      var n := |actions| - 1;
      var before := EveryActionSequenceRuns(recovery, actions[..n]);
      RunKeepsInv(before, actions[..n], n);
      trace := before + [Step(before[n], actions[n])];
      forall i | 0 <= i < |actions| ensures StepAt(trace, actions, i) {
        if i < n {
          assert StepAt(before, actions[..n], i);
        }
      }
    }
  }

  lemma StepPersists(trace: seq<System>, actions: seq<Action>, i: nat)
    requires IsRun(trace, actions) && i < |actions|
    ensures ObjectsPersist(trace[i], trace[i + 1])
  {
    RunKeepsInv(trace, actions, i);
    assert StepAt(trace, actions, i);
    NextState(trace, actions, i);
  }

  lemma {:induction false} RunPersists(trace: seq<System>, actions: seq<Action>, i: nat, j: nat)
    requires IsRun(trace, actions) && i <= j < |trace|
    ensures ObjectsPersist(trace[i], trace[j])
    decreases j
  {
    if i == j {
    } else {
      StepPersists(trace, actions, j - 1);
      RunPersists(trace, actions, i, j - 1);
      ObjectsPersistTransitively(trace[i], trace[j - 1], trace[j]);
    }
  }

  /** At most one receiver per subscription, in every state of every run. */
  lemma ReceiverCount(trace: seq<System>, actions: seq<Action>, i: nat, r: nat)
    requires IsRun(trace, actions) && i < |trace| && r < |trace[i].objs|
    ensures var n := |Receivers(trace[i], r)|;
            match trace[i].objs[r].state
            case Start => n == 0
            case ReceiverActive => n == 1
            case Terminating => n <= 1
  {
    RunKeepsInv(trace, actions, i);
    var s := trace[i];
    var open := Receivers(s, r);
    if c: nat :| IsOpenOn(s, c, r) {
      assert forall d | d in open :: d == c;
      assert c in open;
      assert open == {c};
    } else {
      assert open == {};
    }
  }

  /** GET attaches the one receiver exactly when the caller may use the subscription and it is in Start. */
  lemma GetAttachesIff(s: System, u: nat, user: Option<string>)
    requires Inv(s) && u in s.reg
    ensures var r, t := s.reg[u], Step(s, Get(u, user));
            if MayUse(s.objs[r], user, s.recovery) && s.objs[r].state == Start
            then t.objs[r].state == ReceiverActive && t.objs[r].timer == Off && Receivers(t, r) == {|s.conns|}
            else t == s
  {
    var r, t := s.reg[u], Step(s, Get(u, user));
    if MayUse(s.objs[r], user, s.recovery) && s.objs[r].state == Start {
      GetKeepsInv(s, u, user);
      assert IsOpenOn(t, |s.conns|, r);
      assert forall c | c in Receivers(t, r) :: c == |s.conns|;
      assert |s.conns| in Receivers(t, r);
    }
  }

  /** When the only receiver goes, a subscription that is not terminating waits for the next one, its timer armed. */
  lemma DisconnectFreesTheSubscription(s: System, c: nat)
    requires Inv(s) && c < |s.conns| && s.conns[c].phase == Open
    ensures var r, t := s.conns[c].sub, Step(s, OnClose(c));
            && Receivers(t, r) == {}
            && if s.objs[r].state == Terminating then t.objs[r] == s.objs[r]
               else t.objs[r].state == Start && t.objs[r].timer == Armed
  {
    var r, t := s.conns[c].sub, Step(s, OnClose(c));
    assert IsOpenOn(s, c, r);
    forall d: nat ensures !IsOpenOn(t, d, r) {
      assert IsOpenOn(t, d, r) ==> IsOpenOn(s, d, r);
      assert !IsOpenOn(t, c, r);
    }
  }

  /** After Server::stop whatever is registered or has a receiver is Terminating, with no timer armed. */
  lemma StopTerminatesAll(s: System, r: nat)
    requires Inv(s) && r < |s.objs|
    requires (exists u :: u in s.reg && s.reg[u] == r) || Receivers(s, r) != {}
    ensures var t := Step(s, ServerStop); t.objs[r].state == Terminating && t.objs[r].timer == Off
  {
    assert Sound(s.objs[r]);
    if c :| c in Receivers(s, r) {
      assert IsOpenOn(s, c, r);
    }
  }

  /** Terminating is never left; sysrepo's terminate is called at most once, whatever the order of events. */
  lemma TerminatingIsForEver(trace: seq<System>, actions: seq<Action>, i: nat, j: nat, r: nat)
    requires IsRun(trace, actions) && i <= j < |trace| && r < |trace[i].objs|
    ensures r < |trace[j].objs| && trace[j].objs[r].uuid == trace[i].objs[r].uuid
    ensures trace[i].objs[r].state == Terminating ==> trace[j].objs[r].state == Terminating
    ensures trace[i].objs[r].terminations <= trace[j].objs[r].terminations <= 1
    ensures r in trace[j].dead ==> trace[j].objs[r].state == Terminating && trace[j].objs[r].timer == Off
  {
    RunPersists(trace, actions, i, j);
    RunKeepsInv(trace, actions, j);
    assert Persists(trace[i].objs[r], trace[j].objs[r]);
    assert Sound(trace[j].objs[r]);
  }

  /** An armed inactivity timer means nobody is attached: only such subscriptions are reaped. */
  lemma TimerOnlyWithoutReceiver(trace: seq<System>, actions: seq<Action>, i: nat, r: nat)
    requires IsRun(trace, actions) && i < |trace| && r < |trace[i].objs|
    requires trace[i].objs[r].timer != Off
    ensures trace[i].objs[r].state == Start && Receivers(trace[i], r) == {} && r !in trace[i].dead
  {
    RunKeepsInv(trace, actions, i);
    assert Sound(trace[i].objs[r]);
  }

  /** In every reachable state both lookups find the same object, and the registry holds no destroyed one. */
  lemma RegistryAgrees(trace: seq<System>, actions: seq<Action>, i: nat, u: nat, user: Option<string>)
    requires IsRun(trace, actions) && i < |trace| && u in trace[i].reg
    ensures var s := trace[i];
            && RegistryLinks(s) && WellKeyed(Registered(s))
            && s.reg[u] !in s.dead
            && LookUpByUuid(Registered(s), u, user, s.recovery)
               == LookUpById(Registered(s), s.objs[s.reg[u]].id, user, s.recovery)
  {
    RunKeepsInv(trace, actions, i);
    LookupsAgree(Registered(trace[i]), u, user, trace[i].recovery);
  }

  /** The only ways for entry u to leave the registry. */
  predicate MayRemove(s: System, a: Action, u: nat)
    requires u in s.reg && s.reg[u] < |s.objs|
  {
    var sub := s.objs[s.reg[u]];
    match a
    case DeleteRpc(id, user, isKill, fails) => id == sub.id && !fails && MayDelete(sub, user, isKill, s.recovery)
    case TimerExpires(r) => r == s.reg[u] && sub.timer == Armed
    case DestroyRegistry => true
    case _ => false
  }

  lemma CollectKeepsRegistry(s: System, r: nat)
    ensures Collect(s, r).reg == s.reg
  {
  }

  lemma StepRemovesExactly(s: System, a: Action, u: nat)
    requires Inv(s) && u in s.reg
    ensures u !in Step(s, a).reg <==> MayRemove(s, a, u)
    ensures u in Step(s, a).reg ==> Step(s, a).reg[u] == s.reg[u]
  {
    match a
    case DeleteRpc(id, user, isKill, fails) => DeleteRemovesExactly(s, id, user, isKill, fails, u);
    case TimerExpires(q) => TimerRemovesExactly(s, q, u);
    case Release(c) =>
    case Establish(uuid, id, owner) =>
    case Get(uuid, user) =>
    case OnClose(c) =>
    case ServerStop =>
    case DestroyRegistry =>
  }

  lemma DeleteRemovesExactly(s: System, id: nat, user: Option<string>, isKill: bool, fails: bool, u: nat)
    requires Inv(s) && u in s.reg
    ensures var t := DeleteStep(s, id, user, isKill, fails);
            var sub := s.objs[s.reg[u]];
            && (u !in t.reg <==> id == sub.id && !fails && MayDelete(sub, user, isKill, s.recovery))
            && (u in t.reg ==> t.reg[u] == s.reg[u])
  {
    var es := Registered(s);
    assert HasId(es, u, s.objs[s.reg[u]].id);
    DeleteIffAuthorised(es, u, user, isKill, s.recovery);
    var o := Delete(es, id, user, isKill, s.recovery, fails);
    if o.Deleted? {
      CollectKeepsRegistry(s.(reg := s.reg - {o.uuid}), s.reg[o.uuid]);
    }
  }

  lemma TimerRemovesExactly(s: System, q: nat, u: nat)
    requires Inv(s) && u in s.reg
    ensures u !in TimerStep(s, q).reg <==> q == s.reg[u] && s.objs[q].timer == Armed
    ensures u in TimerStep(s, q).reg ==> TimerStep(s, q).reg[u] == s.reg[u]
  {
    if q < |s.objs| && q !in s.dead && s.objs[q].timer == Armed {
      LiveTimer(s, q);
      assert IsRegistered(s, s.reg[u]);
      assert s.objs[s.reg[u]].uuid == u;
    }
  }

  /**
  Authority over a whole run: an entry that is in the registry at one point and not at a later one was
  removed in between, by a delete of its owner, a kill of its owner or the recovery user, its own live
  inactivity timer, or the end of the registry itself.
  */
  lemma {:induction false} RemovalWasAuthorised(trace: seq<System>, actions: seq<Action>, i: nat, j: nat, u: nat)
    returns (k: nat)
    requires IsRun(trace, actions) && i <= j < |trace| && u in trace[i].reg && u !in trace[j].reg
    ensures i <= k < j && u in trace[k].reg && trace[k].reg[u] == trace[i].reg[u]
    ensures trace[k].reg[u] < |trace[k].objs| && MayRemove(trace[k], actions[k], u)
    decreases j - i
  {
    RunKeepsInv(trace, actions, i);
    assert StepAt(trace, actions, i);
    StepRemovesExactly(trace[i], actions[i], u);
    if u !in trace[i + 1].reg {
      k := i;
    } else {
      k := RemovalWasAuthorised(trace, actions, i + 1, j, u);
    }
  }

  // ----- objects live as long as somebody refers to them -----

  ghost predicate Lifetimes(s: System) {
    forall r | 0 <= r < |s.objs| :: r in s.dead <==> Unreferenced(s, r)
  }

  /** Nothing but `r` can have become unreferenced. */
  ghost predicate LifetimesBut(s: System, r: nat) {
    forall q | 0 <= q < |s.objs| && q != r :: q in s.dead <==> Unreferenced(s, q)
  }

  lemma UnreferencedLike(s: System, t: System, q: nat)
    requires s.reg == t.reg && s.conns == t.conns
    ensures Unreferenced(s, q) <==> Unreferenced(t, q)
  {
    assert forall c :: IsHeldBy(s, c, q) <==> IsHeldBy(t, c, q);
  }

  lemma CollectKeepsLifetimes(s: System, r: nat)
    requires Inv(s) && r < |s.objs| && LifetimesBut(s, r)
    ensures Lifetimes(Collect(s, r))
  {
    var t := Collect(s, r);
    forall q | 0 <= q < |t.objs| ensures q in t.dead <==> Unreferenced(t, q) {
      UnreferencedLike(s, t, q);
      if q == r && r in s.dead {
        DeadIsUnreferenced(s, r);
      }
    }
  }

  lemma DeadIsUnreferenced(s: System, r: nat)
    requires Linked(s) && r in s.dead
    ensures Unreferenced(s, r)
  {
  }

  lemma UnregisterKeepsOtherLifetimes(s: System, u: nat)
    requires Inv(s) && Lifetimes(s) && u in s.reg
    ensures LifetimesBut(s.(reg := s.reg - {u}), s.reg[u])
  {
    var t := s.(reg := s.reg - {u});
    forall q | 0 <= q < |t.objs| && q != s.reg[u] ensures q in t.dead <==> Unreferenced(t, q) {
      assert forall c :: IsHeldBy(s, c, q) <==> IsHeldBy(t, c, q);
      if Unreferenced(t, q) {
        assert forall v | v in s.reg :: v == u || v in t.reg;
      }
    }
  }

  lemma EstablishKeepsLifetimes(s: System, uuid: nat, id: nat, owner: string)
    requires Inv(s) && Lifetimes(s)
    ensures Lifetimes(EstablishStep(s, uuid, id, owner))
  {
    var t := EstablishStep(s, uuid, id, owner);
    if t != s {
      assert uuid !in s.reg;
      forall q | 0 <= q < |t.objs| ensures q in t.dead <==> Unreferenced(t, q) {
        assert forall c :: IsHeldBy(s, c, q) <==> IsHeldBy(t, c, q);
        if q < |s.objs| {
          assert forall u | u in s.reg :: u in t.reg && t.reg[u] == s.reg[u];
        } else {
          assert uuid in t.reg && t.reg[uuid] == q;
        }
      }
    }
  }

  lemma GetKeepsLifetimes(s: System, uuid: nat, user: Option<string>)
    requires Inv(s) && Lifetimes(s)
    ensures Lifetimes(GetStep(s, uuid, user))
  {
    var t := GetStep(s, uuid, user);
    if t != s {
      forall q | 0 <= q < |t.objs| ensures q in t.dead <==> Unreferenced(t, q) {
        assert forall c :: IsHeldBy(t, c, q) <==> IsHeldBy(s, c, q) || (c == |s.conns| && q == s.reg[uuid]);
      }
    }
  }

  lemma OnCloseKeepsLifetimes(s: System, c: nat)
    requires Inv(s) && Lifetimes(s)
    ensures Lifetimes(OnCloseStep(s, c))
  {
    var t := OnCloseStep(s, c);
    forall q | 0 <= q < |t.objs| ensures q in t.dead <==> Unreferenced(t, q) {
      assert forall d :: IsHeldBy(t, d, q) <==> IsHeldBy(s, d, q);
    }
  }

  lemma ReleaseKeepsLifetimes(s: System, c: nat)
    requires Inv(s) && Lifetimes(s)
    ensures Lifetimes(ReleaseStep(s, c))
  {
    if c < |s.conns| && s.conns[c].phase == Closed {
      var r := s.conns[c].sub;
      var t := s.(conns := s.conns[c := Conn(r, Released)]);
      assert forall d, q :: IsOpenOn(t, d, q) <==> IsOpenOn(s, d, q);
      forall q | 0 <= q < |t.objs| && q != r ensures q in t.dead <==> Unreferenced(t, q) {
        assert forall d :: IsHeldBy(t, d, q) <==> IsHeldBy(s, d, q);
      }
      CollectKeepsLifetimes(t, r);
    }
  }

  lemma UpdateKeepsLifetimes(s: System, r: nat, sub: Sub)
    requires Lifetimes(s) && r < |s.objs|
    ensures Lifetimes(s.(objs := s.objs[r := sub]))
  {
    var t := s.(objs := s.objs[r := sub]);
    forall q | 0 <= q < |t.objs| ensures q in t.dead <==> Unreferenced(t, q) {
      UnreferencedLike(s, t, q);
    }
  }

  lemma TimerKeepsLifetimes(s: System, r: nat)
    requires Inv(s) && Lifetimes(s)
    ensures Lifetimes(TimerStep(s, r))
  {
    if r < |s.objs| && r !in s.dead && s.objs[r].timer != Off {
      var t := s.(objs := s.objs[r := s.objs[r].(timer := Off)]);
      UpdateIdleKeepsInv(s, r, s.objs[r].(timer := Off));
      UpdateKeepsLifetimes(s, r, s.objs[r].(timer := Off));
      FindsItself(t, r);
      var found := FindById(Registered(t), t.objs[r].id);
      if s.objs[r].timer == Armed && found.Some? {
        var t' := t.(objs := t.objs[r := Terminated(t.objs[r])]);
        assert forall c :: IsOpenOn(t, c, r) <==> IsOpenOn(s, c, r);
        UpdateIdleKeepsInv(t, r, Terminated(t.objs[r]));
        UpdateKeepsLifetimes(t, r, Terminated(t.objs[r]));
        UnregisterKeepsInv(t', found.value);
        UnregisterKeepsOtherLifetimes(t', found.value);
        CollectKeepsLifetimes(t'.(reg := t'.reg - {found.value}), r);
      }
    }
  }

  lemma DeleteKeepsLifetimes(s: System, id: nat, user: Option<string>, isKill: bool, fails: bool)
    requires Inv(s) && Lifetimes(s)
    ensures Lifetimes(DeleteStep(s, id, user, isKill, fails))
  {
    var o := Delete(Registered(s), id, user, isKill, s.recovery, fails);
    if o.Deleted? {
      UnregisterKeepsInv(s, o.uuid);
      UnregisterKeepsOtherLifetimes(s, o.uuid);
      CollectKeepsLifetimes(s.(reg := s.reg - {o.uuid}), s.reg[o.uuid]);
    }
  }

  lemma ServerStopKeepsLifetimes(s: System)
    requires Lifetimes(s)
    ensures Lifetimes(ServerStopStep(s))
  {
    var t := ServerStopStep(s);
    forall q | 0 <= q < |t.objs| ensures q in t.dead <==> Unreferenced(t, q) {
      UnreferencedLike(s, t, q);
    }
  }

  lemma DestroyRegistryKeepsLifetimes(s: System)
    requires Inv(s) && Lifetimes(s)
    ensures Lifetimes(DestroyRegistryStep(s))
  {
    var t := DestroyRegistryStep(s);
    forall q | 0 <= q < |t.objs| ensures q in t.dead <==> Unreferenced(t, q) {
      assert forall c :: IsHeldBy(s, c, q) <==> IsHeldBy(t, c, q);
    }
  }

  lemma StepKeepsLifetimes(s: System, a: Action)
    requires Inv(s) && Lifetimes(s)
    ensures Lifetimes(Step(s, a))
  {
    match a
    case Establish(uuid, id, owner) => EstablishKeepsLifetimes(s, uuid, id, owner);
    case Get(uuid, user) => GetKeepsLifetimes(s, uuid, user);
    case OnClose(c) => OnCloseKeepsLifetimes(s, c);
    case Release(c) => ReleaseKeepsLifetimes(s, c);
    case TimerExpires(r) => TimerKeepsLifetimes(s, r);
    case DeleteRpc(id, user, isKill, fails) => DeleteKeepsLifetimes(s, id, user, isKill, fails);
    case ServerStop => ServerStopKeepsLifetimes(s);
    case DestroyRegistry => DestroyRegistryKeepsLifetimes(s);
  }

  /** In every state of every run the destroyed objects are exactly those that nothing refers to. */
  lemma {:induction false} DestroyedIffUnreferenced(trace: seq<System>, actions: seq<Action>, i: nat)
    requires IsRun(trace, actions) && i < |trace|
    ensures Lifetimes(trace[i])
    decreases i
  {
    if i == 0 {
    } else {
      DestroyedIffUnreferenced(trace, actions, i - 1);
      RunKeepsInv(trace, actions, i - 1);
      assert StepAt(trace, actions, i - 1);
      StepKeepsLifetimes(trace[i - 1], actions[i - 1]);
    }
  }

  // ----- when sysrepo's terminate is called -----

  /** The server is stopped while nobody receives from r. */
  ghost predicate StoppedIdle(s: System, a: Action, r: nat) {
    a == ServerStop && forall c: nat :: !IsOpenOn(s, c, r)
  }

  /** Entering Terminating calls sysrepo once, except by a stop without receiver; nothing else calls it. */
  predicate Counts(before: Sub, after: Sub, idle: bool) {
    after.terminations == before.terminations +
      if before.state != Terminating && after.state == Terminating && !idle then 1 else 0
  }

  lemma CollectCounts(s: System, r: nat, q: nat)
    requires q < |s.objs|
    ensures Counts(s.objs[q], Collect(s, r).objs[q], false)
  {
  }

  lemma CountsTwice(a: Sub, b: Sub, c: Sub)
    requires Counts(a, b, false) && Counts(b, c, false) && (a.state == Terminating ==> b.state == Terminating)
    requires b.state == Terminating ==> c.state == Terminating
    ensures Counts(a, c, false)
  {
  }

  lemma TimerCounts(s: System, q: nat, r: nat)
    requires Inv(s) && r < |s.objs|
    ensures Counts(s.objs[r], TimerStep(s, q).objs[r], false)
  {
    if q < |s.objs| && q !in s.dead && s.objs[q].timer == Armed {
      var t := s.(objs := s.objs[q := s.objs[q].(timer := Off)]);
      UpdateIdleKeepsInv(s, q, s.objs[q].(timer := Off));
      FindsItself(t, q);
      var found := FindById(Registered(t), t.objs[q].id);
      if found.Some? {
        var t' := t.(objs := t.objs[q := Terminated(t.objs[q])], reg := t.reg - {found.value});
        CollectCounts(t', q, r);
        CountsTwice(s.objs[r], t'.objs[r], Collect(t', q).objs[r]);
      }
    }
  }

  lemma DeleteCounts(s: System, id: nat, user: Option<string>, isKill: bool, fails: bool, r: nat)
    requires Inv(s) && r < |s.objs|
    ensures Counts(s.objs[r], DeleteStep(s, id, user, isKill, fails).objs[r], false)
  {
    var o := Delete(Registered(s), id, user, isKill, s.recovery, fails);
    if o.Deleted? {
      CollectCounts(s.(reg := s.reg - {o.uuid}), s.reg[o.uuid], r);
    }
  }

  lemma ServerStopCounts(s: System, r: nat)
    requires r < |s.objs|
    ensures Counts(s.objs[r], ServerStopStep(s).objs[r], StoppedIdle(s, ServerStop, r))
  {
  }

  lemma StepCounts(s: System, a: Action, r: nat)
    requires Inv(s) && r < |s.objs|
    ensures Counts(s.objs[r], Step(s, a).objs[r], StoppedIdle(s, a, r))
  {
    match a
    case Establish(uuid, id, owner) =>
    case Get(uuid, user) =>
    case OnClose(c) =>
    case Release(c) =>
    case TimerExpires(q) => TimerCounts(s, q, r);
    case DeleteRpc(id, user, isKill, fails) => DeleteCounts(s, id, user, isKill, fails, r);
    case ServerStop => ServerStopCounts(s, r);
    case DestroyRegistry =>
  }

  /** What ends a subscription: the shutdown, its own live timer, or the loss of the last reference. */
  lemma TerminatesIff(s: System, a: Action, r: nat)
    requires Inv(s) && Lifetimes(s) && r < |s.objs| && s.objs[r].state != Terminating
    ensures var t := Step(s, a);
            t.objs[r].state == Terminating <==>
              || (a == ServerStop && (IsRegistered(s, r) || exists c: nat :: IsOpenOn(s, c, r)))
              || (a == TimerExpires(r) && s.objs[r].timer == Armed && IsRegistered(s, r))
              || Unreferenced(t, r)
  {
    StepKeepsLifetimes(s, a);
    StepKeepsInv(s, a);
    assert r !in s.dead;
    TerminatesOrDies(s, a, r);
  }

  lemma TimerTerminatesOrDies(s: System, q: nat, r: nat)
    requires Inv(s) && r < |s.objs| && s.objs[r].state != Terminating && r !in s.dead
    ensures var t := Step(s, TimerExpires(q));
            t.objs[r].state == Terminating
            <==> (q == r && s.objs[r].timer == Armed && IsRegistered(s, r)) || r in t.dead
  {
    if q < |s.objs| && q !in s.dead && s.objs[q].timer == Armed {
      LiveTimer(s, q);
    }
  }

  lemma StopTerminates(s: System, r: nat)
    requires r < |s.objs| && s.objs[r].state != Terminating && r !in s.dead
    ensures var t := ServerStopStep(s);
            && r !in t.dead
            && (t.objs[r].state == Terminating <==> IsRegistered(s, r) || exists c: nat :: IsOpenOn(s, c, r))
  {
  }

  /** All other handlers end a subscription only by destroying it. */
  lemma OthersOnlyDestroy(s: System, a: Action, r: nat)
    requires Inv(s) && r < |s.objs| && s.objs[r].state != Terminating && r !in s.dead
    requires a != ServerStop && !a.TimerExpires?
    ensures var t := Step(s, a); t.objs[r].state == Terminating <==> r in t.dead
  {
    match a
    case Establish(uuid, id, owner) =>
    case Get(uuid, user) =>
    case OnClose(c) =>
    case Release(c) =>
      if c < |s.conns| && s.conns[c].phase == Closed {
        CollectDestroys(s.(conns := s.conns[c := Conn(s.conns[c].sub, Released)]), s.conns[c].sub, r);
      }
    case DeleteRpc(id, user, isKill, fails) => DeleteOnlyDestroys(s, id, user, isKill, fails, r);
    case DestroyRegistry =>
  }

  lemma CollectDestroys(s: System, q: nat, r: nat)
    requires r < |s.objs| && s.objs[r].state != Terminating && r !in s.dead
    ensures Collect(s, q).objs[r].state == Terminating <==> r in Collect(s, q).dead
  {
  }

  lemma DeleteOnlyDestroys(s: System, id: nat, user: Option<string>, isKill: bool, fails: bool, r: nat)
    requires Inv(s) && r < |s.objs| && s.objs[r].state != Terminating && r !in s.dead
    ensures var t := DeleteStep(s, id, user, isKill, fails); t.objs[r].state == Terminating <==> r in t.dead
  {
    var o := Delete(Registered(s), id, user, isKill, s.recovery, fails);
    if o.Deleted? {
      CollectDestroys(s.(reg := s.reg - {o.uuid}), s.reg[o.uuid], r);
    }
  }

  lemma TerminatesOrDies(s: System, a: Action, r: nat)
    requires Inv(s) && r < |s.objs| && s.objs[r].state != Terminating && r !in s.dead
    ensures var t := Step(s, a);
            t.objs[r].state == Terminating <==>
              || (a == ServerStop && (IsRegistered(s, r) || exists c: nat :: IsOpenOn(s, c, r)))
              || (a == TimerExpires(r) && s.objs[r].timer == Armed && IsRegistered(s, r))
              || r in t.dead
  {
    if a.TimerExpires? {
      TimerTerminatesOrDies(s, a.obj, r);
    } else if a == ServerStop {
      StopTerminates(s, r);
    } else {
      OthersOnlyDestroy(s, a, r);
    }
  }

  /** At step i object r enters Terminating, and not by a stop without receiver. */
  ghost predicate CalledAt(trace: seq<System>, actions: seq<Action>, i: nat, r: nat)
    requires |trace| == |actions| + 1
  {
    && i < |actions| && r < |trace[i].objs| && r < |trace[i + 1].objs|
    && trace[i].objs[r].state != Terminating && trace[i + 1].objs[r].state == Terminating
    && !StoppedIdle(trace[i], actions[i], r)
  }

  ghost predicate CalledBefore(trace: seq<System>, actions: seq<Action>, j: nat, r: nat)
    requires |trace| == |actions| + 1
  {
    exists i: nat :: i < j && CalledAt(trace, actions, i, r)
  }

  lemma CalledOneLater(trace: seq<System>, actions: seq<Action>, j: nat, r: nat)
    requires |trace| == |actions| + 1
    ensures CalledBefore(trace, actions, j + 1, r)
            <==> CalledBefore(trace, actions, j, r) || CalledAt(trace, actions, j, r)
  {
  }

  /**
  Over every run sysrepo's terminate has been called for a subscription, once, exactly if it entered
  Terminating in some way other than a server stop while nobody was receiving from it.
  */
  lemma {:induction false} TerminateWasCalledIff(trace: seq<System>, actions: seq<Action>, j: nat, r: nat)
    requires IsRun(trace, actions) && j < |trace| && r < |trace[j].objs|
    ensures trace[j].objs[r].terminations == if CalledBefore(trace, actions, j, r) then 1 else 0
    decreases j
  {
    if j == 0 {
    } else if r < |trace[j - 1].objs| {
      TerminateWasCalledIff(trace, actions, j - 1, r);
      RunCounts(trace, actions, j - 1, r);
      CalledOneLater(trace, actions, j - 1, r);
    } else {
      RunKeepsInv(trace, actions, j - 1);
      assert StepAt(trace, actions, j - 1);
      NewObject(trace[j - 1], actions[j - 1], r);
      NotBefore(trace, actions, j - 1, r);
    }
  }

  lemma RunCounts(trace: seq<System>, actions: seq<Action>, i: nat, r: nat)
    requires IsRun(trace, actions) && i < |actions| && r < |trace[i].objs|
    ensures r < |trace[i + 1].objs| && trace[i + 1].objs[r].terminations <= 1
    ensures trace[i + 1].objs[r].terminations ==
            trace[i].objs[r].terminations + if CalledAt(trace, actions, i, r) then 1 else 0
  {
    RunKeepsInv(trace, actions, i);
    assert StepAt(trace, actions, i);
    StepCounts(trace[i], actions[i], r);
    RunKeepsInv(trace, actions, i + 1);
    assert Sound(trace[i + 1].objs[r]);
  }

  lemma NewObject(s: System, a: Action, r: nat)
    requires Inv(s) && |s.objs| <= r < |Step(s, a).objs|
    ensures Step(s, a).objs[r].terminations == 0
  {
  }

  /** An object that does not exist yet has not been called for. */
  lemma NotBefore(trace: seq<System>, actions: seq<Action>, j: nat, r: nat)
    requires IsRun(trace, actions) && j < |actions| && |trace[j].objs| <= r
    ensures forall i: nat | i <= j :: !CalledAt(trace, actions, i, r)
  {
    forall i: nat | i <= j ensures |trace[i].objs| <= r {
      RunPersists(trace, actions, i, j);
    }
  }

  /** A new subscription: registered under its uuid, its owner's, waiting in Start with a timer that acts for nobody. */
  lemma EstablishedIs(s: System, uuid: nat, id: nat, owner: string)
    requires Inv(s)
    ensures var t, r := Step(s, Establish(uuid, id, owner)), |s.objs|;
            if exists q :: 0 <= q < |s.objs| && (s.objs[q].uuid == uuid || s.objs[q].id == id) then t == s
            else
              && |t.objs| == r + 1 && t.objs[..r] == s.objs && t.reg == s.reg[uuid := r]
              && t.objs[r].id == id && t.objs[r].uuid == uuid && t.objs[r].user == owner
              && t.objs[r].state == Start && t.objs[r].timer == ArmedForNobody && t.objs[r].terminations == 0
              && t.dead == s.dead && t.conns == s.conns
  {
  }

  // ----- what the inactivity timer needs -----

  /** The timer of the constructor holds an empty weak pointer: it expires and nothing else happens. */
  lemma FirstTimerReapsNothing(s: System, r: nat)
    requires Inv(s) && r < |s.objs| && s.objs[r].timer == ArmedForNobody
    ensures Step(s, TimerExpires(r)) == s.(objs := s.objs[r := s.objs[r].(timer := Off)])
  {
    assert Sound(s.objs[r]);
  }

  /** A live timer is armed by the end of a stream, unless the subscription is terminating, and by nothing else. */
  lemma ArmedByDisconnectOnly(s: System, a: Action, r: nat)
    requires Inv(s) && r < |s.objs| && s.objs[r].timer != Armed
    ensures Step(s, a).objs[r].timer == Armed
            <==> s.objs[r].state != Terminating && exists c :: a == OnClose(c) && IsOpenOn(s, c, r)
  {
    if a.TimerExpires? {
      TimerArmsNothing(s, a.obj, r);
    } else if a.DeleteRpc? {
      DeleteArmsNothing(s, a, r);
    }
  }

  lemma TimerArmsNothing(s: System, q: nat, r: nat)
    requires Inv(s) && r < |s.objs| && s.objs[r].timer != Armed
    ensures TimerStep(s, q).objs[r].timer != Armed
  {
    if q < |s.objs| && q !in s.dead && s.objs[q].timer == Armed {
      LiveTimer(s, q);
    }
  }

  lemma DeleteArmsNothing(s: System, a: Action, r: nat)
    requires Inv(s) && r < |s.objs| && s.objs[r].timer != Armed && a.DeleteRpc?
    ensures Step(s, a).objs[r].timer != Armed
  {
  }

  /** An object with which no stream ended during some part of a run does not have a live timer after it. */
  lemma {:induction false} NeverConnectedIsNeverReaped(
    trace: seq<System>, actions: seq<Action>, i: nat, j: nat, r: nat)
    requires IsRun(trace, actions) && i <= j < |trace| && r < |trace[i].objs| && trace[i].objs[r].timer != Armed
    requires forall k, c | i <= k < j && actions[k] == OnClose(c) :: !IsOpenOn(trace[k], c, r)
    ensures r < |trace[j].objs| && trace[j].objs[r].timer != Armed
    decreases j - i
  {
    if i == j {
    } else {
      RunKeepsInv(trace, actions, i);
      assert StepAt(trace, actions, i);
      ArmedByDisconnectOnly(trace[i], actions[i], r);
      NeverConnectedIsNeverReaped(trace, actions, i + 1, j, r);
    }
  }
}
