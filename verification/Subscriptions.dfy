/**
Dynamic subscriptions: one subscription's state machine and timer, and the registry of them.

`Sub` is the value of a SubscriptionData object; the functions on it say what each of its methods
does. The classes are the imperative form. Uuids, ids and users come from outside (the uuid
generator, sysrepo, NACM).
*/
module Subscriptions {
  import opened Common
  import opened Accept

  datatype State = Start | ReceiverActive | Terminating

  /** The timer armed by the constructor holds an empty weak pointer: its expiry does nothing. */
  datatype Timer = Off | ArmedForNobody | Armed

  /** `terminations` counts the calls of sysrepo's terminate made by SubscriptionData::terminate. */
  datatype Sub = Sub(id: nat, uuid: nat, user: string, state: State, timer: Timer, terminations: nat)

  // ----- what the methods of SubscriptionData do -----

  function Created(id: nat, uuid: nat, user: string): Sub {
    Sub(id, uuid, user, Start, ArmedForNobody, 0)
  }

  function Connected(s: Sub): Sub {
    s.(timer := Off, state := ReceiverActive)
  }

  function Disconnected(s: Sub): Sub {
    if s.state == Terminating then s else s.(state := Start, timer := Armed)
  }

  function Terminated(s: Sub): Sub {
    if s.state == Terminating then s else s.(state := Terminating, terminations := s.terminations + 1)
  }

  function Stopped(s: Sub): Sub {
    s.(timer := Off, state := Terminating)
  }

  function Destroyed(s: Sub): Sub {
    Terminated(s.(timer := Off))
  }

  /** An armed timer means nobody is connected; sysrepo is asked to terminate at most once. */
  predicate Sound(s: Sub) {
    && (s.timer != Off ==> s.state == Start)
    && s.terminations <= 1
    && (s.terminations == 1 ==> s.state == Terminating)
  }

  /** The two ways to end a subscription: terminate() tells sysrepo, once; stop() does not. */
  lemma EndingDiffers(s: Sub)
    ensures var t := Terminated(s);
            && t.state == Terminating && t.timer == s.timer
            && t.terminations == s.terminations + if s.state == Terminating then 0 else 1
    ensures var t := Stopped(s); t.state == Terminating && t.timer == Off && t.terminations == s.terminations
  {
  }

  class SubscriptionData {
    const id: nat
    const uuid: nat
    const user: string
    var state: State
    var timer: Timer
    ghost var terminations: nat

    ghost function View(): Sub
      reads this
    {
      Sub(id, uuid, user, state, timer, terminations)
    }

    constructor (id: nat, uuid: nat, user: string)
      ensures View() == Created(id, uuid, user) && Sound(View())
      ensures this.id == id && this.uuid == uuid && this.user == user
      ensures state == Start && timer == ArmedForNobody && terminations == 0
    {
      this.id, this.uuid, this.user := id, uuid, user;
      state, terminations := Start, 0;
      timer := Off;
      new;
      InactivityStart(false);
    }

    /** inactivityStart(): `shared` says whether a shared_ptr to this object exists already. */
    method InactivityStart(shared: bool)
      modifies this`timer
      ensures timer == if state == Terminating then old(timer) else if shared then Armed else ArmedForNobody
    {
      if state == Terminating {
        return;
      }
      timer := if shared then Armed else ArmedForNobody;
    }

    method InactivityCancel()
      modifies this`timer
      ensures timer == Off
    {
      timer := Off;
    }

    method ClientDisconnected()
      modifies this
      ensures View() == Disconnected(old(View()))
      ensures if old(state) == Terminating then View() == old(View()) else state == Start && timer == Armed
      ensures old(Sound(View())) ==> Sound(View())
    {
      if state == Terminating {
        return;
      }
      state := Start;
      InactivityStart(true);
    }

    method ClientConnected()
      modifies this
      ensures View() == Connected(old(View()))
      ensures state == ReceiverActive && timer == Off
      ensures old(Sound(View())) && old(state) == Start ==> Sound(View())
    {
      InactivityCancel();
      state := ReceiverActive;
    }

    method IsReadyToAcceptClient() returns (ready: bool)
      ensures ready <==> state == Start
    {
      ready := state == Start;
    }

    method Terminate()
      modifies this
      ensures View() == Terminated(old(View()))
      ensures old(Sound(View())) && old(timer) == Off ==> Sound(View())
    {
      if state == Terminating {
        return;
      }
      state := Terminating;
      terminations := terminations + 1;
    }

    method Stop()
      modifies this
      ensures View() == Stopped(old(View()))
      ensures old(Sound(View())) ==> Sound(View())
    {
      InactivityCancel();
      state := Terminating;
    }

    /** ~SubscriptionData */
    method Destroy()
      modifies this
      ensures View() == Destroyed(old(View()))
      ensures state == Terminating && timer == Off
      ensures terminations == old(terminations) + if old(state) == Terminating then 0 else 1
      ensures old(Sound(View())) ==> Sound(View()) && state == Terminating
    {
      InactivityCancel();
      Terminate();
    }
  }

  // ----- what the registry answers -----

  type Entries = map<nat, Sub>

  /** Entries sit under their own uuid, and no two share an id. */
  predicate WellKeyed(es: Entries) {
    && (forall u | u in es :: es[u].uuid == u)
    && (forall u, v | u in es && v in es && es[u].id == es[v].id :: u == v)
  }

  /** Every entry as it is after its stop(). */
  function AllStopped(es: Entries): Entries {
    map u | u in es :: es[u].(timer := Off, state := Terminating)
  }

  lemma KeysOfStopped(es: Entries)
    requires WellKeyed(es)
    ensures WellKeyed(AllStopped(es))
  {
  }

  lemma KeysOfRest(es: Entries, u: nat)
    requires WellKeyed(es)
    ensures WellKeyed(es - {u})
  {
  }

  predicate HasId(es: Entries, u: nat, id: nat) {
    u in es && es[u].id == id
  }

  ghost function FindById(es: Entries, id: nat): (r: Option<nat>)
    ensures r.Some? ==> HasId(es, r.value, id)
    ensures r.None? ==> forall u :: !HasId(es, u, id)
  {
    if exists u :: HasId(es, u, id) then
      var u :| HasId(es, u, id);
      Some(u)
    else None
  }

  predicate MayUse(s: Sub, user: Option<string>, recovery: string) {
    user == Some(s.user) || user == Some(recovery)
  }

  ghost function LookUpByUuid(es: Entries, uuid: nat, user: Option<string>, recovery: string): Option<nat> {
    if uuid in es && MayUse(es[uuid], user, recovery) then Some(uuid) else None
  }

  ghost function LookUpById(es: Entries, id: nat, user: Option<string>, recovery: string): (r: Option<nat>)
    ensures r.Some? ==> HasId(es, r.value, id)
  {
    var found := FindById(es, id);
    if found.Some? && MayUse(es[found.value], user, recovery) then found else None
  }

  /** Both ways of looking up a subscription agree, for every user. */
  lemma LookupsAgree(es: Entries, u: nat, user: Option<string>, recovery: string)
    requires WellKeyed(es) && u in es
    ensures LookUpByUuid(es, u, user, recovery) == LookUpById(es, es[u].id, user, recovery)
  {
    assert HasId(es, u, es[u].id);
  }

  datatype DeleteOutcome = Deleted(uuid: nat) | NotFound | UseKillInstead | SysrepoFailed

  /** delete-subscription and kill-subscription; `fails` says whether sysrepo's terminate throws. */
  ghost function Delete(es: Entries, id: nat, user: Option<string>, isKill: bool, recovery: string, fails: bool)
    : (o: DeleteOutcome)
    ensures o.Deleted? ==> HasId(es, o.uuid, id)
  {
    var found := LookUpById(es, id, user, recovery);
    if found.None? then NotFound
    else if !isKill && user == Some(recovery) && es[found.value].user != recovery then UseKillInstead
    else if fails then SysrepoFailed
    else Deleted(found.value)
  }

  /** Whose request may remove the entry: the owner's, or a kill by the recovery user. */
  predicate MayDelete(s: Sub, user: Option<string>, isKill: bool, recovery: string) {
    user == Some(s.user) || (isKill && user == Some(recovery))
  }

  /** A delete removes the entry with that id exactly when the caller has the authority to. */
  lemma DeleteIffAuthorised(es: Entries, u: nat, user: Option<string>, isKill: bool, recovery: string)
    requires WellKeyed(es) && u in es
    ensures Delete(es, es[u].id, user, isKill, recovery, false) == Deleted(u)
            <==> MayDelete(es[u], user, isKill, recovery)
  {
    assert HasId(es, u, es[u].id);
  }

  /** The four outcomes of a delete, each with the condition under which it is the one. */
  lemma DeleteOutcomes(
    es: Entries, id: nat, user: Option<string>, isKill: bool, recovery: string, fails: bool, u: nat)
    requires WellKeyed(es)
    ensures var o := Delete(es, id, user, isKill, recovery, fails);
            && (o == Deleted(u) <==> HasId(es, u, id) && MayDelete(es[u], user, isKill, recovery) && !fails)
            && (o == SysrepoFailed <==>
                  fails && exists v :: HasId(es, v, id) && MayDelete(es[v], user, isKill, recovery))
            && (o == UseKillInstead <==>
                  !isKill && user == Some(recovery) && exists v :: HasId(es, v, id) && es[v].user != recovery)
            && (o == NotFound <==>
                  forall v :: HasId(es, v, id) ==> user != Some(es[v].user) && user != Some(recovery))
  {
    var found := FindById(es, id);
    if found.Some? {
      assert forall v :: HasId(es, v, id) ==> v == found.value;
    }
  }

  /** What the establish-subscription RPC gets: who is to be told the URI, and the leafs it looks at. */
  datatype EstablishInput = EstablishInput(
    schemeAndHost: Option<string>, encoding: Option<string>, stream: Option<string>, hasFilterName: bool)

  /** What the client is told: the id, the host part of the URI and, by the events, the format. */
  datatype Established = Established(id: nat, schemeAndHost: string, format: DataFormat)

  const ENCODE_JSON := "ietf-subscribed-notifications:encode-json"
  const ENCODE_XML := "ietf-subscribed-notifications:encode-xml"

  /** The format of the events: the request's own unless the input names one of the two identities. */
  predicate FormatIs(encoding: Option<string>, requested: DataFormat, format: DataFormat) {
    match encoding
    case None => format == requested
    case Some(e) => (e == ENCODE_JSON && format == Json) || (e == ENCODE_XML && format == Xml)
  }

  predicate Supported(encoding: Option<string>) {
    encoding.Some? ==> encoding.value == ENCODE_JSON || encoding.value == ENCODE_XML
  }

  class DynamicSubscriptions {
    const recovery: string
    var subscriptions: map<nat, SubscriptionData>

    ghost function View(): Entries
      reads this, subscriptions.Values
    {
      map u | u in subscriptions :: subscriptions[u].View()
    }

    ghost predicate Valid()
      reads this, subscriptions.Values
    {
      WellKeyed(View())
    }

    constructor (recovery: string)
      ensures Valid() && View() == map[] && this.recovery == recovery
    {
      this.recovery := recovery;
      subscriptions := map[];
    }

    method GetEncoding(encoding: Option<string>, requested: DataFormat) returns (r: Option<DataFormat>)
      ensures r.Some? <==> Supported(encoding)
      ensures r.Some? ==> FormatIs(encoding, requested, r.value)
    {
      if encoding.None? {
        return Some(requested);
      }
      if encoding.value == ENCODE_JSON {
        return Some(Json);
      }
      r := if encoding.value == ENCODE_XML then Some(Xml) else None;
    }

    /** establishSubscription; `subscribed` is the id that sysrepo gives, or nothing if it throws. */
    method EstablishSubscription(
      input: EstablishInput, requested: DataFormat, subscribed: Option<nat>, uuid: nat, user: string)
      returns (r: Result<Established, ErrorResponse>)
      requires Valid() && uuid !in subscriptions
      requires subscribed.Some? ==> forall u | u in subscriptions :: subscriptions[u].id != subscribed.value
      modifies this
      ensures r.Ok? <==>
              && input.schemeAndHost.Some? && Supported(input.encoding)
              && input.stream.Some? && !input.hasFilterName && subscribed.Some?
      ensures r.Ok? ==>
                && Some(r.value.id) == subscribed && Some(r.value.schemeAndHost) == input.schemeAndHost
                && FormatIs(input.encoding, requested, r.value.format)
                && View() == old(View())[uuid := Sub(r.value.id, uuid, user, Start, ArmedForNobody, 0)]
      ensures r.Err? ==>
                && r.error == ErrorResponse(
                                400, if input.schemeAndHost.None? then "invalid-value" else "invalid-attribute")
                && View() == old(View())
      ensures Valid()
    {
      if input.schemeAndHost.None? {
        return Err(ErrorResponse(400, "invalid-value"));
      }
      var format := GetEncoding(input.encoding, requested);
      if format.None? || input.stream.None? || input.hasFilterName || subscribed.None? {
        return Err(ErrorResponse(400, "invalid-attribute"));
      }
      Register(subscribed.value, uuid, user);
      r := Ok(Established(subscribed.value, input.schemeAndHost.value, format.value));
    }

    method Register(id: nat, uuid: nat, user: string)
      requires Valid() && uuid !in subscriptions && forall u | u in subscriptions :: subscriptions[u].id != id
      modifies this
      ensures View() == old(View())[uuid := Created(id, uuid, user)]
      ensures Valid()
    {
      var data := new SubscriptionData(id, uuid, user);
      subscriptions := subscriptions[uuid := data];
      assert forall u | u in old(subscriptions) :: subscriptions[u] == old(subscriptions[u]);
    }

    method GetByUuid(uuid: nat, user: Option<string>) returns (r: Option<SubscriptionData>)
      requires Valid()
      ensures r == match LookUpByUuid(View(), uuid, user, recovery)
                   case Some(u) => Some(subscriptions[u])
                   case None => None
    {
      if uuid in subscriptions && (user == Some(subscriptions[uuid].user) || user == Some(recovery)) {
        r := Some(subscriptions[uuid]);
      } else {
        r := None;
      }
    }

    /** std::find_if over the map: some entry with this id, if there is one. */
    method SearchById(id: nat) returns (r: Option<nat>)
      requires Valid()
      ensures r == FindById(View(), id)
    {
      var keys := subscriptions.Keys;
      while keys != {}
        invariant keys <= subscriptions.Keys
        invariant forall u | u in subscriptions && u !in keys :: subscriptions[u].id != id
        decreases |keys|
      {
        var u :| u in keys;
        if subscriptions[u].id == id {
          assert HasId(View(), u, id);
          return Some(u);
        }
        keys := keys - {u};
      }
      assert forall u :: !HasId(View(), u, id);
      r := None;
    }

    method GetById(id: nat, user: Option<string>) returns (r: Option<SubscriptionData>)
      requires Valid()
      ensures r == match LookUpById(View(), id, user, recovery)
                   case Some(u) => Some(subscriptions[u])
                   case None => None
    {
      var found := SearchById(id);
      if found.Some? && (user == Some(subscriptions[found.value].user) || user == Some(recovery)) {
        r := Some(subscriptions[found.value]);
      } else {
        r := None;
      }
    }

    /** deleteSubscription: the RPCs delete-subscription and kill-subscription. */
    method DeleteSubscription(id: nat, user: Option<string>, isKill: bool, fails: bool) returns (o: DeleteOutcome)
      requires Valid()
      modifies this
      ensures o == Delete(old(View()), id, user, isKill, recovery, fails)
      ensures View() == if o.Deleted? then old(View()) - {o.uuid} else old(View())
      ensures Valid()
    {
      var data := GetById(id, user);
      if data.None? {
        return NotFound;
      }
      if !isKill && user == Some(recovery) && data.value.user != recovery {
        return UseKillInstead;
      }
      if fails {
        return SysrepoFailed;
      }
      assert data.value.View().uuid == data.value.uuid;
      subscriptions := subscriptions - {data.value.uuid};
      o := Deleted(data.value.uuid);
    }

    /** terminateSubscription: what a live inactivity timer does when it expires. */
    method TerminateSubscription(id: nat)
      requires Valid()
      modifies this, subscriptions.Values
      ensures var found := FindById(old(View()), id);
              View() == if found.None? then old(View()) else old(View()) - {found.value}
      ensures var found := FindById(old(View()), id);
              found.Some? ==> old(subscriptions[found.value]).View() == Terminated(old(View())[found.value])
      ensures Valid()
    {
      var found := SearchById(id);
      if found.None? {
        return;
      }
      ghost var before := View();
      KeysOfRest(before, found.value);
      assert forall u | u in subscriptions :: before[u].uuid == subscriptions[u].uuid == u;
      TerminateEntry(found.value);
      assert View() == before - {found.value};
    }

    method TerminateEntry(uuid: nat)
      requires uuid in subscriptions && forall u | u in subscriptions :: subscriptions[u].uuid == u
      modifies this, subscriptions[uuid]
      ensures subscriptions == old(subscriptions) - {uuid}
      ensures old(subscriptions[uuid]).View() == Terminated(old(subscriptions[uuid].View()))
      ensures forall u | u in subscriptions :: subscriptions[u].View() == old(subscriptions[u].View())
    {
      subscriptions[uuid].Terminate();
      subscriptions := subscriptions - {uuid};
    }

    /** The loop of stop(); no subscription is registered twice. */
    method StopEach()
      requires forall u | u in subscriptions :: subscriptions[u].uuid == u
      modifies subscriptions.Values
      ensures forall u | u in subscriptions :: subscriptions[u].View() == Stopped(old(subscriptions[u].View()))
    {
      var keys := subscriptions.Keys;
      while keys != {}
        invariant keys <= subscriptions.Keys
        invariant forall u | u in subscriptions :: subscriptions[u].View() ==
                    if u in keys then old(subscriptions[u].View()) else Stopped(old(subscriptions[u].View()))
        decreases |keys|
      {
        var u :| u in keys;
        subscriptions[u].Stop();
        keys := keys - {u};
      }
    }

    /** stop(): every registered subscription, whatever it was doing, is Terminating with its timer off. */
    method Stop()
      requires Valid()
      modifies subscriptions.Values
      ensures View() == AllStopped(old(View()))
      ensures Valid()
    {
      ghost var before := View();
      KeysOfStopped(before);
      assert forall u | u in subscriptions :: before[u].uuid == subscriptions[u].uuid == u;
      StopEach();
      assert View() == AllStopped(before);
    }
  }
}
