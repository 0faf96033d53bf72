/**
The GET handler of a subscription in two steps: isReadyToAcceptClient and, after that, clientConnected,
which does not look at the state again. In between, another thread may stop, terminate or disconnect the
subscription. Whether Terminating is left then depends on that order alone.
*/
module GetRace {
  import opened Subscriptions

  /** A subscription, and whether the GET handler has found it ready and not connected yet. */
  datatype Race = Race(sub: Sub, passed: bool)

  datatype Event = Check | Connect | Stop | Terminate | Disconnect

  function Step(r: Race, e: Event): Race {
    match e
    case Check => r.(passed := r.sub.state == Start)
    case Connect => if r.passed then Race(Connected(r.sub), false) else r
    case Stop => r.(sub := Stopped(r.sub))
    case Terminate => r.(sub := Terminated(r.sub))
    case Disconnect => r.(sub := Disconnected(r.sub))
  }

  function After(r: Race, events: seq<Event>): Race
    decreases |events|
  {
    if events == [] then r else Step(After(r, events[..|events| - 1]), events[|events| - 1])
  }

  lemma AfterSnoc(r: Race, events: seq<Event>, e: Event)
    ensures After(r, events + [e]) == Step(After(r, events), e)
  {
    assert (events + [e])[..|events|] == events;
  }

  /** The check at `c` was the last word of the GET handler, and it found the subscription in Start. */
  predicate Window(r: Race, events: seq<Event>, c: nat) {
    && c < |events| && events[c] == Check && After(r, events[..c]).sub.state == Start
    && forall k | c < k < |events| :: events[k] != Check && events[k] != Connect
  }

  predicate StopsAfter(events: seq<Event>, c: nat) {
    exists k | c < k < |events| :: events[k] == Stop || events[k] == Terminate
  }

  lemma WindowGrows(r: Race, events: seq<Event>, e: Event, c: nat)
    requires c < |events|
    ensures Window(r, events + [e], c) <==> Window(r, events, c) && e != Check && e != Connect
    ensures StopsAfter(events + [e], c) <==> StopsAfter(events, c) || e == Stop || e == Terminate
  {
    var more := events + [e];
    assert more[..c] == events[..c];
    assert more[|events|] == e;
    assert forall k | c < k < |events| :: more[k] == events[k];
  }

  lemma WindowOpens(r: Race, events: seq<Event>, e: Event)
    ensures Window(r, events + [e], |events|) <==> e == Check && After(r, events).sub.state == Start
  {
    assert (events + [e])[..|events|] == events;
  }

  /** The handler is about to connect exactly while such a check is its last word. */
  lemma {:induction false} PassedIffWindow(r: Race, events: seq<Event>)
    requires !r.passed
    ensures After(r, events).passed <==> exists c :: Window(r, events, c)
    decreases |events|
  {
    if events == [] {
    } else {
      var init, e := events[..|events| - 1], events[|events| - 1];
      assert events == init + [e];
      PassedIffWindow(r, init);
      AfterSnoc(r, init, e);
      WindowOpens(r, init, e);
      forall c: nat | c < |init| ensures Window(r, events, c) <==> Window(r, init, c) && e != Check && e != Connect {
        WindowGrows(r, init, e, c);
      }
      if e == Check {
        assert forall c: nat :: Window(r, events, c) ==> c == |init|;
      } else if exists c: nat :: Window(r, init, c) {
        var c: nat :| Window(r, init, c);
        assert Window(r, events, c) <==> e != Connect;
      }
    }
  }

  /** Since that check the subscription was left in Start, or stopped for good. */
  lemma {:induction false} StateInWindow(r: Race, events: seq<Event>, c: nat)
    requires Window(r, events, c)
    ensures After(r, events).sub.state == if StopsAfter(events, c) then Terminating else Start
    decreases |events|
  {
    var init, e := events[..|events| - 1], events[|events| - 1];
    assert events == init + [e];
    AfterSnoc(r, init, e);
    if c == |init| {
      WindowOpens(r, init, e);
    } else {
      WindowGrows(r, init, e, c);
      StateInWindow(r, init, c);
    }
  }

  /**
  Terminating is left by the next event if and only if that is a connect whose check found Start and a
  stop or termination fell between the two.
  */
  lemma LeavesTerminatingIff(r: Race, events: seq<Event>, e: Event)
    requires !r.passed
    ensures After(r, events).sub.state == Terminating && After(r, events + [e]).sub.state != Terminating
            <==> e == Connect && exists c :: Window(r, events, c) && StopsAfter(events, c)
  {
    AfterSnoc(r, events, e);
    PassedIffWindow(r, events);
    forall c: nat | Window(r, events, c)
      ensures StopsAfter(events, c) <==> After(r, events).sub.state == Terminating
    {
      StateInWindow(r, events, c);
    }
  }

  /** A connect that does not directly follow its check. */
  predicate LateConnect(events: seq<Event>, k: nat) {
    k < |events| && events[k] == Connect && (k == 0 || events[k - 1] != Check)
  }

  /** Check and connect are one handler, and nobody else runs. */
  ghost predicate Atomic(events: seq<Event>) {
    forall k: nat :: !LateConnect(events, k)
  }

  lemma AtomicBefore(events: seq<Event>, e: Event)
    requires Atomic(events + [e])
    ensures Atomic(events)
    ensures e == Connect ==> events != [] && events[|events| - 1] == Check
  {
    forall k: nat ensures !LateConnect(events, k) {
      assert !LateConnect(events + [e], k);
    }
    assert !LateConnect(events + [e], |events|);
  }

  /** Then Terminating, once entered, is never left. */
  lemma {:induction false} AtomicGetKeepsTerminating(r: Race, events: seq<Event>, i: nat)
    requires Atomic(events) && i <= |events| && After(r, events[..i]).sub.state == Terminating
    ensures After(r, events).sub.state == Terminating
    decreases |events|
  {
    if i == |events| {
      assert events[..i] == events;
    } else {
      var init, e := events[..|events| - 1], events[|events| - 1];
      assert events == init + [e] && init[..i] == events[..i];
      AtomicBefore(init, e);
      AtomicGetKeepsTerminating(r, init, i);
      AfterSnoc(r, init, e);
      if e == Connect {
        ConnectAfterCheck(r, init);
      }
    }
  }

  lemma ConnectAfterCheck(r: Race, events: seq<Event>)
    requires events != [] && events[|events| - 1] == Check && After(r, events).sub.state == Terminating
    ensures !After(r, events).passed
  {
  }

  /** Without that, it can be: any subscription in Start, one stop between check and connect. */
  lemma StopBetweenCheckAndConnect(sub: Sub)
    requires sub.state == Start
    ensures After(Race(sub, false), [Check, Stop]).sub.state == Terminating
    ensures After(Race(sub, false), [Check, Stop, Connect]).sub.state == ReceiverActive
  {
    var r := Race(sub, false);
    AfterSnoc(r, [], Check);
    AfterSnoc(r, [Check], Stop);
    AfterSnoc(r, [Check, Stop], Connect);
    assert [] + [Check] == [Check] && [Check] + [Stop] == [Check, Stop];
    assert [Check, Stop] + [Connect] == [Check, Stop, Connect];
  }
}
