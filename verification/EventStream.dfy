/**
Event delivery over one HTTP response.

`Stream` is the value of an EventStream object together with the part of the event loop that talks
to it: the handlers posted to the io_service, whether nghttp2 has put the output to sleep, and the
history of what was accepted and of every call made on, or answered to, the response object.
`Step` is one atomic step (every step of the source runs under the stream's mutex); a run is any
sequence of steps. The class `EventStream` is the imperative form, proved against `Step`.
*/
module EventStreams {
  import opened Common
  import opened EventSource

  datatype Phase = HasEvents | WaitingForEvents | WantToClose | Closed

  /** A handler posted to the io_service. One posted before the shared_ptr exists holds an empty weak pointer. */
  datatype Post = Dead | WakeForEvents | WakeForClose

  datatype Input = Event(text: string) | Ping

  /** What the response object sees, in order. */
  datatype Call = Posted | Resumed | Wrote(bytes: string) | WentToSleep | ReportedEof | WasClosed

  datatype Stream = Stream(
    phase: Phase, queue: seq<string>,
    shared: bool, deferred: bool, posts: multiset<Post>,
    accepted: seq<Input>, calls: seq<Call>,
    connected: bool, terminationCallbacks: nat, disconnectCallbacks: nat)

  datatype Action =
    | Enqueue(input: Input)
    | Process(len: nat)
    | Terminate
    | RunPost(post: Post)
    | Activate
    | OnClose

  function FieldName(i: Input): string {
    if i.Ping? then "" else "data"
  }

  function Payload(i: Input): string {
    if i.Ping? then "\n" else i.text
  }

  function FrameOf(i: Input): string {
    Frame(FieldName(i), Payload(i))
  }

  /** The bytes of all these inputs, one frame after the other. */
  function AllBytes(inputs: seq<Input>): string {
    if inputs == [] then "" else AllBytes(inputs[..|inputs| - 1]) + FrameOf(inputs[|inputs| - 1])
  }

  /** All bytes handed to nghttp2 so far. */
  function Delivered(calls: seq<Call>): string {
    if calls == [] then ""
    else
      var last := calls[|calls| - 1];
      Delivered(calls[..|calls| - 1]) + if last.Wrote? then last.bytes else ""
  }

  /** What remains of the queue once its first `n` bytes are gone. */
  function DropBytes(queue: seq<string>, n: nat): seq<string>
    decreases |queue|
  {
    if queue == [] then []
    else if n >= |queue[0]| then DropBytes(queue[1..], n - |queue[0]|)
    else [queue[0][n..]] + queue[1..]
  }

  // ----- the steps -----

  function Accept(s: Stream, i: Input): Stream {
    if s.phase == Closed || s.phase == WantToClose then s
    else s.(phase := HasEvents, queue := s.queue + [FrameOf(i)],
            posts := s.posts + multiset{if s.shared then WakeForEvents else Dead},
            accepted := s.accepted + [i], calls := s.calls + [Posted])
  }

  function SendChunk(s: Stream, len: nat): Stream {
    var n := Min(len, |Concat(s.queue)|);
    var queue := DropBytes(s.queue, n);
    s.(queue := queue, phase := if queue == [] then WaitingForEvents else HasEvents,
       calls := s.calls + [Wrote(Concat(s.queue)[..n])])
  }

  /** nghttp2 asks for up to `len` bytes; it cannot before activate() has installed the generator. */
  function ProcessStep(s: Stream, len: nat): Stream {
    if !s.shared then s
    else match s.phase
      case HasEvents => SendChunk(s.(deferred := false), len)
      case WaitingForEvents => s.(deferred := true, calls := s.calls + [WentToSleep])
      case WantToClose => s.(deferred := false, calls := s.calls + [ReportedEof])
      case Closed => s
  }

  /** The callback comes first, also when the slot finds the stream already closed. */
  function TerminateStep(s: Stream): Stream {
    var told := s.(terminationCallbacks := s.terminationCallbacks + 1);
    if s.phase == Closed then told
    else told.(phase := WantToClose,
               posts := s.posts + multiset{if s.shared then WakeForClose else Dead},
               calls := s.calls + [Posted])
  }

  function Resume(s: Stream): Stream {
    s.(deferred := false, calls := s.calls + [Resumed])
  }

  /** Whether this handler, run in this phase, touches the response. */
  predicate Resumes(phase: Phase, p: Post) {
    match p
    case Dead => false
    case WakeForEvents => phase != Closed
    case WakeForClose => phase == WantToClose
  }

  function RunPostStep(s: Stream, p: Post): Stream {
    if p !in s.posts then s
    else
      var s' := s.(posts := s.posts - multiset{p});
      if Resumes(s.phase, p) then Resume(s') else s'
  }

  function ActivateStep(s: Stream): Stream {
    s.(shared := true)
  }

  function OnCloseStep(s: Stream): Stream {
    if !s.shared || s.phase == Closed then s
    else s.(phase := Closed, calls := s.calls + [WasClosed],
            connected := false, disconnectCallbacks := s.disconnectCallbacks + 1)
  }

  function Step(s: Stream, a: Action): Stream {
    match a
    case Enqueue(i) => Accept(s, i)
    case Process(len) => ProcessStep(s, len)
    case Terminate => TerminateStep(s)
    case RunPost(p) => RunPostStep(s, p)
    case Activate => ActivateStep(s)
    case OnClose => OnCloseStep(s)
  }

  function Run(s: Stream, actions: seq<Action>): Stream
    decreases |actions|
  {
    if actions == [] then s else Run(Step(s, actions[0]), actions[1..])
  }

  function Initial(initialEvent: Option<string>): Stream {
    var s := Stream(WaitingForEvents, [], false, false, multiset{}, [], [], true, 0, 0);
    if initialEvent.Some? then Accept(s, Event(initialEvent.value)) else s
  }

  // ----- the invariant -----

  /** Bytes written and bytes queued are together the bytes accepted. */
  predicate Conserved(s: Stream) {
    Delivered(s.calls) + Concat(s.queue) == AllBytes(s.accepted)
  }

  predicate NonEmptyFrames(queue: seq<string>) {
    forall k | 0 <= k < |queue| :: queue[k] != ""
  }

  predicate QueueMatchesPhase(s: Stream) {
    && NonEmptyFrames(s.queue)
    && (s.phase == HasEvents ==> s.queue != [])
    && (s.phase == WaitingForEvents ==> s.queue == [])
  }

  /** Output that sleeps although there is something to do will be woken by a live handler. */
  predicate NoLostWakeup(s: Stream) {
    && (s.deferred ==> s.shared)
    && (WakeForClose in s.posts ==> s.phase == WantToClose || s.phase == Closed)
    && (s.deferred && s.phase == HasEvents ==> WakeForEvents in s.posts)
    && (s.deferred && s.phase == WantToClose ==> WakeForEvents in s.posts || WakeForClose in s.posts)
  }

  /**
  Closing is recorded once, and it is the last thing the response sees; the signals are disconnected and
  the owner has been told of the disconnection, once, exactly then.
  */
  predicate NothingAfterClose(s: Stream) {
    && (s.phase == Closed <==> !s.connected)
    && s.disconnectCallbacks == (if s.phase == Closed then 1 else 0)
    && (s.phase == Closed <==> s.calls != [] && s.calls[|s.calls| - 1] == WasClosed)
    && forall i | 0 <= i < |s.calls| - 1 :: s.calls[i] != WasClosed
  }

  predicate Inv(s: Stream) {
    Conserved(s) && QueueMatchesPhase(s) && NoLostWakeup(s) && NothingAfterClose(s)
  }

  lemma {:induction false} DropBytesIsSuffix(queue: seq<string>, n: nat)
    requires NonEmptyFrames(queue)
    requires n <= |Concat(queue)|
    ensures Concat(DropBytes(queue, n)) == Concat(queue)[n..]
    ensures NonEmptyFrames(DropBytes(queue, n))
    ensures DropBytes(queue, n) == [] <==> n == |Concat(queue)|
    decreases |queue|
  {
    if queue == [] {
    } else {
      if n >= |queue[0]| {
        DropBytesIsSuffix(queue[1..], n - |queue[0]|);
        assert Concat(queue)[n..] == Concat(queue[1..])[n - |queue[0]|..];
      } else {
        TrimmedFront(queue, n);
      }
    }
  }

  lemma TrimmedFront(queue: seq<string>, n: nat)
    requires queue != [] && n < |queue[0]|
    ensures Concat([queue[0][n..]] + queue[1..]) == Concat(queue)[n..]
  {
    assert ([queue[0][n..]] + queue[1..])[1..] == queue[1..];
  }

  lemma QuietCall(calls: seq<Call>, c: Call)
    requires !c.Wrote?
    ensures Delivered(calls + [c]) == Delivered(calls)
  {
    assert (calls + [c])[..|calls|] == calls;
  }

  lemma WrittenCall(calls: seq<Call>, bytes: string)
    ensures Delivered(calls + [Wrote(bytes)]) == Delivered(calls) + bytes
  {
    assert (calls + [Wrote(bytes)])[..|calls|] == calls;
  }

  lemma AllBytesSnoc(inputs: seq<Input>, i: Input)
    ensures AllBytes(inputs + [i]) == AllBytes(inputs) + FrameOf(i)
  {
    assert (inputs + [i])[..|inputs|] == inputs;
  }

  lemma FrameIsNotEmpty(i: Input)
    ensures FrameOf(i) != ""
  {
  }

  lemma AcceptConserves(s: Stream, i: Input)
    requires Conserved(s)
    ensures Conserved(Accept(s, i))
  {
    QuietCall(s.calls, Posted);
    ConcatSnoc(s.queue, FrameOf(i));
    AllBytesSnoc(s.accepted, i);
    Associative(Delivered(s.calls), Concat(s.queue), FrameOf(i));
  }

  lemma AcceptKeepsInv(s: Stream, i: Input)
    requires Inv(s)
    ensures Inv(Accept(s, i))
  {
    FrameIsNotEmpty(i);
    AcceptConserves(s, i);
    AcceptKeepsWakeups(s, i);
  }

  lemma AcceptKeepsWakeups(s: Stream, i: Input)
    requires NoLostWakeup(s) && NothingAfterClose(s)
    ensures NoLostWakeup(Accept(s, i)) && NothingAfterClose(Accept(s, i))
  {
  }

  lemma SendChunkConserves(s: Stream, len: nat)
    requires Conserved(s) && NonEmptyFrames(s.queue)
    ensures Conserved(SendChunk(s, len)) && QueueMatchesPhase(SendChunk(s, len))
  {
    var all := Concat(s.queue);
    var n := Min(len, |all|);
    DropBytesIsSuffix(s.queue, n);
    WrittenCall(s.calls, all[..n]);
    Associative(Delivered(s.calls), all[..n], all[n..]);
    assert all == all[..n] + all[n..];
  }

  lemma ProcessConserves(s: Stream, len: nat)
    requires Conserved(s) && QueueMatchesPhase(s)
    ensures Conserved(ProcessStep(s, len)) && QueueMatchesPhase(ProcessStep(s, len))
  {
    if s.phase == HasEvents {
      SendChunkConserves(s.(deferred := false), len);
    } else {
      QuietCall(s.calls, WentToSleep);
      QuietCall(s.calls, ReportedEof);
    }
  }

  lemma ProcessKeepsInv(s: Stream, len: nat)
    requires Inv(s)
    ensures Inv(ProcessStep(s, len))
  {
    ProcessConserves(s, len);
    ProcessKeepsWakeups(s, len);
  }

  lemma ProcessKeepsWakeups(s: Stream, len: nat)
    requires NoLostWakeup(s) && NothingAfterClose(s)
    ensures NoLostWakeup(ProcessStep(s, len)) && NothingAfterClose(ProcessStep(s, len))
  {
  }

  /** Conservation is about the queue, the accepted inputs and the bytes delivered, nothing else. */
  lemma ConservedLike(s: Stream, t: Stream)
    requires Conserved(s) && t.queue == s.queue && t.accepted == s.accepted && Delivered(t.calls) == Delivered(s.calls)
    ensures Conserved(t)
  {
  }

  lemma TerminateKeepsWakeups(s: Stream)
    requires NoLostWakeup(s) && NothingAfterClose(s)
    ensures NoLostWakeup(TerminateStep(s)) && NothingAfterClose(TerminateStep(s))
  {
  }

  lemma TerminateKeepsInv(s: Stream)
    requires Inv(s)
    ensures Inv(TerminateStep(s))
  {
    QuietCall(s.calls, Posted);
    ConservedLike(s, TerminateStep(s));
    TerminateKeepsWakeups(s);
  }

  /** Running a handler may wake the output; it moves no bytes. */
  lemma RunPostMovesNothing(s: Stream, p: Post)
    ensures var t := RunPostStep(s, p);
            && t.phase == s.phase && t.queue == s.queue && t.accepted == s.accepted && t.shared == s.shared
            && Delivered(t.calls) == Delivered(s.calls)
  {
    QuietCall(s.calls, Resumed);
  }

  lemma RunPostKeepsInv(s: Stream, p: Post)
    requires Inv(s)
    ensures Inv(RunPostStep(s, p))
  {
    RunPostMovesNothing(s, p);
    ConservedLike(s, RunPostStep(s, p));
    RunPostKeepsWakeups(s, p);
  }

  lemma RunPostKeepsWakeups(s: Stream, p: Post)
    requires NoLostWakeup(s) && NothingAfterClose(s)
    ensures NoLostWakeup(RunPostStep(s, p)) && NothingAfterClose(RunPostStep(s, p))
  {
  }

  lemma ActivateKeepsInv(s: Stream)
    requires Inv(s)
    ensures Inv(ActivateStep(s))
  {
  }

  lemma OnCloseKeepsInv(s: Stream)
    requires Inv(s)
    ensures Inv(OnCloseStep(s))
  {
    QuietCall(s.calls, WasClosed);
    ConservedLike(s, OnCloseStep(s));
  }

  lemma StepKeepsInv(s: Stream, a: Action)
    requires Inv(s)
    ensures Inv(Step(s, a))
  {
    match a
    case Enqueue(i) => AcceptKeepsInv(s, i);
    case Process(len) => ProcessKeepsInv(s, len);
    case Terminate => TerminateKeepsInv(s);
    case RunPost(p) => RunPostKeepsInv(s, p);
    case Activate => ActivateKeepsInv(s);
    case OnClose => OnCloseKeepsInv(s);
  }

  lemma InitialInv(initialEvent: Option<string>)
    ensures Inv(Initial(initialEvent))
  {
    if initialEvent.Some? {
      AcceptKeepsInv(Initial(None), Event(initialEvent.value));
    }
  }

  lemma {:induction false} RunKeepsInv(s: Stream, actions: seq<Action>)
    requires Inv(s)
    ensures Inv(Run(s, actions))
    decreases |actions|
  {
    if actions == [] {
    } else {
      StepKeepsInv(s, actions[0]);
      RunKeepsInv(Step(s, actions[0]), actions[1..]);
    }
  }

  // ----- theorems over every run -----

  /** Byte conservation, queue shape, no lost wakeup and silence after close, in every reachable state. */
  lemma EveryRunKeepsInv(initialEvent: Option<string>, actions: seq<Action>)
    ensures Inv(Run(Initial(initialEvent), actions))
  {
    InitialInv(initialEvent);
    RunKeepsInv(Initial(initialEvent), actions);
  }

  /** From `s` to `t` the response saw only posts, wakeups, EOF and the close. */
  predicate OnlyShutsDown(s: Stream, t: Stream) {
    && (t.phase == s.phase || t.phase == Closed)
    && t.queue == s.queue && t.accepted == s.accepted
    && s.calls <= t.calls
    && (forall k | |s.calls| <= k < |t.calls| :: t.calls[k] in {Posted, Resumed, ReportedEof, WasClosed})
    && (s.phase == Closed ==> t.calls == s.calls)
  }

  lemma {:induction false} QuietCallsDeliverNothing(a: seq<Call>, b: seq<Call>)
    requires a <= b && forall k | |a| <= k < |b| :: !b[k].Wrote?
    ensures Delivered(b) == Delivered(a)
    decreases |b|
  {
    if |a| < |b| {
      QuietCallsDeliverNothing(a, b[..|b| - 1]);
    } else {
      assert a == b;
    }
  }

  lemma StepOnlyShutsDown(s: Stream, a: Action)
    requires s.phase == WantToClose || s.phase == Closed
    ensures OnlyShutsDown(s, Step(s, a))
  {
  }

  /** Once termination was requested: not a byte more, only EOF is reported; after the close, nothing at all. */
  lemma {:induction false} NoBytesAfterTermination(s: Stream, actions: seq<Action>)
    requires s.phase == WantToClose || s.phase == Closed
    ensures OnlyShutsDown(s, Run(s, actions))
    ensures Delivered(Run(s, actions).calls) == Delivered(s.calls)
    decreases |actions|
  {
    if actions == [] {
    } else {
      var s' := Step(s, actions[0]);
      StepOnlyShutsDown(s, actions[0]);
      NoBytesAfterTermination(s', actions[1..]);
      QuietCallsDeliverNothing(s.calls, s'.calls);
    }
  }

  /** Every termination request reaches the owner's callback, in whatever state it finds the stream. */
  lemma {:induction false} EveryTerminationIsReported(s: Stream, actions: seq<Action>)
    ensures Run(s, actions).terminationCallbacks == s.terminationCallbacks + multiset(actions)[Terminate]
    decreases |actions|
  {
    if actions == [] {
    } else {
      assert actions == [actions[0]] + actions[1..];
      TerminationIsReported(s, actions[0]);
      EveryTerminationIsReported(Step(s, actions[0]), actions[1..]);
    }
  }

  lemma TerminationIsReported(s: Stream, a: Action)
    ensures Step(s, a).terminationCallbacks == s.terminationCallbacks + if a.Terminate? then 1 else 0
  {
  }

  /** The inputs enqueued before termination is requested or an activated stream is closed. */
  function Offered(actions: seq<Action>, shared: bool): seq<Input>
    decreases |actions|
  {
    if actions == [] then []
    else match actions[0]
      case Enqueue(i) => [i] + Offered(actions[1..], shared)
      case Terminate => []
      case Activate => Offered(actions[1..], true)
      case OnClose => if shared then [] else Offered(actions[1..], shared)
      case _ => Offered(actions[1..], shared)
  }

  predicate Live(s: Stream) {
    s.phase == HasEvents || s.phase == WaitingForEvents
  }

  /** Nothing offered in time is refused, and nothing is accepted afterwards. */
  lemma {:induction false} AcceptedIsWhatWasOffered(s: Stream, actions: seq<Action>)
    requires Live(s)
    ensures Run(s, actions).accepted == s.accepted + Offered(actions, s.shared)
    decreases |actions|
  {
    if actions == [] {
    } else {
      var a, t, rest := actions[0], Step(s, actions[0]), actions[1..];
      if Live(t) {
        AcceptedIsWhatWasOffered(t, rest);
        StepOffers(s, a, rest);
      } else {
        NoBytesAfterTermination(t, rest);
        StepEndsOffers(s, a, rest);
      }
    }
  }

  lemma OfferedCons(a: Action, rest: seq<Action>, shared: bool)
    ensures Offered([a] + rest, shared) ==
            if a.Enqueue? then [a.input] + Offered(rest, shared)
            else if a.Terminate? || (a.OnClose? && shared) then []
            else Offered(rest, shared || a.Activate?)
  {
    assert ([a] + rest)[1..] == rest;
  }

  /** What one step does to the accepted inputs and to who can still be heard. */
  lemma StepAccepts(s: Stream, a: Action)
    requires Live(s)
    ensures Step(s, a).accepted == if a.Enqueue? then s.accepted + [a.input] else s.accepted
    ensures Step(s, a).shared == (s.shared || a.Activate?)
    ensures Live(Step(s, a)) <==> !(a.Terminate? || (a.OnClose? && s.shared))
  {
  }

  lemma StepOffers(s: Stream, a: Action, rest: seq<Action>)
    requires Live(s) && Live(Step(s, a))
    ensures Step(s, a).accepted + Offered(rest, Step(s, a).shared) == s.accepted + Offered([a] + rest, s.shared)
  {
    StepAccepts(s, a);
    OfferedCons(a, rest, s.shared);
    if a.Enqueue? {
      Associative(s.accepted, [a.input], Offered(rest, s.shared));
    }
  }

  lemma StepEndsOffers(s: Stream, a: Action, rest: seq<Action>)
    requires Live(s) && !Live(Step(s, a))
    ensures Step(s, a).accepted == s.accepted + Offered([a] + rest, s.shared)
  {
    StepAccepts(s, a);
    OfferedCons(a, rest, s.shared);
  }

  /** What was queued before anything else could happen. */
  function InitialInputs(initialEvent: Option<string>): seq<Input> {
    match initialEvent
    case None => []
    case Some(text) => [Event(text)]
  }

  /** Everything a stream is given in time: its initial event, then what was enqueued. */
  function OfferedTo(initialEvent: Option<string>, actions: seq<Action>): seq<Input> {
    InitialInputs(initialEvent) + Offered(actions, false)
  }

  /** Over every run the accepted inputs are the initial event and what was offered in time. */
  lemma AcceptedInEveryRun(initialEvent: Option<string>, actions: seq<Action>)
    ensures Run(Initial(initialEvent), actions).accepted == OfferedTo(initialEvent, actions)
  {
    AcceptedIsWhatWasOffered(Initial(initialEvent), actions);
  }

  // ----- what the history says about the state -----

  lemma {:induction false} RunSnoc(s: Stream, actions: seq<Action>, a: Action)
    ensures Run(s, actions + [a]) == Step(Run(s, actions), a)
    decreases |actions|
  {
    if actions == [] {
      assert [] + [a] == [a] && [a][1..] == [];
    } else {
      assert (actions + [a])[1..] == actions[1..] + [a];
      RunSnoc(Step(s, actions[0]), actions[1..], a);
    }
  }

  /** The response was closed after the stream had been activated. */
  predicate WasClosedBy(actions: seq<Action>) {
    exists i, j | 0 <= i < j < |actions| :: actions[i] == Activate && actions[j] == OnClose
  }

  /** The phase, and how often the owner's callbacks were called, as the history determines them. */
  predicate FollowsHistory(s: Stream, actions: seq<Action>) {
    && (s.shared <==> Activate in actions)
    && (s.phase == Closed <==> WasClosedBy(actions))
    && (s.phase == WantToClose <==> !WasClosedBy(actions) && Terminate in actions)
    && s.terminationCallbacks == multiset(actions)[Terminate]
  }

  lemma ClosedSnoc(actions: seq<Action>, a: Action)
    ensures WasClosedBy(actions + [a]) <==> WasClosedBy(actions) || (a == OnClose && Activate in actions)
  {
    var more := actions + [a];
    if WasClosedBy(actions) {
      var i, j :| 0 <= i < j < |actions| && actions[i] == Activate && actions[j] == OnClose;
      assert more[i] == Activate && more[j] == OnClose;
    } else if a == OnClose && Activate in actions {
      var i :| 0 <= i < |actions| && actions[i] == Activate;
      assert more[i] == Activate && more[|actions|] == OnClose;
    }
  }

  lemma StepFollowsHistory(s: Stream, actions: seq<Action>, a: Action)
    requires FollowsHistory(s, actions)
    ensures FollowsHistory(Step(s, a), actions + [a])
  {
    ClosedSnoc(actions, a);
    TerminationIsReported(s, a);
    StepPhase(s, a);
    assert multiset(actions + [a]) == multiset(actions) + multiset{a};
  }

  lemma StepPhase(s: Stream, a: Action)
    ensures Step(s, a).shared == (s.shared || a.Activate?)
    ensures Step(s, a).phase == Closed <==> s.phase == Closed || (a.OnClose? && s.shared)
    ensures Step(s, a).phase == WantToClose
            <==> s.phase != Closed && !(a.OnClose? && s.shared) && (s.phase == WantToClose || a.Terminate?)
  {
  }

  /** In every run: closed, closing or live, and the callbacks, exactly as the sequence of actions says. */
  lemma {:induction false} EveryRunFollowsHistory(initialEvent: Option<string>, actions: seq<Action>)
    ensures FollowsHistory(Run(Initial(initialEvent), actions), actions)
    decreases |actions|
  {
    if actions == [] {
    } else {
      var init, a := actions[..|actions| - 1], actions[|actions| - 1];
      EveryRunFollowsHistory(initialEvent, init);
      SplitLast(actions);
      RunSnoc(Initial(initialEvent), init, a);
      StepFollowsHistory(Run(Initial(initialEvent), init), init, a);
    }
  }

  /** The last answer given to nghttp2 was to wait, and nobody has resumed it since. */
  predicate Asleep(calls: seq<Call>) {
    calls != [] &&
    match calls[|calls| - 1]
    case WentToSleep => true
    case Posted | WasClosed => Asleep(calls[..|calls| - 1])
    case Resumed | Wrote(_) | ReportedEof => false
  }

  /** Whether output sleeps is what the calls say; before activation no posted handler can act. */
  predicate Recorded(s: Stream) {
    && (s.deferred <==> Asleep(s.calls))
    && (!s.shared ==> WakeForEvents !in s.posts && WakeForClose !in s.posts)
  }

  lemma AsleepSnoc(calls: seq<Call>, c: Call)
    ensures Asleep(calls + [c]) <==> c == WentToSleep || ((c == Posted || c == WasClosed) && Asleep(calls))
  {
    assert (calls + [c])[..|calls|] == calls;
  }

  lemma AcceptIsRecorded(s: Stream, i: Input)
    requires Recorded(s)
    ensures Recorded(Accept(s, i))
  {
    AsleepSnoc(s.calls, Posted);
  }

  lemma TerminateIsRecorded(s: Stream)
    requires Recorded(s)
    ensures Recorded(TerminateStep(s))
  {
    AsleepSnoc(s.calls, Posted);
  }

  lemma PostIsRecorded(s: Stream, p: Post)
    requires Recorded(s)
    ensures Recorded(RunPostStep(s, p))
  {
    AsleepSnoc(s.calls, Resumed);
  }

  lemma StepIsRecorded(s: Stream, a: Action)
    requires Recorded(s)
    ensures Recorded(Step(s, a))
  {
    match a
    case Enqueue(i) => AcceptIsRecorded(s, i);
    case Process(len) => ReadIsRecorded(s, len);
    case Terminate => TerminateIsRecorded(s);
    case RunPost(p) => PostIsRecorded(s, p);
    case Activate =>
    case OnClose => AsleepSnoc(s.calls, WasClosed);
  }

  lemma ReadIsRecorded(s: Stream, len: nat)
    requires Recorded(s)
    ensures Recorded(ProcessStep(s, len))
  {
    match s.phase
    case HasEvents => AsleepSnoc(s.calls, Wrote(Concat(s.queue)[..Min(len, |Concat(s.queue)|)]));
    case WaitingForEvents => AsleepSnoc(s.calls, WentToSleep);
    case WantToClose => AsleepSnoc(s.calls, ReportedEof);
    case Closed =>
  }

  lemma {:induction false} RunIsRecorded(s: Stream, actions: seq<Action>)
    requires Recorded(s)
    ensures Recorded(Run(s, actions))
    decreases |actions|
  {
    if actions == [] {
    } else {
      StepIsRecorded(s, actions[0]);
      RunIsRecorded(Step(s, actions[0]), actions[1..]);
    }
  }

  /** In every run output is deferred exactly when the response was told to wait and not resumed since. */
  lemma EveryRunIsRecorded(initialEvent: Option<string>, actions: seq<Action>)
    ensures Recorded(Run(Initial(initialEvent), actions))
  {
    if initialEvent.Some? {
      StepIsRecorded(Initial(None), Enqueue(Event(initialEvent.value)));
    }
    RunIsRecorded(Initial(initialEvent), actions);
  }

  lemma CountSnoc(calls: seq<Call>, c: Call)
    ensures multiset(calls + [c])[Posted] == multiset(calls)[Posted] + if c == Posted then 1 else 0
  {
    assert multiset(calls + [c]) == multiset(calls) + multiset{c};
  }

  predicate PostsOne(s: Stream, t: Stream, added: nat, ran: nat) {
    && multiset(t.calls)[Posted] == multiset(s.calls)[Posted] + added
    && |t.posts| + ran == |s.posts| + added
  }

  lemma ReadPostsNothing(s: Stream, len: nat)
    ensures PostsOne(s, ProcessStep(s, len), 0, 0)
  {
    match s.phase
    case HasEvents => CountSnoc(s.calls, Wrote(Concat(s.queue)[..Min(len, |Concat(s.queue)|)]));
    case WaitingForEvents => CountSnoc(s.calls, WentToSleep);
    case WantToClose => CountSnoc(s.calls, ReportedEof);
    case Closed =>
  }

  lemma RunPostUsesUp(s: Stream, p: Post)
    ensures PostsOne(s, RunPostStep(s, p), 0, if p in s.posts then 1 else 0)
  {
    CountSnoc(s.calls, Resumed);
  }

  lemma AcceptPostsOne(s: Stream, i: Input)
    ensures PostsOne(s, Accept(s, i), if Live(s) then 1 else 0, 0)
  {
    CountSnoc(s.calls, Posted);
  }

  lemma TerminatePostsOne(s: Stream)
    ensures PostsOne(s, TerminateStep(s), if s.phase != Closed then 1 else 0, 0)
  {
    CountSnoc(s.calls, Posted);
  }

  /** Every accepted input and every termination heard posts one handler; running one uses it up. */
  lemma OnePostEach(s: Stream, a: Action)
    ensures PostsOne(s, Step(s, a),
                     if (a.Enqueue? && Live(s)) || (a.Terminate? && s.phase != Closed) then 1 else 0,
                     if a.RunPost? && a.post in s.posts then 1 else 0)
  {
    match a
    case Enqueue(i) => AcceptPostsOne(s, i);
    case Process(len) => ReadPostsNothing(s, len);
    case Terminate => TerminatePostsOne(s);
    case RunPost(p) => RunPostUsesUp(s, p);
    case Activate =>
    case OnClose => CountSnoc(s.calls, WasClosed);
  }

  /** Every read of an open response is answered once: with the first pending bytes, to wait, or with EOF. */
  lemma EveryReadIsAnswered(s: Stream, len: nat)
    requires QueueMatchesPhase(s) && s.shared && s.phase != Closed
    ensures var pending := Concat(s.queue);
            Step(s, Process(len)).calls == s.calls + [
              if s.phase == WantToClose then ReportedEof
              else if pending == "" then WentToSleep
              else Wrote(pending[..Min(len, |pending|)])]
  {
    QueueEmptyIffNoBytes(s);
  }

  /** A live stream that is asked to terminate: its wakeup is posted, and the read after that one gets EOF. */
  lemma TerminationLeadsToEof(s: Stream, len: nat)
    requires Live(s) && s.shared
    ensures var t := Step(s, Terminate);
            && WakeForClose in t.posts
            && Step(Step(t, RunPost(WakeForClose)), Process(len)).calls == s.calls + [Posted, Resumed, ReportedEof]
  {
    assert s.calls + [Posted] + [Resumed] + [ReportedEof] == s.calls + [Posted, Resumed, ReportedEof];
  }

  /** A sleeping output with events has its wakeup posted; once that has run, the next read moves bytes. */
  lemma WakeupLeadsToDelivery(s: Stream, len: nat)
    requires Inv(s) && s.deferred && s.phase == HasEvents
    ensures WakeForEvents in s.posts
    ensures var t := ProcessStep(RunPostStep(s, WakeForEvents), len);
            && !t.deferred
            && Delivered(t.calls) == Delivered(s.calls) + Concat(s.queue)[..Min(len, |Concat(s.queue)|)]
  {
    var r := RunPostStep(s, WakeForEvents);
    RunPostKeepsInv(s, WakeForEvents);
    QuietCall(s.calls, Resumed);
    OneRead(r, len);
  }

  function Repeat(a: Action, n: nat): seq<Action> {
    seq(n, _ => a)
  }

  /** One read: the first min(len, pending) bytes move from the queue to the reader. */
  lemma OneRead(s: Stream, len: nat)
    requires Conserved(s) && QueueMatchesPhase(s) && s.shared && (s.phase == HasEvents || s.phase == WaitingForEvents)
    ensures var t := ProcessStep(s, len);
            var pending := Concat(s.queue);
            var m := Min(len, |pending|);
            && Concat(t.queue) == pending[m..]
            && Delivered(t.calls) == Delivered(s.calls) + pending[..m]
            && t.shared && (t.phase == HasEvents || t.phase == WaitingForEvents)
  {
    var pending := Concat(s.queue);
    var m := Min(len, |pending|);
    if s.phase == HasEvents {
      WrittenCall(s.calls, pending[..m]);
      DropBytesIsSuffix(s.queue, m);
    } else {
      QuietCall(s.calls, WentToSleep);
    }
  }

  lemma RunRepeated(s: Stream, len: nat, n: nat)
    requires n > 0
    ensures Run(s, Repeat(Process(len), n)) == Run(ProcessStep(s, len), Repeat(Process(len), n - 1))
  {
    var acts := Repeat(Process(len), n);
    assert acts[0] == Process(len) && acts[1..] == Repeat(Process(len), n - 1);
  }

  /** The stream after it was asked for `asked` bytes: that many of the pending ones have moved. */
  predicate Drained(s: Stream, t: Stream, asked: nat) {
    var pending := Concat(s.queue);
    var m := Min(asked, |pending|);
    && Concat(t.queue) == pending[m..] && Delivered(t.calls) == Delivered(s.calls) + pending[..m]
    && QueueMatchesPhase(t) && (t.phase == HasEvents || t.phase == WaitingForEvents)
  }

  lemma DrainedTwice(s: Stream, t: Stream, u: Stream, a: nat, b: nat)
    requires Drained(s, t, a) && Drained(t, u, b)
    ensures Drained(s, u, a + b)
  {
    TakeTwice(Delivered(s.calls), Concat(s.queue), a, a + b);
  }

  predicate Readable(s: Stream) {
    && Conserved(s) && QueueMatchesPhase(s) && s.shared
    && (s.phase == HasEvents || s.phase == WaitingForEvents)
  }

  /** The first of several reads, and the stream it leaves. */
  lemma FirstRead(s: Stream, len: nat, n: nat) returns (t: Stream)
    requires Readable(s) && n > 0
    ensures Readable(t) && Drained(s, t, len)
    ensures Run(s, Repeat(Process(len), n)) == Run(t, Repeat(Process(len), n - 1))
  {
    t := ProcessStep(s, len);
    OneRead(s, len);
    ProcessConserves(s, len);
    RunRepeated(s, len, n);
  }

  function Asked(len: nat, n: nat): nat {
    if n == 0 then 0 else len + Asked(len, n - 1)
  }

  lemma {:induction false} AskedIs(len: nat, n: nat)
    ensures Asked(len, n) == n * len
  {
    if n == 0 {
    } else {
      AskedIs(len, n - 1);
      assert n * len == len + (n - 1) * len;
    }
  }

  lemma NothingAsked(s: Stream, len: nat)
    requires Readable(s)
    ensures Drained(s, Run(s, Repeat(Process(len), 0)), 0)
  {
    assert Repeat(Process(len), 0) == [];
    assert Delivered(s.calls) + "" == Delivered(s.calls);
  }

  lemma {:induction false} DrainBy(s: Stream, len: nat, n: nat)
    requires Readable(s)
    ensures Drained(s, Run(s, Repeat(Process(len), n)), Asked(len, n))
    decreases n
  {
    if n == 0 {
      NothingAsked(s, len);
    } else {
      var t := FirstRead(s, len, n);
      DrainBy(t, len, n - 1);
      DrainedTwice(s, t, Run(t, Repeat(Process(len), n - 1)), len, Asked(len, n - 1));
    }
  }

  /** `n` reads of `len` bytes move exactly the first min(n * len, pending) bytes. */
  lemma Drain(s: Stream, len: nat, n: nat)
    requires Conserved(s) && QueueMatchesPhase(s) && s.shared && (s.phase == HasEvents || s.phase == WaitingForEvents)
    ensures Drained(s, Run(s, Repeat(Process(len), n)), n * len)
  {
    AskedIs(len, n);
    DrainBy(s, len, n);
  }

  lemma TakeTwice(done: string, pending: string, len: nat, asked: nat)
    requires asked >= len
    ensures var m := Min(len, |pending|);
            var rest := pending[m..];
            var r := Min(asked - len, |rest|);
            var all := Min(asked, |pending|);
            rest[r..] == pending[all..] && done + pending[..m] + rest[..r] == done + pending[..all]
  {
    var m := Min(len, |pending|);
    var r := Min(asked - len, |pending[m..]|);
    assert Min(asked, |pending|) == m + r;
    assert pending[..m] + pending[m..][..r] == pending[..m + r];
    Associative(done, pending[..m], pending[m..][..r]);
  }

  /** How many reads of `len` bytes it takes to get `p` bytes. */
  function ReadsNeeded(p: nat, len: nat): nat
    requires len > 0
  {
    (p + len - 1) / len
  }

  lemma DrainedIffEnoughAsked(s: Stream, len: nat, n: nat, asked: nat)
    requires Conserved(s) && QueueMatchesPhase(s) && s.shared && s.phase == HasEvents && asked == n * len
    ensures Run(s, Repeat(Process(len), n)).phase == WaitingForEvents <==> asked >= |Concat(s.queue)|
  {
    Drain(s, len, n);
    QueueEmptyIffNoBytes(Run(s, Repeat(Process(len), n)));
    NothingLeftIff(Concat(s.queue), n * len);
  }

  /** The pending bytes are gone after ceil(pending / len) reads, and not before. */
  lemma DrainsInCeilingManyReads(s: Stream, len: nat, n: nat)
    requires Conserved(s) && QueueMatchesPhase(s) && s.shared && s.phase == HasEvents && len > 0
    ensures Run(s, Repeat(Process(len), n)).phase == WaitingForEvents <==> n >= ReadsNeeded(|Concat(s.queue)|, len)
  {
    var asked := CeilingBound(|Concat(s.queue)|, len, n);
    DrainedIffEnoughAsked(s, len, n, asked);
  }

  lemma NothingLeftIff(pending: string, k: nat)
    ensures pending[Min(k, |pending|)..] == "" <==> k >= |pending|
  {
  }

  lemma QueueEmptyIffNoBytes(s: Stream)
    requires QueueMatchesPhase(s)
    ensures s.queue == [] <==> Concat(s.queue) == ""
  {
    if s.queue != [] {
      assert s.queue[0] in s.queue;
    }
  }

  lemma MoreTimesIsMore(a: nat, b: nat, len: nat)
    requires a <= b
    ensures a * len <= b * len
  {
    assert b * len == a * len + (b - a) * len;
  }

  lemma QuotientBounds(x: nat, len: nat)
    requires len > 0
    ensures x / len * len <= x < (x / len + 1) * len
  {
  }

  lemma CeilingBound(p: nat, len: nat, n: nat) returns (asked: nat)
    requires len > 0
    ensures asked == n * len
    ensures asked >= p <==> n >= ReadsNeeded(p, len)
  {
    asked := n * len;
    var q := ReadsNeeded(p, len);
    QuotientBounds(p + len - 1, len);
    assert (q + 1) * len == q * len + len;
    if n >= q {
      MoreTimesIsMore(q, n, len);
    } else {
      MoreTimesIsMore(n + 1, q, len);
      assert (n + 1) * len == n * len + len;
    }
  }

  // ----- the reader at the other end -----

  function ExpectedOf(i: Input): seq<Message> {
    if i.Ping? then [] else [Message("message", WithoutFinalNewline(i.text), "")]
  }

  /** The messages a reader should see, in order: one per event, none per ping. */
  function Expected(inputs: seq<Input>): seq<Message> {
    if inputs == [] then []
    else Expected(inputs[..|inputs| - 1]) + ExpectedOf(inputs[|inputs| - 1])
  }

  predicate CrFree(inputs: seq<Input>) {
    forall k | 0 <= k < |inputs| && inputs[k].Event? :: '\r' !in inputs[k].text
  }

  /** How many frames lie completely within the first `n` bytes. */
  function CompleteFrames(inputs: seq<Input>, n: nat): (k: nat)
    ensures k <= |inputs|
  {
    if inputs == [] then 0
    else if |AllBytes(inputs)| <= n then |inputs|
    else CompleteFrames(inputs[..|inputs| - 1], n)
  }

  lemma FrameFromIdle(r: Reader, i: Input)
    requires Idle(r) && r.lastId == "" && (i.Event? ==> '\r' !in i.text)
    ensures FrameOf(i) != "" && Feed(r, FrameOf(i)[..|FrameOf(i)| - 1]).messages == r.messages
    ensures Feed(r, FrameOf(i)) == r.(messages := r.messages + Expected([i]))
  {
    var lines := FieldLines(FieldName(i), Tokens(Payload(i)));
    assert FrameOf(i)[..|FrameOf(i)| - 1] == lines;
    assert [i][..0] == [];
    if i.Ping? {
      FrameOfPing(r);
      assert r.messages + [] == r.messages;
    } else {
      FrameOfMessage(r, i.text);
    }
  }

  lemma FramesSnoc(inputs: seq<Input>)
    requires inputs != []
    ensures var n := |inputs| - 1;
            AllBytes(inputs) == AllBytes(inputs[..n]) + FrameOf(inputs[n])
  {
    var n := |inputs| - 1;
  }

  /** Fed everything, the reader has every message and waits for the next line. */
  lemma {:induction false} FeedAll(inputs: seq<Input>)
    requires CrFree(inputs)
    ensures Feed(FRESH, AllBytes(inputs)) == FRESH.(messages := Expected(inputs))
    decreases |inputs|
  {
    if inputs == [] {
    } else {
      var n := |inputs| - 1;
      FeedAll(inputs[..n]);
      FramesSnoc(inputs);
      var r := FRESH.(messages := Expected(inputs[..n]));
      FeedAppend(FRESH, AllBytes(inputs[..n]), FrameOf(inputs[n]));
      FrameFromIdle(r, inputs[n]);
      assert [inputs[n]][..0] == [];
      assert Expected([inputs[n]]) == [] + ExpectedOf(inputs[n]);
    }
  }

  /** The first `n` bytes are those of `k` frames and a proper part of the next one. */
  predicate SplitsInto(inputs: seq<Input>, n: nat, k: nat, part: string)
    requires n <= |AllBytes(inputs)| && k <= |inputs|
  {
    && AllBytes(inputs)[..n] == AllBytes(inputs[..k]) + part
    && if k == |inputs| then part == "" else part < FrameOf(inputs[k])
  }

  lemma {:induction false} BytesSplit(inputs: seq<Input>, n: nat) returns (part: string)
    requires n <= |AllBytes(inputs)|
    ensures SplitsInto(inputs, n, CompleteFrames(inputs, n), part)
    decreases |inputs|
  {
    if n == |AllBytes(inputs)| {
      CompleteUpTo(inputs, n);
      part := "";
    } else {
      var init, last := inputs[..|inputs| - 1], inputs[|inputs| - 1];
      SplitLast(inputs);
      CompleteBeforeLast(init, last, n);
      if n < |AllBytes(init)| {
        part := BytesSplit(init, n);
        SplitBeforeLast(init, last, n, CompleteFrames(init, n), part);
      } else {
        CompleteUpTo(init, n);
        part := SplitInLast(init, last, n);
      }
    }
  }

  lemma CompleteBeforeLast(init: seq<Input>, last: Input, n: nat)
    requires n < |AllBytes(init + [last])|
    ensures CompleteFrames(init + [last], n) == CompleteFrames(init, n)
  {
    assert (init + [last])[..|init|] == init;
  }

  lemma PrefixOfPrefix(a: string, b: string, n: nat)
    requires n <= |a|
    ensures (a + b)[..n] == a[..n]
  {
  }

  lemma SplitBeforeLast(init: seq<Input>, last: Input, n: nat, k: nat, part: string)
    requires n < |AllBytes(init)| && k <= |init| && SplitsInto(init, n, k, part)
    ensures n <= |AllBytes(init + [last])| && SplitsInto(init + [last], n, k, part)
  {
    AllBytesSnoc(init, last);
    PrefixOfPrefix(AllBytes(init), FrameOf(last), n);
    assert (init + [last])[..k] == init[..k];
    NotAllOf(init, n, k, part);
  }

  lemma NotAllOf(inputs: seq<Input>, n: nat, k: nat, part: string)
    requires n < |AllBytes(inputs)| && k <= |inputs| && SplitsInto(inputs, n, k, part)
    ensures k < |inputs|
  {
    assert inputs[..|inputs|] == inputs;
    assert AllBytes(inputs)[..n] != AllBytes(inputs) + "";
  }

  lemma SplitInLast(init: seq<Input>, last: Input, n: nat) returns (part: string)
    requires |AllBytes(init)| <= n < |AllBytes(init + [last])|
    ensures SplitsInto(init + [last], n, |init|, part)
  {
    AllBytesSnoc(init, last);
    part := FrameOf(last)[..n - |AllBytes(init)|];
    assert (init + [last])[..|init|] == init;
  }

  /** An incomplete frame dispatches nothing. */
  lemma FeedPartOfFrame(r: Reader, i: Input, n: nat)
    requires Idle(r) && r.lastId == "" && (i.Event? ==> '\r' !in i.text)
    requires n < |FrameOf(i)|
    ensures Feed(r, FrameOf(i)[..n]).messages == r.messages
  {
    FrameFromIdle(r, i);
    FeedPart(r, FrameOf(i), n);
  }

  /** What dispatches nothing but for its last byte dispatches nothing before that either. */
  lemma FeedPart(r: Reader, frame: string, n: nat)
    requires n < |frame| && Feed(r, frame[..|frame| - 1]).messages == r.messages
    ensures Feed(r, frame[..n]).messages == r.messages
  {
    var part, most := frame[..n], frame[..|frame| - 1];
    assert most == part + most[n..];
    FeedAppend(r, part, most[n..]);
    MessagesGrow(r, part);
    MessagesGrow(Feed(r, part), most[n..]);
  }

  lemma CompleteUpTo(inputs: seq<Input>, n: nat)
    requires |AllBytes(inputs)| <= n
    ensures CompleteFrames(inputs, n) == |inputs|
    ensures inputs[..|inputs|] == inputs
  {
  }

  lemma {:induction false} ExpectedPrefix(inputs: seq<Input>, k: nat)
    requires k <= |inputs|
    ensures Expected(inputs[..k]) <= Expected(inputs)
    decreases |inputs|
  {
    if k < |inputs| {
      ExpectedPrefix(inputs[..|inputs| - 1], k);
      assert inputs[..|inputs| - 1][..k] == inputs[..k];
    } else {
      assert inputs[..k] == inputs;
    }
  }

  // ----- carriage returns in the delivered bytes -----

  /** An empty line, to a reader, inside a frame. */
  predicate DoubleCr(s: string) {
    exists i | 0 <= i < |s| - 1 :: s[i] == '\r' && s[i + 1] == '\r'
  }

  const DATA := "data: "

  /** The start of the data lines of some frame: a newline is followed by the next field name. */
  predicate StartOfDataLines(p: string) {
    && (forall i | 0 <= i < |p| && i < |DATA| :: p[i] == DATA[i])
    && (forall i | 0 <= i < |p| - 1 :: p[i] == '\n' ==> p[i + 1] == 'd')
  }

  lemma {:induction false} DataLinesStart(tokens: seq<string>)
    requires forall k | 0 <= k < |tokens| :: '\n' !in tokens[k]
    ensures StartOfDataLines(FieldLines("data", tokens))
    decreases |tokens|
  {
    if tokens == [] {
    } else {
      var line, rest := DATA + tokens[0], FieldLines("data", tokens[1..]);
      DataLinesStart(tokens[1..]);
      assert FieldLines("data", tokens) == line + "\n" + rest;
      OneMoreDataLine(tokens[0], rest);
    }
  }

  lemma OneMoreDataLine(token: string, rest: string)
    requires '\n' !in token && StartOfDataLines(rest)
    ensures StartOfDataLines(DATA + token + "\n" + rest)
  {
    var line := DATA + token;
    var p := line + "\n" + rest;
    forall i | 0 <= i < |p| - 1 && p[i] == '\n' ensures p[i + 1] == 'd' {
      assert i >= |line|;
      assert p[i + 1] == rest[i - |line|];
      assert i > |line| ==> p[i] == rest[i - |line| - 1];
    }
  }

  predicate EndsLine(p: string) {
    p != "" && (p[|p| - 1] == '\r' || p[|p| - 1] == '\n')
  }

  /** Where the reader is after a part `p` of a data frame without an empty line in it. */
  predicate InsideFrame(r: Reader, p: string, t: Reader) {
    && t.messages == r.messages
    && (t.afterCr <==> p != "" && p[|p| - 1] == '\r')
    && (t.line == "" <==> p == "" || EndsLine(p))
    && (if '\r' in p || '\n' in p then t.data != "" else t.line == p)
  }

  lemma LineInsideFrame(t: Reader, line: string)
    requires line != "" && (t.data != "" || DATA <= line)
    ensures var t' := ProcessLine(t, line);
            t'.messages == t.messages && t'.line == t.line && t'.afterCr == t.afterCr && t'.data != ""
  {
    if DATA <= line {
      DataLine(t, line[|DATA|..]);
      assert line == DATA + line[|DATA|..];
    }
  }

  lemma ReadInsideFrame(r: Reader, p: string, t: Reader, c: char)
    requires StartOfDataLines(p + [c]) && InsideFrame(r, p, t)
    requires p != "" && p[|p| - 1] == '\r' ==> c != '\r'
    ensures InsideFrame(r, p + [c], Read(t, c))
  {
    var p' := p + [c];
    assert p'[|p|] == c;
    assert p != "" ==> p'[|p| - 1] == p[|p| - 1];
    if (c == '\n' && !t.afterCr) || c == '\r' {
      assert |p| >= |DATA|;
      assert p != "" && !EndsLine(p);
      assert t.line != "";
      if t.data == "" {
        assert t.line == p;
        assert p[..|DATA|] == DATA;
      }
      LineInsideFrame(t.(line := "", afterCr := c == '\r'), t.line);
    }
  }

  lemma {:induction false} FeedInsideFrame(r: Reader, p: string)
    requires Idle(r) && StartOfDataLines(p) && !DoubleCr(p)
    ensures InsideFrame(r, p, Feed(r, p))
    decreases |p|
  {
    if p == "" {
    } else {
      var init, c := p[..|p| - 1], p[|p| - 1];
      SplitLast(p);
      FeedInsideFrame(r, init);
      FeedOneMore(r, init, c);
      ReadInsideFrame(r, init, Feed(r, init), c);
    }
  }

  lemma FeedOneMore(r: Reader, p: string, c: char)
    ensures Feed(r, p + [c]) == Read(Feed(r, p), c)
  {
    FeedAppend(r, p, [c]);
    assert Feed(Feed(r, p), [c]) == Feed(Read(Feed(r, p), c), "");
  }

  lemma {:induction false} FirstDoubleCr(p: string) returns (j: nat)
    requires DoubleCr(p)
    ensures j < |p| - 1 && p[j] == '\r' && p[j + 1] == '\r' && !DoubleCr(p[..j + 1])
    decreases |p|
  {
    var init := p[..|p| - 1];
    if DoubleCr(init) {
      j := FirstDoubleCr(init);
      assert init[..j + 1] == p[..j + 1];
    } else {
      j := |p| - 2;
    }
  }

  /** Part of a data frame shows the reader something exactly if two carriage returns follow each other in it. */
  lemma PartDispatchesIff(r: Reader, p: string)
    requires Idle(r) && StartOfDataLines(p)
    ensures Feed(r, p).messages == r.messages <==> !DoubleCr(p)
  {
    if DoubleCr(p) {
      var j := FirstDoubleCr(p);
      FeedInsideFrame(r, p[..j + 1]);
      FeedOneMore(r, p[..j + 1], '\r');
      var shown := p[..j + 1] + ['\r'];
      assert p == shown + p[j + 2..];
      FeedAppend(r, shown, p[j + 2..]);
      MessagesGrow(Feed(r, shown), p[j + 2..]);
    } else {
      FeedInsideFrame(r, p);
    }
  }

  lemma PartOfFrameDispatchesIff(r: Reader, i: Input, n: nat)
    requires Idle(r) && r.lastId == "" && n < |FrameOf(i)|
    ensures Feed(r, FrameOf(i)[..n]).messages == r.messages <==> !DoubleCr(FrameOf(i)[..n])
  {
    if i.Ping? {
      FeedPartOfFrame(r, i, n);
      FrameOfPing(r);
    } else {
      var tokens := Tokens(i.text);
      forall k | 0 <= k < |tokens| ensures '\n' !in tokens[k] { TokensAreClean(i.text, tokens[k]); }
      DataLinesStart(tokens);
      assert FrameOf(i)[..n] == FieldLines("data", tokens)[..n];
      PartDispatchesIff(r, FrameOf(i)[..n]);
    }
  }

  /** Every event's message is expected. */
  lemma {:induction false} EventIsExpected(inputs: seq<Input>, k: nat)
    requires k < |inputs| && inputs[k].Event?
    ensures Message("message", WithoutFinalNewline(inputs[k].text), "") in Expected(inputs)
    decreases |inputs|
  {
    if k == |inputs| - 1 {
    } else {
      EventIsExpected(inputs[..|inputs| - 1], k);
    }
  }

  lemma StripKeepsCr(text: string)
    ensures '\r' in text <==> '\r' in WithoutFinalNewline(text)
  {
  }

  /** No reader shows the expected messages if one of them has a carriage return. */
  lemma ExpectedOnlyIfCrFree(inputs: seq<Input>, bytes: string)
    requires Feed(FRESH, bytes).messages == Expected(inputs)
    ensures CrFree(inputs)
  {
    ReaderNeverShowsCr(FRESH, bytes);
    forall k | 0 <= k < |inputs| && inputs[k].Event? ensures '\r' !in inputs[k].text {
      EventIsExpected(inputs, k);
      StripKeepsCr(inputs[k].text);
    }
  }

  /** Complete frames and part of another: when the reader has the messages of the former and no others. */
  lemma FeedSplitIff(inputs: seq<Input>, i: Input, part: string)
    requires part < FrameOf(i)
    ensures Feed(FRESH, AllBytes(inputs) + part).messages == Expected(inputs) <==> CrFree(inputs) && !DoubleCr(part)
  {
    if CrFree(inputs) {
      FeedAll(inputs);
      FeedAppend(FRESH, AllBytes(inputs), part);
      PartOfFrameDispatchesIff(FRESH.(messages := Expected(inputs)), i, |part|);
      assert FrameOf(i)[..|part|] == part;
    } else if Feed(FRESH, AllBytes(inputs) + part).messages == Expected(inputs) {
      ExpectedOnlyIfCrFree(inputs, AllBytes(inputs) + part);
    }
  }

  lemma FeedAllIff(inputs: seq<Input>)
    ensures Feed(FRESH, AllBytes(inputs)).messages == Expected(inputs) <==> CrFree(inputs)
  {
    if CrFree(inputs) {
      FeedAll(inputs);
    } else if Feed(FRESH, AllBytes(inputs)).messages == Expected(inputs) {
      ExpectedOnlyIfCrFree(inputs, AllBytes(inputs));
    }
  }

  /** Without carriage returns among the inputs there are none in any part of a frame. */
  lemma CrFreePart(i: Input, part: string)
    requires part < FrameOf(i) && (i.Event? ==> '\r' !in i.text)
    ensures !DoubleCr(part)
  {
    FeedPartOfFrame(FRESH, i, |part|);
    PartOfFrameDispatchesIff(FRESH, i, |part|);
    assert FrameOf(i)[..|part|] == part;
  }

  /** The part of the next frame that has been delivered behind the last complete one. */
  function Unfinished(s: Stream): string {
    var bytes := Delivered(s.calls);
    var complete := AllBytes(s.accepted[..CompleteFrames(s.accepted, |bytes|)]);
    if |complete| <= |bytes| then bytes[|complete|..] else ""
  }

  lemma UnfinishedIs(s: Stream) returns (part: string)
    requires Conserved(s)
    ensures |Delivered(s.calls)| <= |AllBytes(s.accepted)|
    ensures var k := CompleteFrames(s.accepted, |Delivered(s.calls)|);
            && part == Unfinished(s) && Delivered(s.calls) == AllBytes(s.accepted[..k]) + part
            && if k == |s.accepted| then part == "" else part < FrameOf(s.accepted[k])
  {
    var bytes, all := Delivered(s.calls), AllBytes(s.accepted);
    assert bytes == all[..|bytes|];
    part := BytesSplit(s.accepted, |bytes|);
  }

  /**
  In every run, however the delivered bytes are chunked, an SSE reader obtains exactly the messages whose
  frames were completely delivered, a prefix, in order, of the accepted ones, if and only if no event among
  them has a carriage return and the part of the next frame that was delivered has no two in a row.
  */
  lemma ReaderSeesAcceptedPrefix(initialEvent: Option<string>, actions: seq<Action>, chunks: seq<string>)
    requires Concat(chunks) == Delivered(Run(Initial(initialEvent), actions).calls)
    ensures var s := Run(Initial(initialEvent), actions);
            var seen := FeedChunks(FRESH, chunks).messages;
            var complete := s.accepted[..CompleteFrames(s.accepted, |Delivered(s.calls)|)];
            && (seen == Expected(complete) <==> CrFree(complete) && !DoubleCr(Unfinished(s)))
            && (CrFree(s.accepted) ==> seen == Expected(complete))
            && var offered := OfferedTo(initialEvent, actions);
            && complete <= offered && Expected(complete) <= Expected(offered)
            && (s.phase == WaitingForEvents ==> (seen == Expected(offered) <==> CrFree(offered)))
  {
    var s := Run(Initial(initialEvent), actions);
    EveryRunKeepsInv(initialEvent, actions);
    AcceptedInEveryRun(initialEvent, actions);
    ChunkingIsIrrelevant(FRESH, chunks);
    ReaderOf(s);
  }

  lemma ReaderOf(s: Stream)
    requires Conserved(s) && QueueMatchesPhase(s)
    ensures var seen := Feed(FRESH, Delivered(s.calls)).messages;
            var complete := s.accepted[..CompleteFrames(s.accepted, |Delivered(s.calls)|)];
            && (seen == Expected(complete) <==> CrFree(complete) && !DoubleCr(Unfinished(s)))
            && (CrFree(s.accepted) ==> seen == Expected(complete))
            && Expected(complete) <= Expected(s.accepted)
            && (s.phase == WaitingForEvents ==> (seen == Expected(s.accepted) <==> CrFree(s.accepted)))
  {
    var k := CompleteFrames(s.accepted, |Delivered(s.calls)|);
    var part := UnfinishedIs(s);
    ExpectedPrefix(s.accepted, k);
    if k < |s.accepted| {
      FeedSplitIff(s.accepted[..k], s.accepted[k], part);
      if CrFree(s.accepted) {
        CrFreePart(s.accepted[k], part);
      }
    } else {
      assert s.accepted[..k] == s.accepted;
      assert Delivered(s.calls) == AllBytes(s.accepted);
      assert !DoubleCr(part);
      FeedAllIff(s.accepted);
    }
    if s.phase == WaitingForEvents {
      assert Delivered(s.calls) == AllBytes(s.accepted);
      CompleteUpTo(s.accepted, |Delivered(s.calls)|);
    }
  }

  // ----- the class -----

  /** What process() answers to nghttp2. */
  datatype Answer = Bytes(count: nat) | Defer | Eof | LogicError

  class EventStream {
    var state: Phase
    var queue: seq<string>
    var connected: bool
    ghost var shared: bool
    ghost var deferred: bool
    ghost var posts: multiset<Post>
    ghost var accepted: seq<Input>
    ghost var calls: seq<Call>
    ghost var terminationCallbacks: nat
    ghost var disconnectCallbacks: nat

    ghost function View(): Stream
      reads this
    {
      Stream(state, queue, shared, deferred, posts, accepted, calls,
             connected, terminationCallbacks, disconnectCallbacks)
    }

    ghost predicate Valid()
      reads this
    {
      Inv(View())
    }

    constructor (initialEvent: Option<string>)
      ensures View() == Initial(initialEvent)
      ensures accepted == InitialInputs(initialEvent)
      ensures Valid()
    {
      state, queue, connected := WaitingForEvents, [], true;
      terminationCallbacks, disconnectCallbacks := 0, 0;
      shared, deferred, posts, accepted, calls := false, false, multiset{}, [], [];
      new;
      InitialInv(None);
      if initialEvent.Some? {
        EnqueueInput(Event(initialEvent.value));
      }
    }

    /** enqueue(): a message from the event signal, or a keep-alive ping. */
    method EnqueueInput(input: Input)
      requires Valid()
      modifies this
      ensures View() == Accept(old(View()), input)
      ensures Valid()
    {
      ghost var before := View();
      var buf := BuildFrame(FieldName(input), Payload(input));
      if state == Closed || state == WantToClose {
        return;
      }
      AcceptKeepsInv(before, input);
      queue := queue + [buf];
      state := HasEvents;
      accepted := accepted + [input];
      PostToLoop(WakeForEvents);
      assert View() == Accept(before, input);
    }

    /** post() with a weak pointer to this object; before the shared_ptr exists that pointer is empty. */
    ghost method PostToLoop(p: Post)
      modifies this`posts, this`calls
      ensures posts == old(posts) + multiset{if shared then p else Dead}
      ensures calls == old(calls) + [Posted]
    {
      posts := posts + multiset{if shared then p else Dead};
      calls := calls + [Posted];
    }

    /** activate(): from here on the object is shared and nghttp2 may call Process. */
    method Start()
      requires Valid()
      modifies this
      ensures View() == ActivateStep(old(View()))
      ensures Valid()
    {
      shared := true;
    }

    /** The slot connected to the termination signal: it calls the owner's callback, then asks for the close. */
    method RequestTermination()
      requires Valid()
      modifies this
      ensures View() == TerminateStep(old(View()))
      ensures Valid()
    {
      ghost var before := View();
      terminationCallbacks := terminationCallbacks + 1;
      if state != Closed {
        state := WantToClose;
        PostToLoop(WakeForClose);
        assert View() == TerminateStep(before);
      }
      TerminateKeepsInv(before);
    }

    /** send_chunk(): fills the buffer from the front of the queue, trimming and popping frames. */
    method SendChunkTo(destination: array<char>) returns (written: nat)
      requires state == HasEvents && NonEmptyFrames(queue)
      modifies this`state, this`queue, destination
      ensures written == Min(destination.Length, |Concat(old(queue))|)
      ensures destination[..written] == Concat(old(queue))[..written]
      ensures destination[written..] == old(destination[..])[written..]
      ensures queue == DropBytes(old(queue), written)
      ensures state == if queue == [] then WaitingForEvents else HasEvents
    {
      written, queue := FillBuffer(queue, destination);
      if queue == [] {
        state := WaitingForEvents;
      }
    }

    /** process(): nghttp2's data generator. */
    method Generate(destination: array<char>) returns (answer: Answer)
      requires Valid() && shared
      modifies this, destination
      ensures View() == ProcessStep(old(View()), destination.Length)
      ensures Valid()
      ensures match old(state)
              case HasEvents =>
                && answer.Bytes? && answer.count <= destination.Length
                && calls == old(calls) + [Wrote(destination[..answer.count])]
              case WaitingForEvents => answer == Defer
              case WantToClose => answer == Eof
              case Closed => answer == LogicError
    {
      ghost var before := View();
      match state {
        case HasEvents =>
          deferred := false;
          var n := SendChunkTo(destination);
          calls := calls + [Wrote(destination[..n])];
          answer := Bytes(n);
          assert View() == ProcessStep(before, destination.Length);
        case WaitingForEvents =>
          deferred := true;
          calls := calls + [WentToSleep];
          answer := Defer;
          assert View() == ProcessStep(before, destination.Length);
        case WantToClose =>
          deferred := false;
          calls := calls + [ReportedEof];
          answer := Eof;
          assert View() == ProcessStep(before, destination.Length);
        case Closed =>
          answer := LogicError;
      }
      ProcessKeepsInv(before, destination.Length);
    }

    /** The io_service runs a posted handler; returns whether it resumed the response. */
    method RunPosted(handler: Post) returns (resumed: bool)
      requires Valid() && handler in posts
      modifies this
      ensures View() == RunPostStep(old(View()), handler)
      ensures Valid()
      ensures resumed ==> state != Closed && !deferred
    {
      ghost var before := View();
      posts := posts - multiset{handler};
      resumed := Resumes(state, handler);
      if resumed {
        deferred := false;
        calls := calls + [Resumed];
        assert View() == RunPostStep(before, handler);
      } else {
        assert View() == RunPostStep(before, handler);
      }
      RunPostKeepsInv(before, handler);
    }

    /** The response's on_close handler: it disconnects the signals and calls the owner's callback. */
    method Close()
      requires Valid() && shared && state != Closed
      modifies this
      ensures View() == OnCloseStep(old(View()))
      ensures Valid()
    {
      ghost var before := View();
      connected := false;
      state := Closed;
      calls := calls + [WasClosed];
      disconnectCallbacks := disconnectCallbacks + 1;
      assert View() == OnCloseStep(before);
      OnCloseKeepsInv(before);
    }
  }

  lemma DropNothing(queue: seq<string>)
    requires NonEmptyFrames(queue)
    ensures DropBytes(queue, 0) == queue
  {
    if queue != [] {
      assert queue == [queue[0]] + queue[1..];
    }
  }

  lemma {:induction false} DropInTwoGoes(queue: seq<string>, m: nat, n: nat)
    requires NonEmptyFrames(queue)
    ensures DropBytes(DropBytes(queue, m), n) == DropBytes(queue, m + n)
    decreases |queue|
  {
    if queue == [] {
    } else {
      if m >= |queue[0]| {
        DropInTwoGoes(queue[1..], m - |queue[0]|, n);
      } else {
        var rest := [queue[0][m..]] + queue[1..];
        assert rest[1..] == queue[1..];
      }
    }
  }

  /**
  How far send_chunk is with the queue `all`: `written` bytes of it are at the start of the buffer, the
  rest of the buffer is untouched, and `queue` is what remains.
  */
  ghost predicate Progress(all: seq<string>, queue: seq<string>, buf: string, untouched: string, written: nat) {
    && written <= |buf| == |untouched| && written <= |Concat(all)|
    && NonEmptyFrames(all) && NonEmptyFrames(queue)
    && queue == DropBytes(all, written) && Concat(queue) == Concat(all)[written..]
    && buf == Concat(all)[..written] + untouched[written..]
  }

  /** The loop of send_chunk: take frames from the front, trimming the one that does not fit any more. */
  method FillBuffer(queue: seq<string>, destination: array<char>) returns (written: nat, rest: seq<string>)
    requires NonEmptyFrames(queue)
    modifies destination
    ensures Progress(queue, rest, destination[..], old(destination[..]), written)
    ensures rest == [] || written == destination.Length
  {
    written, rest := 0, queue;
    ghost var untouched := destination[..];
    ProgressStart(queue, untouched);
    while rest != []
      invariant Progress(queue, rest, destination[..], untouched, written)
      decreases |rest|
    {
      ghost var buf, before := destination[..], rest;
      var front := rest[0];
      var num := Min(|front|, destination.Length - written);
      CopyInto(destination, written, front[..num]);
      if num < |front| {
        rest := [front[num..]] + rest[1..];
        ProgressStep(queue, before, rest, buf, destination[..], untouched, written, num);
        written := written + num;
        return;
      }
      rest := rest[1..];
      ProgressStep(queue, before, rest, buf, destination[..], untouched, written, num);
      written := written + num;
    }
  }

  lemma ProgressStart(all: seq<string>, buf: string)
    requires NonEmptyFrames(all)
    ensures Progress(all, all, buf, buf, 0)
  {
    DropNothing(all);
    assert Concat(all)[0..] == Concat(all);
    assert buf == Concat(all)[..0] + buf[0..];
  }

  lemma ProgressStep(
    all: seq<string>, queue: seq<string>, queue': seq<string>, buf: string, buf': string, untouched: string,
    written: nat, num: nat)
    requires Progress(all, queue, buf, untouched, written) && queue != [] && num == Min(|queue[0]|, |buf| - written)
    requires queue' == if num < |queue[0]| then [queue[0][num..]] + queue[1..] else queue[1..]
    requires buf' == buf[..written] + queue[0][..num] + buf[written + num..]
    ensures Progress(all, queue', buf', untouched, written + num)
  {
    DropInTwoGoes(all, written, num);
    DropNothing(queue[1..]);
    DropBytesIsSuffix(queue, num);
    NextPart(Concat(all), written, Concat(queue), num);
    assert Concat(queue)[..num] == queue[0][..num];
    FilledFurther(untouched, Concat(all), written, num);
  }

  lemma FilledFurther(untouched: string, all: string, written: nat, num: nat)
    requires written + num <= |all| && written + num <= |untouched|
    ensures var buf := all[..written] + untouched[written..];
            buf[..written] + all[written..written + num] + buf[written + num..]
            == all[..written + num] + untouched[written + num..]
  {
  }

  lemma NextPart(all: string, written: nat, pending: string, num: nat)
    requires written <= |all| && all[written..] == pending && num <= |pending|
    ensures written + num <= |all|
    ensures pending[..num] == all[written..written + num]
    ensures pending[num..] == all[written + num..]
  {
  }

  /** std::copy_n into the middle of a buffer. */
  method CopyInto(destination: array<char>, offset: nat, bytes: string)
    requires offset + |bytes| <= destination.Length
    modifies destination
    ensures destination[..] == old(destination[..])[..offset] + bytes + old(destination[..])[offset + |bytes|..]
  {
    for k := 0 to |bytes|
      invariant destination[..offset] == old(destination[..offset])
      invariant forall j | 0 <= j < k :: destination[offset + j] == bytes[j]
      invariant destination[offset + |bytes|..] == old(destination[offset + |bytes|..])
    {
      destination[offset + k] := bytes[k];
    }
  }
}
