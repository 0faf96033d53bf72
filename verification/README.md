# A verified model of rousette's protocol logic

Rousette is a RESTCONF server on top of sysrepo. This project models the parts of it that decide
something by themselves, and proves what they promise over every input and every run. The Dafny files
are checked together: `dafny verify dfyconfig.toml`.

| files | part of the server | form of the model |
|---|---|---|
| `EventSource.dfy`, `EventStream.dfy` | event delivery over `text/event-stream` | a class proved against a step function; theorems over all runs, with an SSE reader (sections 9.2.5 and 9.2.6 of the WHATWG HTML Living Standard) at the other end |
| `Subscriptions.dfy`, `SubscriptionRuns.dfy`, `GetRace.dfy` | dynamic subscriptions (sections 2.4.4 and 2.4.5 of RFC 8639) | classes for one subscription and the registry; theorems over all runs of registry, streams, timers and shutdown; the two halves of a GET interleaved with other threads |
| `LockOrder.dfy` | the three kinds of mutexes | every code path as its trace of lock operations and of uses of a subscription, any number of threads, any interleaving; deadlocks and races |
| `UriPath.dfy` | the resource path (section 3.5.3 of RFC 8040) | recursive-descent grammar, printed form, round trips both ways |
| `Fields.dfy`, `FieldsXPath.dfy` | the `fields` parameter (section 4.8.3 of RFC 8040) | grammar and printed form; compilation to an XPath union; an evaluator of that text; both meanings on a data tree |
| `LibyangPath.dfy` | path segments to libyang paths | the translation loop, a reader of such paths, injectivity, splitting |
| `Requests.dfy` | request classification and the allowed methods | functions, and the loop that fills the set |
| `Nacm.dfy` | the validator of anonymous access | against the rule evaluation of sections 3.4.4 to 3.4.6 of RFC 8341 |
| `Accept.dfy` | content negotiation (section 12.5.1 of RFC 9110) | stable sort by preference, choice of the encodings |

Conventions. A `char` stands for one byte. Text such as XPaths and frames is `string`. What the C++ code
throws as an `ErrorResponse` is an `Err` with the HTTP status and the error-tag.

Assumptions of the run models:

- One handler of the io_context is one step of the subscription protocol, since the server runs a single
  thread (src/restconf/Server.cpp:930) and `main` triggers the shutdown on the same context
  (src/restconf/main.cpp:114-119). The one call from outside is the `stop()` in `Server::~Server`
  (src/restconf/Server.cpp:877-884); it is harmless in production only because `main` destroys the server
  after `join()` has returned, when no handler runs any more. `GetRace.dfy` says exactly what this assumption
  is good for: Terminating is left if and only if a stop falls between the check and the connect of one GET.
  The expiry of a timer and its handler are one step.
- Uuids and sysrepo's subscription ids are never reused within a run.
- Handlers posted before the `shared_ptr` exists, and the timer armed in the constructor of a
  subscription, hold an empty weak pointer and do nothing.
- nghttp2 may ask for data at any time after `activate()`, with any buffer length; posted handlers run in
  any order.

Where a property is false of the code, the exact condition is proved:

- An event is read back unchanged exactly when it has no carriage return (`FrameIsFaithfulIffNoCr`); the
  newline that may be lost at its end is part of the statement. Over a whole run, the reader has exactly the
  messages of the completely delivered frames if and only if none of those has a carriage return and the
  delivered part of the next frame has no two in a row, which would show that message early
  (`ReaderSeesAcceptedPrefix`).
- The anonymous-rules validator ignores the rule-type of the last rule. An accepted configuration denies
  everything else exactly when that rule has no rpc-name, notification-name or path
  (`PromiseHoldsIffLastRuleUnrestricted`); `RestrictedLastRuleLeaks` gives the request that gets through.
- The set of allowed methods need not list OPTIONS although the OPTIONS request is accepted for every path
  that resolves. The two agree exactly unless the path resolves to a resource that offers nothing: anything in
  an unsupported datastore, an RPC outside operations, an action outside data and operational, a data node
  under operations, or a node of another kind (`OptionsAgreesIff`, with `OffersNothing` on prefix and node
  alone). `UnknownDatastoreListsNothing` gives the path `/restconf/ds/x:y`.
- The inactivity timer is meant to remove every subscription that nobody receives. The one armed in the
  constructor cannot, since `weak_from_this` is empty there (src/restconf/DynamicSubscriptions.cpp:256, 302-303).
  A timer removes an entry exactly if it is live (`StepRemovesExactly`), and it becomes live exactly when a stream
  of a subscription that is not terminating ends (`ArmedByDisconnectOnly`): one to which nobody ever connects is
  not reaped (`NeverConnectedIsNeverReaped`).
- `SubscriptionData::terminate` is documented as called with the mutex locked, and sysrepo's terminate as not
  thread-safe (src/restconf/DynamicSubscriptions.cpp:321, 403), but `terminateSubscription` and
  `deleteSubscription` call them without it (src/restconf/DynamicSubscriptions.cpp:171, 192). No two threads can be
  about to use the same subscription at once, in any interleaving of any programs without these two paths
  (`NoRace`); with either of them they can (`RaceIsReachable`), and no other path is affected (`SafeIff`). With the
  server's single thread this does no harm.
- Of several members of a Content-Type list the last one is meant to be used (src/restconf/utils/dataformat.cpp:75),
  but the list has been sorted by preference before. The last member is the one used exactly when it has a
  quality other than 0 and every other such member has a higher quality, or the same and a type at least as
  specific (`LastMemberIsUsedIff`); `FirstMemberMayBeUsed` gives XML with q=0.5 followed by JSON.

## Model

| member | source | states |
|---|---|---|
| EventSource.BuildFrame | src/http/EventStream.cpp:142-154 | the loop over the newline-separated tokens builds one field line per token and a final empty line; the token after the last newline counts only if it is not empty |
| EventSource.FrameOfMessage | src/http/EventStream.cpp:142-154 | for a message without carriage returns, a reader between events gets nothing before the last byte of the frame and exactly that message, minus at most one trailing newline, with it |
| EventSource.FrameOfPing | src/http/EventStream.cpp:200 | the keep-alive ping is the comment `: ` and leaves the reader exactly as it was |
| EventSource.FrameIsFaithfulIffNoCr | src/http/EventStream.cpp:142-154 | the frame of a message is read back as that message if and only if the message has no carriage return |
| EventSource.ChunkingIsIrrelevant | src/http/EventStream.cpp:104-122 | the reader's result depends only on the concatenation of the chunks it is fed |
| EventStreams.EventStream.constructor | src/http/EventStream.cpp:23-66 | a new stream waits for events, with the initial event queued if there is one; what that means for every run is in the rows below |
| EventStreams.EventStream.Start | src/http/EventStream.cpp:73-102 | activation: from here on wakeups are live and nghttp2 may read; the invariant is kept |
| EventStreams.EventStream.EnqueueInput | src/http/EventStream.cpp:156-183 | the new state is the enqueue step: refused while closing, otherwise the frame is queued and a wakeup posted; the invariant is kept |
| EventStreams.EventStream.RequestTermination | src/http/EventStream.cpp:46-65 | the termination step: the owner's callback is called in any state; then a closed stream is left alone, otherwise WantToClose and a wakeup; the invariant is kept |
| EventStreams.FillBuffer | src/http/EventStream.cpp:108-119 | the loop that trims and pops: the bytes written are the first of the queue and at the start of the buffer, the rest of the buffer is untouched, and what remains is the queue without them |
| EventStreams.EventStream.SendChunkTo | src/http/EventStream.cpp:104-122 | exactly min(len, pending) bytes, the first pending ones, are copied to the buffer and leave the queue; the rest of the buffer is untouched; the state is WaitingForEvents exactly when the queue is empty |
| EventStreams.EventStream.Generate | src/http/EventStream.cpp:124-140 | the process step: bytes, deferral, EOF or the logic error, by state; what is reported as written is what is in the buffer |
| EventStreams.EventStream.RunPosted | src/http/EventStream.cpp:167-182 | a posted handler, of an event or of the termination, resumes the response only if it is not closed, and then output is no longer deferred |
| EventStreams.EventStream.Close | src/http/EventStream.cpp:83-97 | the close step: the signals are disconnected, the state is Closed and the owner is told of the disconnection; the invariant, and with it that this happens once, is kept |
| EventStreams.EveryRunKeepsInv | src/http/EventStream.cpp:104-183 | in every state of every run: bytes written plus bytes queued are the bytes of all accepted frames; queued frames are not empty; while not closing, HasEvents holds exactly when the queue is not empty; output deferred in HasEvents or WantToClose has a live wakeup posted; the signals are disconnected and the owner was told once exactly when Closed; nothing is called on the response after it was closed |
| EventStreams.EveryTerminationIsReported | src/http/EventStream.cpp:46-54 | over every run the owner's callback is called once per termination request, whatever the state |
| EventStreams.AcceptedIsWhatWasOffered | src/http/EventStream.cpp:156-166 | over every continuation of a live stream, the accepted inputs grow by exactly those enqueued before the termination or close |
| EventStreams.AcceptedInEveryRun | src/http/EventStream.cpp:38-40 | over every run the accepted inputs are the initial event, if there is one, and then exactly the inputs enqueued before the termination or close |
| EventStreams.EveryRunFollowsHistory | src/http/EventStream.cpp:46-97 | in every run: Closed exactly if the response was closed after the activation; WantToClose exactly if not and a termination was requested; live otherwise; one termination callback per request |
| EventStreams.EveryRunIsRecorded | src/http/EventStream.cpp:124-140 | in every run output is deferred exactly if the last answer to nghttp2 was to wait and nothing has resumed it since; before the activation no posted handler can act |
| EventStreams.EveryReadIsAnswered | src/http/EventStream.cpp:124-140 | a read of an open response is answered once: EOF if closing, else the first pending bytes, else to wait |
| EventStreams.OnePostEach | src/http/EventStream.cpp:156-183 | every accepted input and every termination heard posts one handler, and running a handler uses it up |
| EventStreams.TerminationLeadsToEof | src/http/EventStream.cpp:46-65 | a termination of a live stream posts its wakeup, and the read after that has run gets EOF |
| EventStreams.WakeupLeadsToDelivery | src/http/EventStream.cpp:167-182 | a sleeping output with events has its wakeup posted, and after that has run the next read delivers the first pending bytes |
| EventStreams.NoBytesAfterTermination | src/http/EventStream.cpp:46-65 | from WantToClose on, over every continuation, no byte is written and the response sees only posts, wakeups, EOF and the close; Closed is absorbing and after it nothing is seen at all |
| EventStreams.Drain | src/http/EventStream.cpp:104-122 | n reads of len bytes move exactly the first min(n * len, pending) bytes |
| EventStreams.DrainsInCeilingManyReads | src/http/EventStream.cpp:104-122 | the queue is empty after n reads of len > 0 bytes if and only if n >= ceil(pending / len) |
| EventStreams.ReaderSeesAcceptedPrefix | src/http/EventStream.cpp:104-183 | in every run, for every chunking of the delivered bytes, an SSE reader has exactly the messages whose frames were completely delivered, a prefix, in order, of the initial event and what was enqueued in time, if and only if none of these has a carriage return and the delivered part of the next frame has no two in a row; once the queue has drained it has all of them if and only if none of them has a carriage return; pings yield nothing |
| Subscriptions.SubscriptionData.constructor | src/restconf/DynamicSubscriptions.cpp:236-257 | a new subscription is its owner's, in Start; its first timer acts for nobody and sysrepo was not asked to terminate |
| Subscriptions.SubscriptionData.ClientConnected | src/restconf/DynamicSubscriptions.cpp:279-285 | the timer is off and the receiver active; from Start, soundness is kept |
| Subscriptions.SubscriptionData.ClientDisconnected | src/restconf/DynamicSubscriptions.cpp:266-277 | unless terminating: back to Start with the timer armed; soundness is kept |
| Subscriptions.SubscriptionData.IsReadyToAcceptClient | src/restconf/DynamicSubscriptions.cpp:287-291 | ready exactly in Start |
| Subscriptions.SubscriptionData.Terminate | src/restconf/DynamicSubscriptions.cpp:322-336 | unless terminating already: Terminating, and one call of sysrepo's terminate |
| Subscriptions.SubscriptionData.Stop | src/restconf/DynamicSubscriptions.cpp:338-344 | Terminating with the timer off and no call to sysrepo |
| Subscriptions.SubscriptionData.Destroy | src/restconf/DynamicSubscriptions.cpp:259-264 | the destructor cancels the timer and terminates unless that happened before |
| Subscriptions.EndingDiffers | src/restconf/DynamicSubscriptions.cpp:322-344 | terminate() asks sysrepo unless terminating already and leaves the timer alone; stop() turns the timer off and asks nobody |
| Subscriptions.LookupsAgree | src/restconf/DynamicSubscriptions.cpp:201-227 | looking up an entry by uuid and by id gives the same answer for every user |
| Subscriptions.DeleteIffAuthorised | src/restconf/DynamicSubscriptions.cpp:151-175 | a delete removes the entry with that id if and only if the caller is its owner, or it is a kill by the recovery user |
| Subscriptions.DeleteOutcomes | src/restconf/DynamicSubscriptions.cpp:151-175 | an iff for each outcome: removed and sysrepo failed, for the owner or a kill by the recovery user; use kill instead, for the recovery user's delete of someone else's; not found, if nothing with that id may be used by the caller |
| Subscriptions.DynamicSubscriptions.GetEncoding | src/restconf/DynamicSubscriptions.cpp:34-51 | the request's own format, or that of one of the two supported identities; nothing for any other |
| Subscriptions.DynamicSubscriptions.EstablishSubscription | src/restconf/DynamicSubscriptions.cpp:120-149 | it succeeds if and only if host, encoding, stream, filter and sysrepo allow; then the registry gains exactly the new entry under its uuid, the caller's, in Start, with a timer that acts for nobody, and stays well-keyed; otherwise the registry is unchanged and the error is invalid-value for a missing host and invalid-attribute for the rest |
| Subscriptions.DynamicSubscriptions.GetByUuid | src/restconf/DynamicSubscriptions.cpp:201-209 | the entry, for its owner or the recovery user, otherwise nothing |
| Subscriptions.DynamicSubscriptions.SearchById | src/restconf/DynamicSubscriptions.cpp:181-188 | the linear search finds the entry with the id if there is one |
| Subscriptions.DynamicSubscriptions.GetById | src/restconf/DynamicSubscriptions.cpp:216-227 | the entry with the id, for its owner or the recovery user, otherwise nothing |
| Subscriptions.DynamicSubscriptions.DeleteSubscription | src/restconf/DynamicSubscriptions.cpp:151-175 | the four outcomes (removed, not found, use kill instead, sysrepo failed); only the first changes the registry, by that one entry |
| Subscriptions.DynamicSubscriptions.TerminateSubscription | src/restconf/DynamicSubscriptions.cpp:177-194 | the entry with the id, if any, is terminated and removed; everything else is as before |
| Subscriptions.DynamicSubscriptions.Stop | src/restconf/DynamicSubscriptions.cpp:112-118 | every registered subscription is stopped; the set of entries is unchanged |
| SubscriptionRuns.EveryActionSequenceRuns | src/restconf/DynamicSubscriptions.cpp:112-344 | every sequence of handlers has a run, so the statements below exclude none |
| SubscriptionRuns.ReceiverCount | src/restconf/DynamicSubscriptions.cpp:266-344 | in every state of every run the number of open streams of a subscription is 0 in Start, 1 in ReceiverActive and at most 1 in Terminating |
| SubscriptionRuns.TerminatingIsForEver | src/restconf/DynamicSubscriptions.cpp:322-344 | over every run Terminating is never left and sysrepo's terminate is called at most once through SubscriptionData::terminate, whatever the order of timeout, shutdown, stop and destruction |
| SubscriptionRuns.TerminateWasCalledIff | src/restconf/DynamicSubscriptions.cpp:322-344 | over every run sysrepo's terminate has been called for a subscription, exactly once, if and only if it entered Terminating other than by a server stop while nobody received from it |
| SubscriptionRuns.TerminatesIff | src/restconf/DynamicSubscriptions.cpp:259-344 | a step ends a subscription if and only if it is the server stop of a registered or attached one, the expiry of its own live timer while registered, or the loss of the last reference to it |
| SubscriptionRuns.DestroyedIffUnreferenced | src/restconf/DynamicSubscriptions.cpp:259-264 | in every state of every run the destroyed subscriptions are exactly those that neither the registry nor an unreleased stream refers to |
| SubscriptionRuns.EstablishedIs | src/restconf/DynamicSubscriptions.cpp:120-149 | the step with a fresh uuid and id adds one object, its owner's, in Start with a timer that acts for nobody, and changes nothing else; with a used one it changes nothing |
| SubscriptionRuns.TimerOnlyWithoutReceiver | src/restconf/DynamicSubscriptions.cpp:293-319 | an armed inactivity timer means Start and no open stream |
| SubscriptionRuns.ArmedByDisconnectOnly | src/restconf/DynamicSubscriptions.cpp:266-312 | a step makes the timer live if and only if it ends an open stream of a subscription that is not terminating |
| SubscriptionRuns.FirstTimerReapsNothing | src/restconf/DynamicSubscriptions.cpp:236-257 | the expiry of the timer armed in the constructor turns it off and changes nothing else |
| SubscriptionRuns.NeverConnectedIsNeverReaped | src/restconf/DynamicSubscriptions.cpp:236-312 | over every part of a run in which no stream of a subscription ends, no live timer of it comes into being |
| SubscriptionRuns.GetAttachesIff | src/restconf/Server.cpp:1017-1026 | GET attaches the one receiver if and only if the caller may use the subscription and it is in Start; otherwise nothing changes |
| SubscriptionRuns.DisconnectFreesTheSubscription | src/restconf/DynamicSubscriptions.cpp:266-277 | when the receiver goes, no stream is open and, unless terminating, the subscription is in Start with a live timer |
| SubscriptionRuns.StopTerminatesAll | src/restconf/Server.cpp:886-896 | after Server::stop everything registered or attached is Terminating with its timer off |
| SubscriptionRuns.RegistryAgrees | src/restconf/DynamicSubscriptions.cpp:201-227 | in every reachable state both lookups agree for every user and the registry holds no destroyed subscription |
| SubscriptionRuns.StepRemovesExactly | src/restconf/DynamicSubscriptions.cpp:151-194 | a step removes an entry if and only if it is an authorised delete or kill of it, its own live timer, or the end of the registry |
| SubscriptionRuns.RemovalWasAuthorised | src/restconf/DynamicSubscriptions.cpp:120-227 | over a whole run, an entry that is gone was removed by such a step in between |
| GetRace.LeavesTerminatingIff | src/restconf/DynamicSubscriptions.cpp:279-344 | for every interleaving of check, connect, stop, terminate and disconnect, Terminating is left if and only if a connect follows a check that found Start with a stop or terminate between the two |
| GetRace.AtomicGetKeepsTerminating | src/restconf/Server.cpp:1017-1026 | if every connect directly follows its check, Terminating is never left |
| GetRace.StopBetweenCheckAndConnect | src/restconf/DynamicSubscriptions.cpp:279-285 | the interleaving that leaves it, for any subscription in Start |
| LockOrder.EveryPathIsOrdered | src/restconf/DynamicSubscriptions.cpp:112-227 | every code path takes the locks in the order registry, subscription, stream, and gives all of them back |
| LockOrder.EveryPathDoes | src/restconf/DynamicSubscriptions.cpp:112-416 | for every path an exact table of what it locks and uses while holding which locks |
| LockOrder.NoDeadlock | src/restconf/DynamicSubscriptions.cpp:259-416 | in every interleaving of any number of threads, while one waits for a lock or holds one, some thread can move |
| LockOrder.MutualExclusion | src/http/EventStream.cpp:48-56 | no lock has two holders and no thread waits for a lock it holds |
| LockOrder.EveryoneCanFinish | src/restconf/DynamicSubscriptions.cpp:259-416 | from every reachable state there is a schedule in which every thread finishes with no lock held |
| LockOrder.NoRace | src/restconf/DynamicSubscriptions.cpp:321-416 | in any interleaving of any number of threads without an expiring timer or a delete for a subscription, no two are about to use it at the same time |
| LockOrder.RaceIsReachable | src/restconf/DynamicSubscriptions.cpp:171-192 | either of these two has an interleaving with a disconnecting client in which both are |
| LockOrder.SafeIff | src/restconf/DynamicSubscriptions.cpp:171-192 | a code path is free of such races beside a disconnecting client if and only if it is neither of the two |
| UriPath.ParseAfterPrint | src/restconf/uri.cpp:34-68 | parsing a printed URI gives back its prefix and segments, for keys of arbitrary content and every encoder that encodes at least the reserved bytes, with digits of either case looked up in the list of hexadecimal digits |
| UriPath.HexByteIs | src/restconf/uri.cpp:34-39 | two characters are read as a byte if and only if they are its two hexadecimal digits, in either case |
| UriPath.ReservedCharacters | src/restconf/uri.cpp:41-43 | the reserved characters are the delimiters of section 2.2 of RFC 3986 and the percent sign |
| UriPath.ResourceNames | src/restconf/uri.cpp:56-66 | the four resources without a datastore, by name |
| UriPath.PrintAfterParse | src/restconf/uri.cpp:34-68 | whatever the grammar accepts is a printed form of the result, up to the one slash an empty path may end with |
| UriPath.EncodeIsAnEncoding | src/restconf/uri.cpp:39-45 | every key of bytes has an encoding |
| UriPath.JoinConcatenates | src/restconf/uri.cpp:816-827 | uriJoin of a printed path and a printed relative tail, with or without slashes at the seam, parses to the segments of both; an empty tail changes nothing |
| Fields.ParseIffPrinted | src/restconf/uri.cpp:164-173 | a string is accepted as an expression if and only if the expression has the grammar's shape and prints as that string, at any nesting depth |
| Fields.ReadExpr | src/restconf/uri.cpp:169-172 | a printed expression followed by anything that cannot continue it is read back exactly, despite the backtracking module prefix |
| FieldsXPath.Traverse | src/restconf/uri.cpp:758-791 | the traversal with the shared stack and the end flag appends, left to right, exactly the paths the expression denotes |
| FieldsXPath.FieldsToXPath | src/restconf/uri.cpp:798-814 | the result is the union of these paths if all of them lead to readable schema nodes, and otherwise the error of the first one that does not: not found, or what GET on its node is refused with |
| FieldsXPath.ProblemIs | src/restconf/uri.cpp:390-414 | a path is readable if and only if it leads to a data node; 405 for an operation, operation-failed for anything else or nothing |
| FieldsXPath.CompilationPreservesMeaning | src/restconf/uri.cpp:758-814 | for every expression, data tree and node, the union of the compiled paths selects the node if and only if the nested filter does |
| FieldsXPath.CompiledUnionReadsBack | src/restconf/uri.cpp:798-814 | the joined text, taken apart the way an XPath processor does, is the union of exactly the denoted paths below the resource, whatever its keys contain |
| FieldsXPath.CompiledTextReadsBack | src/restconf/uri.cpp:782-787 | the text of a compiled path reads back as the names and keys of the resource, whatever the keys contain, and the denoted names |
| FieldsXPath.ResourceSelects | src/restconf/uri.cpp:528-581 | on every data tree, evaluating the names and predicates of a translated path selects exactly the instances of its schema nodes with its key values |
| FieldsXPath.TextSelectsWhatTheFilterSelects | src/restconf/uri.cpp:758-814 | for every resource, expression and data tree, the text sent to sysrepo, read as a union of XPaths and evaluated from the root, selects a node if and only if the nested filter selects it below an instance of the resource |
| LibyangPath.ListKeyPredicate | src/restconf/utils/yang.cpp:43-54 | the two-iterator loop yields the predicates in order, or fails if a value cannot be quoted |
| LibyangPath.AsLibyangPath | src/restconf/uri.cpp:528-581 | the loop computes the walk: its path, its node and its errors |
| LibyangPath.ResolveIff | src/restconf/uri.cpp:361-387 | a name resolves to a node if and only if that is the first sibling of that name and of the module it says, which below the top level defaults to the parent's |
| LibyangPath.WalkSucceedsIff | src/restconf/uri.cpp:533-578 | a path is accepted if and only if there is a chain of schema nodes, each the first child of the one before that has the segment's name and the module it says (or else the parent's), with fitting keys without mixed quotes, and nothing below an RPC or action; it leads to the end of that chain; every other path is refused with operation-failed |
| LibyangPath.PathReadsBack | src/restconf/uri.cpp:546-569 | reading the produced text back recovers exactly the node names and key values |
| LibyangPath.PathLeadsBack | src/restconf/uri.cpp:361-387 | resolving the produced path from the root, unprefixed names inheriting the parent's module, reaches the same schema node |
| LibyangPath.SamePathIffSameSegments | src/restconf/uri.cpp:528-581 | two accepted inputs get the same path if and only if they name the same nodes with the same keys |
| LibyangPath.SplitRebuilds | src/restconf/uri.cpp:666-683 | when the full path translates, the split succeeds, its last segment names its module, and walking on with it from the parent rebuilds the full path and node |
| LibyangPath.SplitSucceedsIff | src/restconf/uri.cpp:666-683 | the split succeeds if and only if there is a last segment, its parent translates, and it names its module or the whole path translates; then it keeps name, keys and a given module; every failure is operation-failed |
| Requests.LogicErrorIsUnreachable | src/restconf/uri.cpp:615-658 | for every schema, method, URI and query the logic_error branch is not taken |
| Requests.RequestMeaning | src/restconf/uri.cpp:632-657 | every accepted request has the kind, datastore and path that its method and target determine, including the path of the root and of what is not data |
| Requests.AcceptedIff | src/restconf/uri.cpp:615-658 | exactly which requests are accepted, the query string included, and the status and error-tag of every refusal, in the order of the checks |
| Requests.AllowedIsExact | src/restconf/uri.cpp:390-461 | a known method other than OPTIONS is in the table of allowed methods of the resource if and only if the request with it is accepted |
| Requests.OptionsAgreesIff | src/restconf/uri.cpp:731-749 | the OPTIONS request is accepted if and only if the path resolves; OPTIONS is listed if and only if another method is; listing and acceptance agree if and only if the path does not resolve to a resource that offers nothing |
| Requests.UnknownDatastoreListsNothing | src/restconf/uri.cpp:731-749 | for an unknown datastore nothing is listed and the OPTIONS request is accepted |
| Requests.FiveSets | src/restconf/uri.cpp:731-749 | the allowed set is empty, {GET, HEAD, OPTIONS}, {OPTIONS, POST}, all but DELETE, or all seven |
| Requests.AllowedHttpMethodsForUri | src/restconf/uri.cpp:731-749 | the loop over the six methods yields exactly the set that the table gives |
| Nacm.AcceptedIffDocumented | src/auth/Nacm.cpp:36-87 | a configuration is accepted if and only if its first rule-list has the group and consists of read rules and establish-subscription rules followed by one that denies all operations in all modules |
| Nacm.ValidRulesDeny | src/auth/Nacm.cpp:46-87 | if the rules validate, the user is in the anonymous group and the last rule is unrestricted, the rule-list scan denies every request other than reads and establish-subscription, whatever later rule-lists say |
| Nacm.PromiseHoldsIffLastRuleUnrestricted | src/auth/Nacm.cpp:31-34 | for accepted configurations this holds for all requests and all later rule-lists if and only if the last rule has no rule-type |
| Nacm.RestrictedLastRuleLeaks | src/auth/Nacm.cpp:31-34 | with a restricted last rule, a concrete request is permitted by a later rule-list |
| Nacm.AnonymousAccess.OnModuleChange | src/auth/Nacm.cpp:98-103 | the flag follows the configuration announced last |
| Nacm.AnonymousAccess.Authorize | src/auth/Nacm.cpp:110-120 | the anonymous user is let in if and only if the configuration announced last validates; everyone else is |
| Nacm.AnonymousIsConfined | src/auth/Nacm.cpp:98-120 | while the anonymous user is let in, the configuration in force denies what is not tolerated, given an unrestricted last rule |
| Accept.ComparatorIsStrictWeakOrder | src/http/utils.cpp:106-122 | the comparator is a strict weak order: higher quality first, then the more specific type |
| Accept.PreferenceIsStableSort | src/http/utils.cpp:102-122 | the order is a stable, sorted permutation of the entries whose quality is not 0 |
| Accept.PreferenceIsUnique | src/http/utils.cpp:105-122 | there is exactly one such order |
| Accept.RemoveUnacceptable | src/http/utils.cpp:102-103 | exactly the entries with quality 0 go, the others keep their order |
| Accept.StableSort | src/http/utils.cpp:105-122 | the sorted vector is the one of the stable order |
| Accept.ParseAcceptHeader | src/http/utils.cpp:77-130 | the media types in order of preference; none for a header that does not parse or has an unusable q |
| Accept.QualityIs | src/http/utils.cpp:24-33 | the quality of a member is v if and only if v is the number in its first parameter named q or Q, or it has none and v is 1 |
| Accept.EntriesAre | src/http/utils.cpp:90-103 | a header that parses and whose q parameters are all numbers gives one entry per member, and any other gives none |
| Accept.SupportedTypes | src/restconf/utils/dataformat.cpp:23-55 | which media types and wildcards, in any case, stand for JSON, for XML and for nothing in an Accept header |
| Accept.RequestTypes | src/restconf/utils/dataformat.cpp:43-55 | the two names of each format for a request body, in any case, and no wildcards |
| Accept.BestEntryWins | src/restconf/utils/dataformat.cpp:79-93 | the first supported type in preference order comes from an acceptable entry that no other acceptable entry beats in quality, specificity and header order; there is none exactly when no entry is acceptable |
| Accept.ResponseIsBestAccepted | src/restconf/utils/dataformat.cpp:79-110 | the answer is 406 if and only if some entry has nonzero quality and none is acceptable; otherwise the response has the format of the best entry, and without entries that of the request, or JSON |
| Accept.ResponseFollowsHeader | src/http/utils.cpp:24-130 | the same on the members of the Accept header, judged by their q parameters, specificity and position |
| Accept.UnusableHeaderIsIgnored | src/http/utils.cpp:77-100 | a header that does not parse or has an unusable q is as good as none |
| Accept.RequestIsLeastPreferred | src/restconf/utils/dataformat.cpp:66-105 | the request format is that of the least preferred entry of the Content-Type list, and 415 exactly if that is of no known type |
| Accept.NoContentType | src/restconf/utils/dataformat.cpp:66-105 | without entries of nonzero quality the request has no format and is not refused for it |
| Accept.BackIffLeastPreferred | src/restconf/utils/dataformat.cpp:74-76 | the Content-Type entry used is the one that every other entry of nonzero quality is preferred to |
| Accept.LastMemberIsUsedIff | src/restconf/utils/dataformat.cpp:74-76 | it is the last member of the header if and only if that has nonzero quality and every other such member has a higher quality, or the same and a type at least as specific |
| Accept.FirstMemberMayBeUsed | src/restconf/utils/dataformat.cpp:74-76 | two members of which the first one is used |
| Accept.ChooseDataEncoding | src/restconf/utils/dataformat.cpp:60-111 | both encodings, with the errors 406 and 415, from the two headers |

## Left out

- PAM, Basic authentication and base64: foreign calls.
- sysrepo and libyang themselves (datastore edits, canonical key values, XPath evaluation beyond child steps with key predicates, schema choice and case nodes): they appear as fresh ids, a schema tree, a lookup function and failures.
- YANG Patch, PUT and PATCH body checks, the data-tree surgery around them, response formatting, CORS and logging: plumbing over libyang.
- Query parameters other than `fields`: easy grammars; whether the query string is acceptable is a parameter of the classification.
- Parsing of the Accept header into entries and std::stod: the entries and the number function are inputs; qualities are reals, and "type/subtype" is kept as a pair instead of being joined and split again.
- Forwarded headers, date-time syntax, depth numerals, stream URIs, YANG library locations and module revisions: easy members.
- Timer durations, the ping schedule and network liveness: a ping is an ordinary enqueue.
- EventStreams.EventStream.Close: does not model the cancelling of the ping timer, because pings are enqueues at any time; one after the close is refused like any other.
- Subscriptions.DynamicSubscriptions.EstablishSubscription: does not model the text of the returned URI, filters, times and replay, because they are plain printing or handed to sysrepo.
- UTF-8 decoding and the byte order mark in the SSE reader: it works on bytes, and no frame starts with a byte order mark.
- Locks inside Boost.Signals2, asio and sysrepo: only the three mutexes of the program are modelled.
- Steps 1 to 3 of section 3.4.4 of RFC 8341 (NACM disabled, recovery session, close-session) and the defaults after the scan: the statements are about the scan of the rule-lists.
- The second, direct call of sysrepo's terminate in deleteSubscription is not counted by the subscription's own counter; the statement "at most once" is about SubscriptionData::terminate.
