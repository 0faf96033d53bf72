/**
Classifying a RESTCONF request: which methods a resource accepts and what a request asks for.
*/
module Requests {
  import opened Common
  import opened UriPath
  import opened LibyangPath

  datatype Method = GET | PUT | POST | DELETE | HEAD | OPTIONS | PATCH | UnknownMethod

  datatype RequestType =
    | GetData | CreateOrReplaceThisNode | DeleteNode | Execute | ExecuteInternal | CreateChildren
    | GetYangLibraryVersion | OptionsQuery | MergeData | GetRestconfRoot | ListRpc

  datatype Request = Request(kind: RequestType, datastore: Option<ApiIdentifier>, path: string)

  /** An ErrorResponse goes to the client; a LogicError would be a bug of the server. */
  datatype Failure = Response(error: ErrorResponse) | LogicError

  const METHOD_NOT_ALLOWED := ErrorResponse(405, "operation-not-supported")

  predicate IsDataPrefix(p: Prefix) {
    p == BasicRestconfData || p.NmdaDatastore?
  }

  function CheckValidDataResource(n: SchemaNode, p: Prefix): Option<ErrorResponse> {
    if !IsDataPrefix(p) then Some(OPERATION_FAILED)
    else match n.kind
      case Container | Leaf | AnyXml | AnyData | LeafList | List => None
      case Rpc | Action => Some(METHOD_NOT_ALLOWED)
      case OtherKind => Some(OPERATION_FAILED)
  }

  const OPERATIONAL := ApiIdentifier(Some("ietf-datastores"), "operational")

  function ValidateMethodForNode(m: Method, p: Prefix, n: Option<SchemaNode>): Option<ErrorResponse> {
    if m == OPTIONS then None
    else if n.None? then
      match p
      case BasicRestconfData | NmdaDatastore(_) => if m == DELETE then Some(OPERATION_FAILED) else None
      case RestconfRoot | BasicRestconfOperations | YangLibraryVersion =>
        if m != GET && m != HEAD then Some(METHOD_NOT_ALLOWED) else None
    else if m == POST then
      match n.value.kind
      case Rpc => if p != BasicRestconfOperations then Some(OPERATION_FAILED) else None
      case Action =>
        if p != BasicRestconfData && p != NmdaDatastore(OPERATIONAL) then Some(OPERATION_FAILED) else None
      case _ => CheckValidDataResource(n.value, p)
    else CheckValidDataResource(n.value, p)
  }

  const SUPPORTED_DATASTORES: set<string> := {
    "ietf-datastores:running", "ietf-datastores:operational", "ietf-datastores:candidate",
    "ietf-datastores:startup", "ietf-datastores:factory-default"
  }

  const INTERNAL_RPCS: set<string> := {
    "/ietf-subscribed-notifications:establish-subscription", "/ietf-subscribed-notifications:modify-subscription",
    "/ietf-subscribed-notifications:delete-subscription", "/ietf-subscribed-notifications:kill-subscription"
  }

  /** The RestconfRequest constructor: fails for a datastore that sysrepo does not know. */
  function MakeRequest(kind: RequestType, p: Prefix, path: string): Result<Request, Failure> {
    match p
    case NmdaDatastore(ds) =>
      if Name(ds) in SUPPORTED_DATASTORES then Ok(Request(kind, Some(ds), path)) else Err(Response(OPERATION_FAILED))
    case _ => Ok(Request(kind, None, path))
  }

  predicate IsOperation(n: SchemaNode) {
    n.kind == Rpc || n.kind == Action
  }

  /**
  The case distinction of asRestconfRequest. A node's schema path is one of the internal RPCs exactly
  when its data path is, since both are "/module:name" for a top-level RPC and longer for anything else.
  */
  function Classify(m: Method, p: Prefix, w: Walked, atRoot: bool): Result<Request, Failure> {
    var n := w.node;
    var path := if atRoot then "/" else w.path;
    if m == OPTIONS then Ok(Request(OptionsQuery, None, ""))
    else if p == RestconfRoot then Ok(Request(GetRestconfRoot, None, ""))
    else if p == YangLibraryVersion then Ok(Request(GetYangLibraryVersion, None, ""))
    else if p == BasicRestconfOperations && n.None? then Ok(Request(ListRpc, None, ""))
    else if m == GET || m == HEAD then MakeRequest(GetData, p, if atRoot then "/*" else path)
    else if m == PUT then MakeRequest(CreateOrReplaceThisNode, p, path)
    else if m == DELETE && n.Some? then MakeRequest(DeleteNode, p, path)
    else if m == POST && n.Some? && IsOperation(n.value) then
      MakeRequest(if w.path in INTERNAL_RPCS then ExecuteInternal else Execute, p, path)
    else if m == POST && IsDataPrefix(p) then MakeRequest(CreateChildren, p, path)
    else if m == PATCH then MakeRequest(MergeData, p, path)
    else Err(LogicError)
  }

  /** asRestconfRequest; `queryOk` says whether the query string parses and is valid for the method. */
  function AsRestconfRequest(top: seq<SchemaNode>, m: Method, uriPath: string, queryOk: bool): Result<Request, Failure>
  {
    if m == UnknownMethod then Err(Response(METHOD_NOT_ALLOWED))
    else
      var uri := ParseUri(uriPath);
      if uri.None? then Err(Response(ErrorResponse(400, "invalid-value")))
      else if !queryOk then Err(Response(ErrorResponse(400, "invalid-value")))
      else
        var w := Walk(top, None, uri.value.segments);
        if w.Err? then Err(Response(w.error))
        else
          var invalid := ValidateMethodForNode(m, uri.value.prefix, w.value.node);
          if invalid.Some? then Err(Response(invalid.value))
          else Classify(m, uri.value.prefix, w.value, uri.value.segments == [])
  }

  /** A walk ends at a node exactly when there was something to walk along. */
  lemma {:induction false} WalkEndsAtNode(top: seq<SchemaNode>, at: Option<SchemaNode>, segs: seq<Segment>)
    requires Walk(top, at, segs).Ok?
    ensures Walk(top, at, segs).value.node.Some? <==> segs != [] || at.Some?
    decreases |segs|
  {
    if segs == [] {
    } else {
      WalkUnroll(top, at, segs);
      WalkEndsAtNode(top, Resolve(top, at, segs[0].ident), segs[1..]);
    }
  }

  /** Every combination that passes the validation is classified. */
  lemma NoLogicError(m: Method, p: Prefix, w: Walked, atRoot: bool)
    requires m != UnknownMethod && ValidateMethodForNode(m, p, w.node).None?
    ensures Classify(m, p, w, atRoot) != Err(LogicError)
  {
  }

  lemma LogicErrorIsUnreachable(top: seq<SchemaNode>, m: Method, uriPath: string, queryOk: bool)
    ensures AsRestconfRequest(top, m, uriPath, queryOk) != Err(LogicError)
  {
    var uri := ParseUri(uriPath);
    if m != UnknownMethod && uri.Some? {
      var w := Walk(top, None, uri.value.segments);
      if w.Ok? && ValidateMethodForNode(m, uri.value.prefix, w.value.node).None? {
        NoLogicError(m, uri.value.prefix, w.value, uri.value.segments == []);
      }
    }
  }

  /** The RPCs of the subscription machinery, which the server handles by itself. */
  predicate HandledHere(path: string) {
    || path == "/ietf-subscribed-notifications:establish-subscription"
    || path == "/ietf-subscribed-notifications:modify-subscription"
    || path == "/ietf-subscribed-notifications:delete-subscription"
    || path == "/ietf-subscribed-notifications:kill-subscription"
  }

  predicate KnownToSysrepo(ds: ApiIdentifier) {
    || Name(ds) == "ietf-datastores:running" || Name(ds) == "ietf-datastores:operational"
    || Name(ds) == "ietf-datastores:candidate" || Name(ds) == "ietf-datastores:startup"
    || Name(ds) == "ietf-datastores:factory-default"
  }

  /** What an accepted request asks for, told from its method and target alone. */
  predicate Means(m: Method, p: Prefix, w: Walked, q: Request) {
    && (q.kind == GetData <==> m in {GET, HEAD} && IsDataPrefix(p))
    && (q.kind == GetRestconfRoot <==> p == RestconfRoot)
    && (q.kind == GetYangLibraryVersion <==> p == YangLibraryVersion)
    && (q.kind == ListRpc <==> p == BasicRestconfOperations && w.node.None?)
    && (q.kind == CreateOrReplaceThisNode <==> m == PUT)
    && (q.kind == MergeData <==> m == PATCH)
    && (q.kind == DeleteNode <==> m == DELETE)
    && (q.kind in {Execute, ExecuteInternal} <==> w.node.Some? && IsOperation(w.node.value))
    && (q.kind == ExecuteInternal ==> HandledHere(w.path))
    && (q.kind == Execute ==> !HandledHere(w.path))
    && (q.kind == CreateChildren <==> m == POST && (w.node.Some? ==> !IsOperation(w.node.value)))
    && (q.datastore.Some? <==> p.NmdaDatastore?)
    && (q.datastore.Some? ==> q.datastore.value == p.datastore && KnownToSysrepo(p.datastore))
    && q.path == match w.node
                 case Some(_) => w.path
                 case None => if !IsDataPrefix(p) then "" else if m in {GET, HEAD} then "/*" else "/"
  }

  lemma AcceptedRequestMeans(m: Method, p: Prefix, w: Walked, atRoot: bool)
    requires m != UnknownMethod && m != OPTIONS
    requires w.node.Some? ==> p != RestconfRoot && p != YangLibraryVersion
    requires w.node.None? <==> atRoot
    requires ValidateMethodForNode(m, p, w.node).None? && Classify(m, p, w, atRoot).Ok?
    ensures Means(m, p, w, Classify(m, p, w, atRoot).value)
  {
  }

  /** Every accepted request is what its method and target say it is. */
  lemma RequestMeaning(top: seq<SchemaNode>, m: Method, uriPath: string, queryOk: bool)
    requires AsRestconfRequest(top, m, uriPath, queryOk).Ok?
    ensures var uri, q := ParseUri(uriPath), AsRestconfRequest(top, m, uriPath, queryOk).value;
            && uri.Some? && var w := Walk(top, None, uri.value.segments);
            && w.Ok?
            && if m == OPTIONS then q == Request(OptionsQuery, None, "") else Means(m, uri.value.prefix, w.value, q)
  {
    if m != OPTIONS {
      var uri := ParseUri(uriPath).value;
      var es := PrintAfterParse(uriPath);
      WalkEndsAtNode(top, None, uri.segments);
      AcceptedRequestMeans(m, uri.prefix, Walk(top, None, uri.segments).value, uri.segments == []);
    }
  }

  // ----- the Allow header -----

  const READ_ONLY: set<Method> := {GET, HEAD, OPTIONS}
  const INVOKE: set<Method> := {POST, OPTIONS}
  const NO_DELETE: set<Method> := {GET, PUT, POST, HEAD, PATCH, OPTIONS}
  const ALL_SEVEN: set<Method> := {GET, PUT, POST, DELETE, HEAD, PATCH, OPTIONS}

  /** What the resource is decides what is allowed on it. */
  function AllowedFor(p: Prefix, n: Option<SchemaNode>): set<Method> {
    if p.NmdaDatastore? && Name(p.datastore) !in SUPPORTED_DATASTORES then {}
    else if n.None? then if IsDataPrefix(p) then NO_DELETE else READ_ONLY
    else match n.value.kind
      case Rpc => if p == BasicRestconfOperations then INVOKE else {}
      case Action => if p == BasicRestconfData || p == NmdaDatastore(OPERATIONAL) then INVOKE else {}
      case OtherKind => {}
      case _ => if IsDataPrefix(p) then ALL_SEVEN else {}
  }

  function Allowed(top: seq<SchemaNode>, uriPath: string): set<Method> {
    var uri := ParseUri(uriPath);
    if uri.None? then {}
    else
      var w := Walk(top, None, uri.value.segments);
      if w.Err? then {} else AllowedFor(uri.value.prefix, w.value.node)
  }

  lemma AllowedIffClassified(m: Method, p: Prefix, w: Walked, atRoot: bool)
    requires m != UnknownMethod && m != OPTIONS && (w.node.Some? ==> p != RestconfRoot && p != YangLibraryVersion)
    ensures m in AllowedFor(p, w.node)
            <==> ValidateMethodForNode(m, p, w.node).None? && Classify(m, p, w, atRoot).Ok?
  {
  }

  /** A method other than OPTIONS is allowed exactly when the request with it would be accepted. */
  lemma AllowedIsExact(top: seq<SchemaNode>, m: Method, uriPath: string)
    requires m != UnknownMethod && m != OPTIONS
    ensures m in Allowed(top, uriPath) <==> AsRestconfRequest(top, m, uriPath, true).Ok?
  {
    var uri := ParseUri(uriPath);
    if uri.Some? {
      var es := PrintAfterParse(uriPath);
      var w := Walk(top, None, uri.value.segments);
      if w.Ok? {
        WalkEndsAtNode(top, None, uri.value.segments);
        AllowedIffClassified(m, uri.value.prefix, w.value, uri.value.segments == []);
      }
    }
  }

  /** The refusals that are told as "method not allowed" and not as a failed operation. */
  predicate IsMethodNotAllowed(m: Method, p: Prefix, n: Option<SchemaNode>) {
    match n
    case None => !IsDataPrefix(p) && m !in {GET, HEAD}
    case Some(node) => IsOperation(node) && IsDataPrefix(p) && m != POST
  }

  lemma RefusalOf(m: Method, p: Prefix, w: Walked, atRoot: bool)
    requires m != UnknownMethod && m != OPTIONS && (w.node.Some? ==> p != RestconfRoot && p != YangLibraryVersion)
    requires m !in AllowedFor(p, w.node)
    ensures var refusal := if IsMethodNotAllowed(m, p, w.node) then METHOD_NOT_ALLOWED else OPERATION_FAILED;
            var invalid := ValidateMethodForNode(m, p, w.node);
            invalid == Some(refusal) || (invalid.None? && Classify(m, p, w, atRoot) == Err(Response(refusal)))
  {
  }

  /**
  Exactly which requests are accepted, and what the others are refused with. The order matters: an unknown
  method, then a malformed path or query, then a path that leads nowhere, then what the resource takes.
  */
  lemma AcceptedIff(top: seq<SchemaNode>, m: Method, uriPath: string, queryOk: bool)
    ensures var r, uri := AsRestconfRequest(top, m, uriPath, queryOk), ParseUri(uriPath);
            if m == UnknownMethod then r == Err(Response(ErrorResponse(405, "operation-not-supported")))
            else if uri.None? || !queryOk then r == Err(Response(ErrorResponse(400, "invalid-value")))
            else
              var p, w := uri.value.prefix, Walk(top, None, uri.value.segments);
              if w.Err? then r == Err(Response(ErrorResponse(400, "operation-failed")))
              else if m == OPTIONS || m in AllowedFor(p, w.value.node) then r.Ok?
              else if IsMethodNotAllowed(m, p, w.value.node)
              then r == Err(Response(ErrorResponse(405, "operation-not-supported")))
              else r == Err(Response(ErrorResponse(400, "operation-failed")))
  {
    var uri := ParseUri(uriPath);
    if m != UnknownMethod && uri.Some? && queryOk {
      var p, w := uri.value.prefix, Walk(top, None, uri.value.segments);
      WalkSucceedsIff(top, None, uri.value.segments);
      if w.Ok? && m != OPTIONS {
        AllowedIsExact(top, m, uriPath);
        if m !in AllowedFor(p, w.value.node) {
          var es := PrintAfterParse(uriPath);
          WalkEndsAtNode(top, None, uri.value.segments);
          RefusalOf(m, p, w.value, uri.value.segments == []);
        }
      }
    }
  }

  /**
  The resources that resolve but take no request: anything in a datastore that sysrepo does not know, and
  nodes that are not what their place is for.
  */
  predicate OffersNothing(p: Prefix, n: Option<SchemaNode>) {
    || (p.NmdaDatastore? && !KnownToSysrepo(p.datastore))
    || (n.Some? && match n.value.kind
          case Rpc => p != BasicRestconfOperations
          case Action =>
            p != BasicRestconfData && p != NmdaDatastore(ApiIdentifier(Some("ietf-datastores"), "operational"))
          case OtherKind => true
          case _ => !IsDataPrefix(p))
  }

  /** The path is well-formed and names something in the schema, but nothing that takes requests. */
  predicate ResolvesToNothingOffered(top: seq<SchemaNode>, uriPath: string) {
    var uri := ParseUri(uriPath);
    && uri.Some?
    && var w := Walk(top, None, uri.value.segments);
    && w.Ok? && OffersNothing(uri.value.prefix, w.value.node)
  }

  lemma OffersNothingIffEmpty(p: Prefix, n: Option<SchemaNode>)
    ensures OPTIONS in AllowedFor(p, n) <==> !OffersNothing(p, n)
    ensures AllowedFor(p, n) == {} <==> OffersNothing(p, n)
  {
  }

  /**
  The OPTIONS request is accepted for every path that resolves. The list contains OPTIONS, and then other
  methods too, unless the resource offers nothing; so list and acceptance agree exactly then.
  */
  lemma OptionsAgreesIff(top: seq<SchemaNode>, uriPath: string)
    ensures AsRestconfRequest(top, OPTIONS, uriPath, true).Ok?
            <==> ParseUri(uriPath).Some? && Walk(top, None, ParseUri(uriPath).value.segments).Ok?
    ensures OPTIONS in Allowed(top, uriPath) <==> exists m :: m != OPTIONS && m in Allowed(top, uriPath)
    ensures (OPTIONS in Allowed(top, uriPath) <==> AsRestconfRequest(top, OPTIONS, uriPath, true).Ok?)
            <==> !ResolvesToNothingOffered(top, uriPath)
  {
    var uri := ParseUri(uriPath);
    if uri.Some? {
      var w := Walk(top, None, uri.value.segments);
      if w.Ok? {
        OffersNothingIffEmpty(uri.value.prefix, w.value.node);
      }
    }
    if OPTIONS in Allowed(top, uriPath) {
      assert GET in Allowed(top, uriPath) || POST in Allowed(top, uriPath);
    }
  }

  const UNKNOWN_DATASTORE := ApiIdentifier(Some("x"), "y")

  lemma PrintedUnknownDatastore()
    ensures ValidUri(Uri(NmdaDatastore(UNKNOWN_DATASTORE), []))
    ensures PrintUri(NmdaDatastore(UNKNOWN_DATASTORE), []) == "/restconf/ds/x:y"
    ensures Name(UNKNOWN_DATASTORE) !in SUPPORTED_DATASTORES
  {
    assert Name(UNKNOWN_DATASTORE) == "x:y";
    assert |Name(UNKNOWN_DATASTORE)| == 3;
  }

  /** A datastore nobody knows: nothing is listed, yet the OPTIONS request is accepted. */
  lemma UnknownDatastoreListsNothing(top: seq<SchemaNode>)
    ensures Allowed(top, "/restconf/ds/x:y") == {}
    ensures AsRestconfRequest(top, OPTIONS, "/restconf/ds/x:y", true).Ok?
  {
    PrintedUnknownDatastore();
    ParseAfterPrint(NmdaDatastore(UNKNOWN_DATASTORE), [], []);
  }

  /** The set is always one of five. */
  lemma FiveSets(top: seq<SchemaNode>, uriPath: string)
    ensures Allowed(top, uriPath) in {{}, READ_ONLY, INVOKE, NO_DELETE, ALL_SEVEN}
  {
  }

  lemma AddOptions(target: set<Method>, six: set<Method>)
    requires target in {{}, READ_ONLY, INVOKE, NO_DELETE, ALL_SEVEN}
    requires six == target * {GET, PUT, POST, DELETE, HEAD, PATCH}
    ensures target == if six == {} then {} else six + {OPTIONS}
  {
    if target != {} {
      assert GET in six || POST in six;
    }
  }

  function SetOf(ms: seq<Method>): set<Method> {
    if ms == [] then {} else SetOf(ms[..|ms| - 1]) + {ms[|ms| - 1]}
  }

  lemma SetOfSnoc(ms: seq<Method>, m: Method)
    ensures SetOf(ms + [m]) == SetOf(ms) + {m}
  {
    assert (ms + [m])[..|ms|] == ms;
  }

  lemma {:induction false} SetOfHas(ms: seq<Method>, m: Method)
    ensures m in SetOf(ms) <==> m in ms
    decreases |ms|
  {
    if ms == [] {
    } else {
      SetOfHas(ms[..|ms| - 1], m);
      assert ms == ms[..|ms| - 1] + [ms[|ms| - 1]];
    }
  }

  lemma SixMethods()
    ensures SetOf([GET, PUT, POST, DELETE, HEAD, PATCH]) == {GET, PUT, POST, DELETE, HEAD, PATCH}
  {
    var six := [GET, PUT, POST, DELETE, HEAD, PATCH];
    forall m: Method ensures m in SetOf(six) <==> m in six {
      SetOfHas(six, m);
    }
  }

  /** One attempt of the loop: whether the request is accepted with this method and an empty query. */
  method TryMethod(top: seq<SchemaNode>, m: Method, uriPath: string) returns (accepted: bool)
    requires m != UnknownMethod && m != OPTIONS
    ensures accepted <==> m in Allowed(top, uriPath)
  {
    AllowedIsExact(top, m, uriPath);
    accepted := AsRestconfRequest(top, m, uriPath, true).Ok?;
  }

  method TryMethods(top: seq<SchemaNode>, candidates: seq<Method>, uriPath: string) returns (allowed: set<Method>)
    requires forall i | 0 <= i < |candidates| :: candidates[i] != UnknownMethod && candidates[i] != OPTIONS
    ensures allowed == Allowed(top, uriPath) * SetOf(candidates)
  {
    allowed := {};
    for i := 0 to |candidates|
      invariant allowed == Allowed(top, uriPath) * SetOf(candidates[..i])
    {
      var accepted := TryMethod(top, candidates[i], uriPath);
      if accepted {
        allowed := allowed + {candidates[i]};
      }
      SetOfSnoc(candidates[..i], candidates[i]);
      assert candidates[..i + 1] == candidates[..i] + [candidates[i]];
    }
    assert candidates[..|candidates|] == candidates;
  }

  /** allowedHttpMethodsForUri: try the six methods, then add OPTIONS if any was accepted. */
  method AllowedHttpMethodsForUri(top: seq<SchemaNode>, uriPath: string) returns (allowed: set<Method>)
    ensures allowed == Allowed(top, uriPath)
  {
    allowed := TryMethods(top, [GET, PUT, POST, DELETE, HEAD, PATCH], uriPath);
    SixMethods();
    FiveSets(top, uriPath);
    AddOptions(Allowed(top, uriPath), allowed);
    if allowed != {} {
      allowed := allowed + {OPTIONS};
    }
  }
}
