/**
Translating path segments to a libyang path against a schema tree, reading such a path back, and
splitting off its last segment.

The schema is a finite tree without choice and case nodes, so a node's parent is its data parent.
*/
module LibyangPath {
  import opened Common
  import opened UriPath

  datatype Kind = Container | Leaf | AnyXml | AnyData | LeafList | List | Rpc | Action | OtherKind

  datatype SchemaNode = SchemaNode(mod: string, name: string, kind: Kind, keys: seq<string>, children: seq<SchemaNode>)

  const OPERATION_FAILED := ErrorResponse(400, "operation-failed")

  /** YANG names are identifiers. */
  predicate WellNamed(n: SchemaNode)
    decreases n
  {
    && IsIdentifier(n.mod) && IsIdentifier(n.name)
    && (forall i | 0 <= i < |n.keys| :: IsIdentifier(n.keys[i]))
    && (forall i | 0 <= i < |n.children| :: WellNamed(n.children[i]))
  }

  predicate AllWellNamed(nodes: seq<SchemaNode>) {
    forall i | 0 <= i < |nodes| :: WellNamed(nodes[i])
  }

  // ----- list keys -----

  function EscapeListKey(k: string): Option<string> {
    if '\'' in k && '\"' in k then None
    else if '\'' in k then Some("\"" + (k + "\""))
    else Some("'" + (k + "'"))
  }

  /** One predicate: the name of the key leaf, or "." for a leaf-list, and the quoted value. */
  function Predicate(name: string, value: string): Option<string> {
    var quoted := EscapeListKey(value);
    if quoted.None? then None else Some("[" + (name + ("=" + (quoted.value + "]"))))
  }

  function Predicates(names: seq<string>, values: seq<string>): Option<string>
    requires |names| == |values|
  {
    if names == [] then Some("")
    else
      var p, ps := Predicate(names[0], values[0]), Predicates(names[1..], values[1..]);
      if p.None? || ps.None? then None else Some(p.value + ps.value)
  }

  lemma {:induction false} PredicatesSnoc(names: seq<string>, values: seq<string>, i: nat)
    requires |names| == |values| && i < |names|
    ensures Predicates(names[..i + 1], values[..i + 1]) ==
            var ps, p := Predicates(names[..i], values[..i]), Predicate(names[i], values[i]);
            if ps.None? || p.None? then None else Some(ps.value + p.value)
    decreases i
  {
    if i == 0 {
      assert names[..1] == [names[0]] && values[..1] == [values[0]];
      assert names[..1][1..] == [] == values[..1][1..];
      var p := Predicate(names[0], values[0]);
      if p.Some? {
        assert p.value + "" == p.value == "" + p.value;
      }
    } else {
      PredicatesSnoc(names[1..], values[1..], i - 1);
      assert names[1..][..i] == names[..i + 1][1..] && values[1..][..i] == values[..i + 1][1..];
      assert names[1..][..i - 1] == names[..i][1..] && values[1..][..i - 1] == values[..i][1..];
      var a, c := Predicate(names[0], values[0]), Predicate(names[i], values[i]);
      var b := Predicates(names[..i][1..], values[..i][1..]);
      if a.Some? && b.Some? && c.Some? {
        Associative(a.value, b.value, c.value);
      }
    }
  }

  lemma {:induction false} PredicatesFailEarly(names: seq<string>, values: seq<string>, i: nat)
    requires |names| == |values| && i <= |names|
    ensures Predicates(names[..i], values[..i]).None? ==> Predicates(names, values).None?
    decreases |names| - i
  {
    if i == |names| {
      assert names[..i] == names && values[..i] == values;
    } else {
      PredicatesSnoc(names, values, i);
      PredicatesFailEarly(names, values, i + 1);
    }
  }

  /** listKeyPredicate: the loop over key leafs and key values. */
  method ListKeyPredicate(names: seq<string>, values: seq<string>) returns (r: Option<string>)
    requires |names| == |values|
    ensures r == Predicates(names, values)
  {
    var res := "";
    var i := 0;
    assert names[..0] == [] && values[..0] == [];
    while i < |names|
      invariant i <= |names|
      invariant Predicates(names[..i], values[..i]) == Some(res)
    {
      var p := EscapeListKey(values[i]);
      PredicatesSnoc(names, values, i);
      if p.None? {
        PredicatesFailEarly(names, values, i + 1);
        return None;
      }
      res := res + ("[" + (names[i] + ("=" + (p.value + "]"))));
      i := i + 1;
    }
    assert names[..i] == names && values[..i] == values;
    r := Some(res);
  }

  // ----- the walk -----

  /** The first node of that module and name. */
  function FindIn(nodes: seq<SchemaNode>, mod: string, name: string): (r: Option<SchemaNode>)
    ensures r.Some? ==> r.value.mod == mod && r.value.name == name && r.value in nodes
  {
    if nodes == [] then None
    else if nodes[0].name == name && nodes[0].mod == mod then Some(nodes[0])
    else FindIn(nodes[1..], mod, name)
  }

  /** Top level: the module must be named. Below: it defaults to the parent's. */
  function Resolve(top: seq<SchemaNode>, at: Option<SchemaNode>, i: ApiIdentifier): Option<SchemaNode> {
    if at.Some? then FindIn(at.value.children, if i.prefix.None? then at.value.mod else i.prefix.value, i.name)
    else if i.prefix.Some? then FindIn(top, i.prefix.value, i.name)
    else None
  }

  /** The schema nodes among which a name is looked for. */
  function Siblings(top: seq<SchemaNode>, at: Option<SchemaNode>): seq<SchemaNode> {
    if at.Some? then at.value.children else top
  }

  /** `i` names `n` below `at`: the same name in the module it says, which is the parent's if it says none. */
  predicate IsNamed(at: Option<SchemaNode>, i: ApiIdentifier, n: SchemaNode) {
    && n.name == i.name
    && match i.prefix
       case Some(mod) => n.mod == mod
       case None => at.Some? && n.mod == at.value.mod
  }

  predicate IsFirstNamed(nodes: seq<SchemaNode>, at: Option<SchemaNode>, i: ApiIdentifier, k: nat) {
    && k < |nodes| && IsNamed(at, i, nodes[k])
    && forall j | 0 <= j < k :: !IsNamed(at, i, nodes[j])
  }

  /** `n` is the child of `at`, or the top-level node, that `i` names. */
  predicate LeadsTo(top: seq<SchemaNode>, at: Option<SchemaNode>, i: ApiIdentifier, n: SchemaNode) {
    exists k | 0 <= k < |Siblings(top, at)| :: IsFirstNamed(Siblings(top, at), at, i, k) && Siblings(top, at)[k] == n
  }

  lemma {:induction false} FindInIsFirst(nodes: seq<SchemaNode>, at: Option<SchemaNode>, i: ApiIdentifier, mod: string)
    returns (k: nat)
    requires i.prefix == Some(mod) || (i.prefix.None? && at.Some? && at.value.mod == mod)
    ensures k <= |nodes| && forall j | 0 <= j < k :: !IsNamed(at, i, nodes[j])
    ensures FindIn(nodes, mod, i.name) == if k < |nodes| then Some(nodes[k]) else None
    ensures k < |nodes| ==> IsNamed(at, i, nodes[k])
    decreases |nodes|
  {
    if nodes == [] || IsNamed(at, i, nodes[0]) {
      k := 0;
    } else {
      k := FindInIsFirst(nodes[1..], at, i, mod);
      assert forall j | 0 < j <= k :: nodes[j] == nodes[1..][j - 1];
      k := k + 1;
    }
  }

  /** Resolving finds exactly what the name leads to. */
  lemma ResolveIff(top: seq<SchemaNode>, at: Option<SchemaNode>, i: ApiIdentifier, n: SchemaNode)
    ensures Resolve(top, at, i) == Some(n) <==> LeadsTo(top, at, i, n)
  {
    var nodes := Siblings(top, at);
    if i.prefix.None? && at.None? {
      assert forall k | 0 <= k < |nodes| :: !IsNamed(at, i, nodes[k]);
    } else {
      var k := FindInIsFirst(nodes, at, i, if i.prefix.Some? then i.prefix.value else at.value.mod);
      if k < |nodes| {
        assert IsFirstNamed(nodes, at, i, k);
      }
    }
  }

  function MaybeQualified(at: Option<SchemaNode>, n: SchemaNode): string {
    if at.None? || at.value.mod != n.mod then n.mod + ":" + n.name else n.name
  }

  function KeysFor(n: SchemaNode, keys: seq<string>): Result<string, ErrorResponse> {
    match n.kind
    case List =>
      if |n.keys| == 0 || |keys| != |n.keys| then Err(OPERATION_FAILED)
      else
        var ps := Predicates(n.keys, keys);
        if ps.None? then Err(OPERATION_FAILED) else Ok(ps.value)
    case LeafList =>
      if |keys| != 1 then Err(OPERATION_FAILED)
      else
        var p := Predicate(".", keys[0]);
        if p.None? then Err(OPERATION_FAILED) else Ok(p.value)
    case _ => if |keys| > 0 then Err(OPERATION_FAILED) else Ok("")
  }

  datatype Walked = Walked(path: string, node: Option<SchemaNode>)

  function Walk(top: seq<SchemaNode>, at: Option<SchemaNode>, segs: seq<Segment>): Result<Walked, ErrorResponse>
    decreases |segs|
  {
    if segs == [] then Ok(Walked("", at))
    else
      var found := Resolve(top, at, segs[0].ident);
      if found.None? then Err(OPERATION_FAILED)
      else
        var n := found.value;
        var keys := KeysFor(n, segs[0].keys);
        if keys.Err? then Err(keys.error)
        else if |segs| > 1 && (n.kind == Rpc || n.kind == Action) then Err(OPERATION_FAILED)
        else
          var rest := Walk(top, found, segs[1..]);
          if rest.Err? then rest
          else Ok(Walked("/" + (MaybeQualified(at, n) + (keys.value + rest.value.path)), rest.value.node))
  }

  lemma {:induction false} WalkUnroll(top: seq<SchemaNode>, at: Option<SchemaNode>, segs: seq<Segment>)
    requires segs != [] && Walk(top, at, segs).Ok?
    ensures var found := Resolve(top, at, segs[0].ident);
            && found.Some?
            && var keys, rest := KeysFor(found.value, segs[0].keys), Walk(top, found, segs[1..]);
            && keys.Ok? && rest.Ok?
            && Walk(top, at, segs).value.node == rest.value.node
            && Walk(top, at, segs).value.path ==
               "/" + (MaybeQualified(at, found.value) + (keys.value + rest.value.path))
  {
  }

  /** The key part of one segment: list keys, a leaf-list value, or nothing. */
  method SegmentKeys(n: SchemaNode, keys: seq<string>) returns (r: Result<string, ErrorResponse>)
    ensures r == KeysFor(n, keys)
  {
    if n.kind == List {
      if |n.keys| == 0 || |keys| != |n.keys| {
        return Err(OPERATION_FAILED);
      }
      var ps := ListKeyPredicate(n.keys, keys);
      if ps.None? {
        return Err(OPERATION_FAILED);
      }
      r := Ok(ps.value);
    } else if n.kind == LeafList {
      if |keys| != 1 {
        return Err(OPERATION_FAILED);
      }
      var quoted := EscapeListKey(keys[0]);
      if quoted.None? {
        return Err(OPERATION_FAILED);
      }
      r := Ok("[" + ("." + ("=" + (quoted.value + "]"))));
    } else {
      r := if |keys| > 0 then Err(OPERATION_FAILED) else Ok("");
    }
  }

  /** What the whole walk gives when `res` has been printed and `rest` is what the remaining walk gives. */
  function Resume(res: string, rest: Result<Walked, ErrorResponse>): Result<Walked, ErrorResponse> {
    if rest.Ok? then Ok(Walked(res + rest.value.path, rest.value.node)) else rest
  }

  /** What a path needs: every name resolves, every segment has the keys its node asks for. */
  function Resolved(top: seq<SchemaNode>, at: Option<SchemaNode>, segs: seq<Segment>): (r: Option<seq<SchemaNode>>)
    ensures r.Some? ==> |r.value| == |segs|
    decreases |segs|
  {
    if segs == [] then Some([])
    else
      var n := Resolve(top, at, segs[0].ident);
      if n.None? then None
      else
        var rest := Resolved(top, n, segs[1..]);
        if rest.None? then None else Some([n.value] + rest.value)
  }

  /** No value can be written as a literal if it has both kinds of quotes. */
  predicate Quotable(k: string) {
    !('\'' in k && '\"' in k)
  }

  predicate KeysFit(n: SchemaNode, keys: seq<string>) {
    && (forall i | 0 <= i < |keys| :: Quotable(keys[i]))
    && |keys| == (if n.kind == List then |n.keys| else if n.kind == LeafList then 1 else 0)
    && (n.kind == List ==> n.keys != [])
  }

  lemma {:induction false} PredicatesIffQuotable(names: seq<string>, values: seq<string>)
    requires |names| == |values|
    ensures Predicates(names, values).Some? <==> forall i | 0 <= i < |values| :: Quotable(values[i])
    decreases |names|
  {
    if names == [] {
    } else {
      PredicatesIffQuotable(names[1..], values[1..]);
      assert forall i | 0 < i < |values| :: values[i] == values[1..][i - 1];
    }
  }

  lemma KeysForIffKeysFit(n: SchemaNode, keys: seq<string>)
    ensures KeysFor(n, keys).Ok? <==> KeysFit(n, keys)
  {
    if n.kind == List && |keys| == |n.keys| {
      PredicatesIffQuotable(n.keys, keys);
    }
  }

  predicate Translatable(nodes: seq<SchemaNode>, segs: seq<Segment>)
    requires |nodes| == |segs|
  {
    && (forall i | 0 <= i < |segs| :: KeysFit(nodes[i], segs[i].keys))
    && (forall i | 0 <= i < |segs| - 1 :: nodes[i].kind != Rpc && nodes[i].kind != Action)
  }

  /** `nodes[j]` is what segment `j` names below the node before it. */
  predicate IsLink(top: seq<SchemaNode>, at: Option<SchemaNode>, segs: seq<Segment>, nodes: seq<SchemaNode>, j: nat)
    requires j < |segs| == |nodes|
  {
    LeadsTo(top, if j == 0 then at else Some(nodes[j - 1]), segs[j].ident, nodes[j])
  }

  /** Going down the schema along the names of the segments passes through `nodes`. */
  predicate IsChain(top: seq<SchemaNode>, at: Option<SchemaNode>, segs: seq<Segment>, nodes: seq<SchemaNode>) {
    |nodes| == |segs| && forall j | 0 <= j < |segs| :: IsLink(top, at, segs, nodes, j)
  }

  lemma ChainCons(top: seq<SchemaNode>, at: Option<SchemaNode>, segs: seq<Segment>, nodes: seq<SchemaNode>)
    requires segs != [] && |nodes| == |segs|
    ensures IsChain(top, at, segs, nodes)
            <==> LeadsTo(top, at, segs[0].ident, nodes[0]) && IsChain(top, Some(nodes[0]), segs[1..], nodes[1..])
  {
    assert IsLink(top, at, segs, nodes, 0) <==> LeadsTo(top, at, segs[0].ident, nodes[0]);
    forall j: nat | j < |segs| - 1
      ensures IsLink(top, Some(nodes[0]), segs[1..], nodes[1..], j) <==> IsLink(top, at, segs, nodes, j + 1)
    {
    }
    if IsChain(top, Some(nodes[0]), segs[1..], nodes[1..]) && LeadsTo(top, at, segs[0].ident, nodes[0]) {
      forall j: nat | j < |segs| ensures IsLink(top, at, segs, nodes, j) {
        assert j > 0 ==> IsLink(top, Some(nodes[0]), segs[1..], nodes[1..], j - 1);
      }
    }
  }

  lemma {:induction false} ResolvedIffChain(
    top: seq<SchemaNode>, at: Option<SchemaNode>, segs: seq<Segment>, nodes: seq<SchemaNode>)
    ensures Resolved(top, at, segs) == Some(nodes) <==> IsChain(top, at, segs, nodes)
    decreases |segs|
  {
    if segs == [] || |nodes| != |segs| {
    } else {
      ChainCons(top, at, segs, nodes);
      ResolveIff(top, at, segs[0].ident, nodes[0]);
      ResolvedIffChain(top, Some(nodes[0]), segs[1..], nodes[1..]);
      assert nodes == [nodes[0]] + nodes[1..];
    }
  }

  /** Exactly which inputs are accepted, in terms of the schema tree, and where they lead. */
  lemma WalkSucceedsIff(top: seq<SchemaNode>, at: Option<SchemaNode>, segs: seq<Segment>)
    ensures Walk(top, at, segs).Ok?
            <==> exists nodes: seq<SchemaNode> :: IsChain(top, at, segs, nodes) && Translatable(nodes, segs)
    ensures Walk(top, at, segs).Ok? ==>
              forall nodes: seq<SchemaNode> | IsChain(top, at, segs, nodes) ::
                Walk(top, at, segs).value.node == if segs == [] then at else Some(nodes[|segs| - 1])
    ensures Walk(top, at, segs).Err? ==> Walk(top, at, segs).error == ErrorResponse(400, "operation-failed")
  {
    WalkIffResolved(top, at, segs);
    forall nodes: seq<SchemaNode>
      ensures Resolved(top, at, segs) == Some(nodes) <==> IsChain(top, at, segs, nodes)
    {
      ResolvedIffChain(top, at, segs, nodes);
    }
    if Walk(top, at, segs).Ok? {
      assert IsChain(top, at, segs, Resolved(top, at, segs).value);
    } else {
      WalkError(top, at, segs);
    }
  }

  lemma {:induction false} WalkError(top: seq<SchemaNode>, at: Option<SchemaNode>, segs: seq<Segment>)
    requires Walk(top, at, segs).Err?
    ensures Walk(top, at, segs).error == OPERATION_FAILED
    decreases |segs|
  {
    var found := Resolve(top, at, segs[0].ident);
    if found.Some? && Walk(top, found, segs[1..]).Err? {
      WalkError(top, found, segs[1..]);
    }
  }

  lemma {:induction false} WalkIffResolved(top: seq<SchemaNode>, at: Option<SchemaNode>, segs: seq<Segment>)
    ensures var nodes := Resolved(top, at, segs);
            && (Walk(top, at, segs).Ok? <==> nodes.Some? && Translatable(nodes.value, segs))
            && (Walk(top, at, segs).Ok? ==>
                  Walk(top, at, segs).value.node == if segs == [] then at else Some(nodes.value[|segs| - 1]))
    decreases |segs|
  {
    if segs == [] {
    } else {
      var n := Resolve(top, at, segs[0].ident);
      if n.Some? {
        WalkIffResolved(top, n, segs[1..]);
        KeysForIffKeysFit(n.value, segs[0].keys);
        var nodes, rest := Resolved(top, at, segs), Resolved(top, n, segs[1..]);
        if rest.Some? {
          assert nodes.value[1..] == rest.value;
          assert Translatable(nodes.value, segs) <==>
                 KeysFit(n.value, segs[0].keys) && (|segs| > 1 ==> n.value.kind != Rpc && n.value.kind != Action)
                 && Translatable(rest.value, segs[1..]) by {
            TranslatableCons(n.value, rest.value, segs);
          }
        }
      }
    }
  }

  lemma TranslatableCons(n: SchemaNode, rest: seq<SchemaNode>, segs: seq<Segment>)
    requires |segs| == |rest| + 1
    ensures Translatable([n] + rest, segs) <==>
            && KeysFit(n, segs[0].keys) && (|segs| > 1 ==> n.kind != Rpc && n.kind != Action)
            && Translatable(rest, segs[1..])
  {
    var nodes := [n] + rest;
    assert forall i | 0 < i < |segs| :: nodes[i] == rest[i - 1] && segs[i] == segs[1..][i - 1];
    if Translatable(nodes, segs) {
      forall i | 0 <= i < |rest| ensures KeysFit(rest[i], segs[1..][i].keys) {
        assert KeysFit(nodes[i + 1], segs[i + 1].keys);
      }
      forall i | 0 <= i < |rest| - 1 ensures rest[i].kind != Rpc && rest[i].kind != Action {
        assert nodes[i + 1].kind != Rpc && nodes[i + 1].kind != Action;
      }
    }
  }

  /** asLibyangPath: the loop that accumulates the path and the current node. */
  method AsLibyangPath(top: seq<SchemaNode>, segs: seq<Segment>) returns (r: Result<Walked, ErrorResponse>)
    ensures r == Walk(top, None, segs)
  {
    var at: Option<SchemaNode> := None;
    var res := "";
    var i := 0;
    assert segs[0..] == segs;
    ResumeFromStart(Walk(top, None, segs));
    while i < |segs|
      invariant i <= |segs|
      invariant Walk(top, None, segs) == Resume(res, Walk(top, at, segs[i..]))
    {
      ghost var todo := segs[i..];
      assert todo[0] == segs[i] && todo[1..] == segs[i + 1..];
      var found := Resolve(top, at, segs[i].ident);
      if found.None? {
        return Err(OPERATION_FAILED);
      }
      var keys := SegmentKeys(found.value, segs[i].keys);
      if keys.Err? {
        return Err(keys.error);
      }
      if i + 1 < |segs| && (found.value.kind == Rpc || found.value.kind == Action) {
        return Err(OPERATION_FAILED);
      }
      ResumeStep(res, MaybeQualified(at, found.value), keys.value, Walk(top, found, segs[i + 1..]));
      res := res + ("/" + (MaybeQualified(at, found.value) + keys.value));
      at := found;
      i := i + 1;
    }
    assert segs[i..] == [] && res + "" == res;
    r := Ok(Walked(res, at));
  }

  lemma ResumeFromStart(w: Result<Walked, ErrorResponse>)
    ensures Resume("", w) == w
  {
    if w.Ok? {
      assert "" + w.value.path == w.value.path;
    }
  }

  lemma ResumeStep(res: string, name: string, keys: string, rest: Result<Walked, ErrorResponse>)
    ensures Resume(res + ("/" + (name + keys)), rest) ==
            Resume(res, if rest.Err? then rest
                        else Ok(Walked("/" + (name + (keys + rest.value.path)), rest.value.node)))
  {
    if rest.Ok? {
      Extend(res, name, keys, rest.value.path);
    }
  }

  lemma Extend(res: string, name: string, keys: string, rest: string)
    ensures res + ("/" + (name + keys)) + rest == res + ("/" + (name + (keys + rest)))
  {
    Associative(res, "/" + (name + keys), rest);
    Associative("/", name + keys, rest);
    Associative(name, keys, rest);
  }

  // ----- reading a path back -----

  /** A predicate as read from the text; a leaf-list's has the name ".". */
  datatype Test = Test(name: string, value: string)

  datatype PathStep = PathStep(name: string, tests: seq<Test>)

  function NameLength(s: string): (n: nat)
    ensures n <= |s|
  {
    if s != "" && (IsIdentifierChar(s[0]) || s[0] == ':') then 1 + NameLength(s[1..]) else 0
  }

  /** After "[name=": a literal between two equal quotes, then "]". */
  function ReadLiteral(s: string): (p: Parse<string>)
    ensures p.Match? ==> |p.rest| < |s|
  {
    if s != "" && (s[0] == '\'' || s[0] == '\"') then
      var end := IndexOf(s[1..], s[0]);
      if end < |s| - 2 && s[end + 2] == ']' then Match(s[1..][..end], s[end + 3..]) else Abort
    else Abort
  }

  function ReadTest(s: string): (p: Parse<Test>)
    ensures p.Match? ==> |p.rest| < |s|
  {
    var eq := IndexOf(s, '=');
    if Begins(s, '[') && 1 <= eq < |s| then
      match ReadLiteral(s[eq + 1..])
      case Match(value, rest) => Match(Test(s[1..eq], value), rest)
      case _ => Abort
    else Abort
  }

  function ReadTests(s: string): (p: Parse<seq<Test>>)
    ensures p.Match? ==> |p.rest| <= |s|
    decreases |s|
  {
    if Begins(s, '[') then
      match ReadTest(s)
      case Match(t, rest) =>
        (match ReadTests(rest)
         case Match(ts, rest') => Match([t] + ts, rest')
         case _ => Abort)
      case _ => Abort
    else Match([], s)
  }

  /** As many steps as there are; what follows them is the rest. */
  function ReadSteps(s: string): (p: Parse<seq<PathStep>>)
    ensures p.Match? ==> |p.rest| <= |s|
    decreases |s|
  {
    if Begins(s, '/') then
      var n := NameLength(s[1..]);
      match ReadTests(s[1..][n..])
      case Match(ts, rest) =>
        (match ReadSteps(rest)
         case Match(more, rest') => Match([PathStep(s[1..][..n], ts)] + more, rest')
         case _ => Abort)
      case _ => Abort
    else Match([], s)
  }

  /** What the walk meant: the names it used and the key values it was given. */
  function TestsFor(names: seq<string>, values: seq<string>): seq<Test>
    requires |names| == |values|
  {
    seq(|names|, i requires 0 <= i < |names| => Test(names[i], values[i]))
  }

  function KeyTests(n: SchemaNode, keys: seq<string>): seq<Test>
    requires KeysFor(n, keys).Ok?
  {
    match n.kind
    case List => TestsFor(n.keys, keys)
    case LeafList => [Test(".", keys[0])]
    case _ => []
  }

  function Meaning(top: seq<SchemaNode>, at: Option<SchemaNode>, segs: seq<Segment>): seq<PathStep>
    requires Walk(top, at, segs).Ok?
    decreases |segs|
  {
    if segs == [] then []
    else
      WalkUnroll(top, at, segs);
      var found := Resolve(top, at, segs[0].ident);
      [PathStep(MaybeQualified(at, found.value), KeyTests(found.value, segs[0].keys))] + Meaning(top, found, segs[1..])
  }

  /** Where a step certainly ends: another one follows, a union bar, or nothing. */
  predicate EndsStep(rest: string) {
    rest == "" || rest[0] == '/' || rest[0] == ' '
  }

  lemma LiteralReadsBack(value: string, rest: string)
    requires EscapeListKey(value).Some?
    ensures ReadLiteral(EscapeListKey(value).value + ("]" + rest)) == Match(value, rest)
  {
    var q := EscapeListKey(value).value[0];
    assert q !in value;
    var s := EscapeListKey(value).value + ("]" + rest);
    assert s[1..] == value + [q] + ("]" + rest);
    IndexOfAfter(value, q, "]" + rest);
    assert s[|value| + 2] == ']' && s[|value| + 3..] == rest;
    assert s[1..][..|value|] == value;
  }

  lemma TestReadsBack(name: string, value: string, rest: string)
    requires '=' !in name && Predicate(name, value).Some?
    ensures ReadTest(Predicate(name, value).value + rest) == Match(Test(name, value), rest)
    ensures Begins(Predicate(name, value).value + rest, '[')
  {
    var quoted := EscapeListKey(value).value;
    var s := Predicate(name, value).value + rest;
    var before := "[" + name;
    var after := quoted + ("]" + rest);
    assert s == before + ['='] + after;
    IndexOfAfter(before, '=', after);
    assert s[|before| + 1..] == after && s[1..|before|] == name;
    LiteralReadsBack(value, rest);
  }

  lemma TestsForCons(names: seq<string>, values: seq<string>)
    requires |names| == |values| && names != []
    ensures TestsFor(names, values) == [Test(names[0], values[0])] + TestsFor(names[1..], values[1..])
  {
  }

  lemma ReadTestsStep(s: string, t: Test, rest: string)
    requires Begins(s, '[') && ReadTest(s) == Match(t, rest) && ReadTests(rest).Match?
    ensures ReadTests(s) == Match([t] + ReadTests(rest).value, ReadTests(rest).rest)
  {
  }

  lemma {:induction false} TestsReadBack(names: seq<string>, values: seq<string>, rest: string)
    requires |names| == |values| && Predicates(names, values).Some?
    requires forall i | 0 <= i < |names| :: '=' !in names[i]
    requires !Begins(rest, '[')
    ensures ReadTests(Predicates(names, values).value + rest) == Match(TestsFor(names, values), rest)
    decreases |names|
  {
    if names == [] {
      assert "" + rest == rest && TestsFor(names, values) == [];
    } else {
      var p, ps := Predicate(names[0], values[0]).value, Predicates(names[1..], values[1..]).value;
      var t := Test(names[0], values[0]);
      TestsReadBack(names[1..], values[1..], rest);
      calc {
        ReadTests(Predicates(names, values).value + rest);
        ReadTests(p + ps + rest);
        { Associative(p, ps, rest); }
        ReadTests(p + (ps + rest));
        { TestReadsBack(names[0], values[0], ps + rest); ReadTestsStep(p + (ps + rest), t, ps + rest); }
        Match([t] + TestsFor(names[1..], values[1..]), rest);
        { TestsForCons(names, values); }
        Match(TestsFor(names, values), rest);
      }
    }
  }

  lemma KeysReadBack(n: SchemaNode, keys: seq<string>, rest: string)
    requires WellNamed(n) && KeysFor(n, keys).Ok? && EndsStep(rest)
    ensures ReadTests(KeysFor(n, keys).value + rest) == Match(KeyTests(n, keys), rest)
  {
    match n.kind
    case List =>
      forall i | 0 <= i < |n.keys| ensures '=' !in n.keys[i] { assert IsIdentifier(n.keys[i]); }
      TestsReadBack(n.keys, keys, rest);
    case LeafList =>
      TestReadsBack(".", keys[0], rest);
      assert ReadTests(rest) == Match([], rest);
      assert [Test(".", keys[0])] + [] == [Test(".", keys[0])];
    case _ =>
      assert "" + rest == rest;
  }

  lemma {:induction false} NameLengthOf(name: string, rest: string)
    requires forall i | 0 <= i < |name| :: IsIdentifierChar(name[i]) || name[i] == ':'
    requires EndsStep(rest) || rest[0] == '['
    ensures NameLength(name + rest) == |name|
    decreases |name|
  {
    if name == "" {
      assert name + rest == rest;
    } else {
      assert (name + rest)[1..] == name[1..] + rest;
      NameLengthOf(name[1..], rest);
    }
  }

  lemma KeysBegin(n: SchemaNode, keys: seq<string>, rest: string)
    requires KeysFor(n, keys).Ok? && EndsStep(rest)
    ensures var s := KeysFor(n, keys).value + rest; EndsStep(s) || s[0] == '['
  {
  }

  /** One step of a path: "/", the name, the predicates. */
  lemma StepReadsBack(name: string, tests: string, ts: seq<Test>, rest: string)
    requires forall i | 0 <= i < |name| :: IsIdentifierChar(name[i]) || name[i] == ':'
    requires var s := tests + rest; EndsStep(s) || s[0] == '['
    requires ReadTests(tests + rest) == Match(ts, rest) && ReadSteps(rest).Match?
    ensures ReadSteps("/" + (name + (tests + rest))) ==
            Match([PathStep(name, ts)] + ReadSteps(rest).value, ReadSteps(rest).rest)
  {
    var s := name + (tests + rest);
    Skip('/', s);
    NameLengthOf(name, tests + rest);
    assert s[..|name|] == name && s[|name|..] == tests + rest;
  }

  lemma FoundIsWellNamed(top: seq<SchemaNode>, at: Option<SchemaNode>, i: ApiIdentifier)
    requires AllWellNamed(top) && (at.Some? ==> WellNamed(at.value))
    ensures Resolve(top, at, i).Some? ==> WellNamed(Resolve(top, at, i).value)
  {
  }

  lemma QualifiedNameChars(at: Option<SchemaNode>, n: SchemaNode)
    requires WellNamed(n)
    ensures var s := MaybeQualified(at, n); forall i | 0 <= i < |s| :: IsIdentifierChar(s[i]) || s[i] == ':'
  {
  }

  lemma WalkedPathBegins(top: seq<SchemaNode>, at: Option<SchemaNode>, segs: seq<Segment>)
    requires Walk(top, at, segs).Ok?
    ensures var s := Walk(top, at, segs).value.path; s == "" || s[0] == '/'
  {
  }

  lemma FirstStepReadsBack(at: Option<SchemaNode>, n: SchemaNode, keys: seq<string>, rest: string)
    requires WellNamed(n) && KeysFor(n, keys).Ok? && EndsStep(rest) && ReadSteps(rest).Match?
    ensures ReadSteps("/" + (MaybeQualified(at, n) + (KeysFor(n, keys).value + rest))) ==
            Match([PathStep(MaybeQualified(at, n), KeyTests(n, keys))] + ReadSteps(rest).value, ReadSteps(rest).rest)
  {
    QualifiedNameChars(at, n);
    KeysBegin(n, keys, rest);
    KeysReadBack(n, keys, rest);
    StepReadsBack(MaybeQualified(at, n), KeysFor(n, keys).value, KeyTests(n, keys), rest);
  }

  lemma EndsBefore(a: string, b: string)
    requires EndsStep(a) && EndsStep(b)
    ensures EndsStep(a + b)
  {
  }

  /** The text of a translated path, followed by more steps, reads as the walk's meaning and those steps. */
  lemma {:induction false} PathReadsBackBefore(
    top: seq<SchemaNode>, at: Option<SchemaNode>, segs: seq<Segment>, tail: string)
    requires AllWellNamed(top) && (at.Some? ==> WellNamed(at.value)) && Walk(top, at, segs).Ok?
    requires EndsStep(tail) && ReadSteps(tail).Match?
    ensures ReadSteps(Walk(top, at, segs).value.path + tail) ==
            Match(Meaning(top, at, segs) + ReadSteps(tail).value, ReadSteps(tail).rest)
    decreases |segs|
  {
    if segs == [] {
      assert "" + tail == tail && [] + ReadSteps(tail).value == ReadSteps(tail).value;
    } else {
      WalkUnroll(top, at, segs);
      var found := Resolve(top, at, segs[0].ident);
      var n := found.value;
      FoundIsWellNamed(top, at, segs[0].ident);
      PathReadsBackBefore(top, found, segs[1..], tail);
      WalkedPathBegins(top, found, segs[1..]);
      var path := Walk(top, found, segs[1..]).value.path;
      EndsBefore(path, tail);
      var name, keys := MaybeQualified(at, n), KeysFor(n, segs[0].keys).value;
      var step := PathStep(name, KeyTests(n, segs[0].keys));
      calc {
        ReadSteps(Walk(top, at, segs).value.path + tail);
        ReadSteps("/" + (name + (keys + path)) + tail);
        { Regroup(name, keys, path, tail); }
        ReadSteps("/" + (name + (keys + (path + tail))));
        { FirstStepReadsBack(at, n, segs[0].keys, path + tail); }
        Match([step] + (Meaning(top, found, segs[1..]) + ReadSteps(tail).value), ReadSteps(tail).rest);
        { Associative([step], Meaning(top, found, segs[1..]), ReadSteps(tail).value); }
        Match([step] + Meaning(top, found, segs[1..]) + ReadSteps(tail).value, ReadSteps(tail).rest);
      }
    }
  }

  /**
  Whenever the translation succeeds, reading its text back recovers exactly the node names and the key
  values, whatever characters the keys contain.
  */
  lemma PathReadsBack(top: seq<SchemaNode>, at: Option<SchemaNode>, segs: seq<Segment>)
    requires AllWellNamed(top) && (at.Some? ==> WellNamed(at.value)) && Walk(top, at, segs).Ok?
    ensures ReadSteps(Walk(top, at, segs).value.path) == Match(Meaning(top, at, segs), "")
  {
    PathReadsBackBefore(top, at, segs, "");
    var path := Walk(top, at, segs).value.path;
    assert path + "" == path && Meaning(top, at, segs) + [] == Meaning(top, at, segs);
  }

  // ----- resolving a path again -----

  function SplitName(name: string): ApiIdentifier {
    var i := IndexOf(name, ':');
    if i == |name| then ApiIdentifier(None, name) else ApiIdentifier(Some(name[..i]), name[i + 1..])
  }

  /** Follow the names of a path that was read back; unprefixed ones inherit the parent's module. */
  function Follow(top: seq<SchemaNode>, at: Option<SchemaNode>, steps: seq<PathStep>): Option<Option<SchemaNode>>
    decreases |steps|
  {
    if steps == [] then Some(at)
    else
      var found := Resolve(top, at, SplitName(steps[0].name));
      if found.None? then None else Follow(top, found, steps[1..])
  }

  lemma IdentifierHasNoColon(s: string)
    requires IsIdentifier(s)
    ensures ':' !in s
  {
  }

  lemma SplitQualified(at: Option<SchemaNode>, n: SchemaNode)
    requires WellNamed(n)
    ensures SplitName(MaybeQualified(at, n)) ==
            if at.None? || at.value.mod != n.mod then ApiIdentifier(Some(n.mod), n.name)
            else ApiIdentifier(None, n.name)
  {
    IdentifierHasNoColon(n.mod);
    IdentifierHasNoColon(n.name);
    IndexOfAfter(n.mod, ':', n.name);
    var s := n.mod + ":" + n.name;
    assert s == n.mod + [':'] + n.name;
    assert s[..|n.mod|] == n.mod && s[|n.mod| + 1..] == n.name;
    IndexOfAbsent(n.name, ':');
  }

  lemma SameNodeAgain(top: seq<SchemaNode>, at: Option<SchemaNode>, i: ApiIdentifier)
    requires Resolve(top, at, i).Some?
    ensures var n := Resolve(top, at, i).value;
            && Resolve(top, at, ApiIdentifier(Some(n.mod), n.name)) == Some(n)
            && (at.Some? && at.value.mod == n.mod ==> Resolve(top, at, ApiIdentifier(None, n.name)) == Some(n))
  {
  }

  /** Resolving the produced path from the root reaches the same schema node. */
  lemma {:induction false} PathLeadsBack(top: seq<SchemaNode>, at: Option<SchemaNode>, segs: seq<Segment>)
    requires AllWellNamed(top) && (at.Some? ==> WellNamed(at.value)) && Walk(top, at, segs).Ok?
    ensures Follow(top, at, Meaning(top, at, segs)) == Some(Walk(top, at, segs).value.node)
    decreases |segs|
  {
    if segs == [] {
    } else {
      WalkUnroll(top, at, segs);
      var found := Resolve(top, at, segs[0].ident);
      FoundIsWellNamed(top, at, segs[0].ident);
      SplitQualified(at, found.value);
      SameNodeAgain(top, at, segs[0].ident);
      PathLeadsBack(top, found, segs[1..]);
      assert Meaning(top, at, segs)[1..] == Meaning(top, found, segs[1..]);
    }
  }

  // ----- the translation is injective -----

  /** The segments with every module named. */
  function Normalise(top: seq<SchemaNode>, at: Option<SchemaNode>, segs: seq<Segment>): (r: seq<Segment>)
    requires Walk(top, at, segs).Ok?
    ensures |r| == |segs|
    decreases |segs|
  {
    if segs == [] then []
    else
      WalkUnroll(top, at, segs);
      var n := Resolve(top, at, segs[0].ident).value;
      [Segment(ApiIdentifier(Some(n.mod), n.name), segs[0].keys)] + Normalise(top, Some(n), segs[1..])
  }

  lemma {:induction false} NormaliseKeepsPath(top: seq<SchemaNode>, at: Option<SchemaNode>, segs: seq<Segment>)
    requires Walk(top, at, segs).Ok?
    ensures Walk(top, at, Normalise(top, at, segs)) == Walk(top, at, segs)
    decreases |segs|
  {
    if segs == [] {
    } else {
      WalkUnroll(top, at, segs);
      SameNodeAgain(top, at, segs[0].ident);
      var found := Resolve(top, at, segs[0].ident);
      NormaliseKeepsPath(top, found, segs[1..]);
      assert Normalise(top, at, segs)[1..] == Normalise(top, found, segs[1..]);
    }
  }

  lemma KeyTestsDetermineKeys(n: SchemaNode, a: seq<string>, b: seq<string>)
    requires KeysFor(n, a).Ok? && KeysFor(n, b).Ok? && KeyTests(n, a) == KeyTests(n, b)
    ensures a == b
  {
    if n.kind == List {
      forall i | 0 <= i < |a| ensures a[i] == b[i] {
        assert TestsFor(n.keys, a)[i] == TestsFor(n.keys, b)[i];
      }
    }
  }

  lemma {:induction false} MeaningDeterminesSegments(
    top: seq<SchemaNode>, at: Option<SchemaNode>, a: seq<Segment>, b: seq<Segment>)
    requires AllWellNamed(top) && (at.Some? ==> WellNamed(at.value))
    requires Walk(top, at, a).Ok? && Walk(top, at, b).Ok? && Meaning(top, at, a) == Meaning(top, at, b)
    ensures Normalise(top, at, a) == Normalise(top, at, b)
    decreases |a|
  {
    if a == [] || b == [] {
      assert a == [] && b == [];
    } else {
      WalkUnroll(top, at, a);
      WalkUnroll(top, at, b);
      var na, nb := Resolve(top, at, a[0].ident), Resolve(top, at, b[0].ident);
      FoundIsWellNamed(top, at, a[0].ident);
      FoundIsWellNamed(top, at, b[0].ident);
      SplitQualified(at, na.value);
      SplitQualified(at, nb.value);
      SameNodeAgain(top, at, a[0].ident);
      SameNodeAgain(top, at, b[0].ident);
      var ma, mb := Meaning(top, at, a), Meaning(top, at, b);
      assert ma[0] == mb[0] && ma[1..] == mb[1..];
      assert na == nb;
      KeyTestsDetermineKeys(na.value, a[0].keys, b[0].keys);
      assert ma[1..] == Meaning(top, na, a[1..]) && mb[1..] == Meaning(top, na, b[1..]);
      MeaningDeterminesSegments(top, na, a[1..], b[1..]);
    }
  }

  /** Two accepted inputs get the same path exactly when they name the same nodes with the same keys. */
  lemma SamePathIffSameSegments(top: seq<SchemaNode>, a: seq<Segment>, b: seq<Segment>)
    requires AllWellNamed(top) && Walk(top, None, a).Ok? && Walk(top, None, b).Ok?
    ensures Walk(top, None, a).value.path == Walk(top, None, b).value.path
            <==> Normalise(top, None, a) == Normalise(top, None, b)
  {
    PathReadsBack(top, None, a);
    PathReadsBack(top, None, b);
    NormaliseKeepsPath(top, None, a);
    NormaliseKeepsPath(top, None, b);
    if Walk(top, None, a).value.path == Walk(top, None, b).value.path {
      MeaningDeterminesSegments(top, None, a, b);
    }
  }

  // ----- splitting off the last segment -----

  datatype Split = Split(parentPath: string, last: Segment)

  /** asLibyangPathSplit, after the URI has been parsed. */
  function AsLibyangPathSplit(top: seq<SchemaNode>, segs: seq<Segment>): Result<Split, ErrorResponse> {
    if segs == [] then Err(OPERATION_FAILED)
    else
      var last := segs[|segs| - 1];
      var parent := Walk(top, None, segs[..|segs| - 1]);
      if parent.Err? then Err(parent.error)
      else if last.ident.prefix.Some? then Ok(Split(parent.value.path, last))
      else
        var full := Walk(top, None, segs);
        if full.Err? then Err(full.error)
        else if full.value.node.None? then Err(OPERATION_FAILED)
        else Ok(Split(parent.value.path, last.(ident := last.ident.(prefix := Some(full.value.node.value.mod)))))
  }

  lemma {:induction false} WalkInTwoParts(top: seq<SchemaNode>, at: Option<SchemaNode>, segs: seq<Segment>, k: nat)
    requires k <= |segs| && Walk(top, at, segs).Ok?
    ensures var a := Walk(top, at, segs[..k]);
            && a.Ok?
            && var b := Walk(top, a.value.node, segs[k..]);
            && b.Ok? && Walk(top, at, segs) == Ok(Walked(a.value.path + b.value.path, b.value.node))
    decreases k
  {
    if k == 0 {
      assert segs[..0] == [] && segs[0..] == segs;
      var w := Walk(top, at, segs).value;
      assert "" + w.path == w.path;
    } else {
      WalkUnroll(top, at, segs);
      var found := Resolve(top, at, segs[0].ident);
      WalkInTwoParts(top, found, segs[1..], k - 1);
      assert segs[1..][..k - 1] == segs[..k][1..] && segs[1..][k - 1..] == segs[k..];
      assert segs[..k][0] == segs[0];
      var a := Walk(top, found, segs[..k][1..]).value;
      var b := Walk(top, a.node, segs[k..]).value;
      Extend("", MaybeQualified(at, found.value), KeysFor(found.value, segs[0].keys).value, a.path);
      Regroup(MaybeQualified(at, found.value), KeysFor(found.value, segs[0].keys).value, a.path, b.path);
    }
  }

  lemma Regroup(name: string, keys: string, a: string, b: string)
    ensures "/" + (name + (keys + (a + b))) == "/" + (name + (keys + a)) + b
  {
    Associative("/", name + (keys + a), b);
    Associative(name, keys + a, b);
    Associative(keys, a, b);
  }

  /**
  When the full path translates, the split succeeds; its last segment names its module; and walking on
  with that segment from the parent rebuilds the full path and reaches the same node.
  */
  lemma SplitRebuilds(top: seq<SchemaNode>, segs: seq<Segment>)
    requires segs != [] && Walk(top, None, segs).Ok?
    ensures var n := |segs| - 1;
            var parent, full := Walk(top, None, segs[..n]), Walk(top, None, segs);
            && parent.Ok? && full.value.node.Some?
            && var node := full.value.node.value;
            var last := Segment(ApiIdentifier(Some(node.mod), node.name), segs[n].keys);
            && AsLibyangPathSplit(top, segs) == Ok(Split(parent.value.path, last))
            && var tail := Walk(top, parent.value.node, [last]);
            && tail.Ok? && full == Ok(Walked(parent.value.path + tail.value.path, tail.value.node))
  {
    var n := |segs| - 1;
    WalkInTwoParts(top, None, segs, n);
    var at := Walk(top, None, segs[..n]).value.node;
    assert segs[n..] == [segs[n]];
    WalkUnroll(top, at, [segs[n]]);
    var found := Resolve(top, at, segs[n].ident);
    assert Walk(top, found, [segs[n]][1..]) == Ok(Walked("", found));
    SameNodeAgain(top, at, segs[n].ident);
    var last := Segment(ApiIdentifier(Some(found.value.mod), found.value.name), segs[n].keys);
    assert Walk(top, found, [last][1..]) == Ok(Walked("", found));
    assert Walk(top, at, [last]) == Walk(top, at, [segs[n]]);
  }

  /**
  When the split succeeds at all: a path with at least one segment whose parent translates; the last segment
  need not exist if it names its module, and without one the whole path has to translate to find it.
  */
  lemma SplitSucceedsIff(top: seq<SchemaNode>, segs: seq<Segment>)
    ensures AsLibyangPathSplit(top, segs).Ok? <==>
            && segs != []
            && Walk(top, None, segs[..|segs| - 1]).Ok?
            && (segs[|segs| - 1].ident.prefix.Some? || Walk(top, None, segs).Ok?)
    ensures AsLibyangPathSplit(top, segs).Ok? ==>
              var split, last := AsLibyangPathSplit(top, segs).value, segs[|segs| - 1];
              && split.parentPath == Walk(top, None, segs[..|segs| - 1]).value.path
              && split.last.keys == last.keys && split.last.ident.name == last.ident.name
              && split.last.ident.prefix.Some? && (last.ident.prefix.Some? ==> split.last == last)
    ensures AsLibyangPathSplit(top, segs).Err? ==>
              AsLibyangPathSplit(top, segs).error == ErrorResponse(400, "operation-failed")
  {
    if segs != [] {
      WalkSucceedsIff(top, None, segs[..|segs| - 1]);
      WalkSucceedsIff(top, None, segs);
      if Walk(top, None, segs).Ok? {
        SplitRebuilds(top, segs);
      }
    }
  }
}
