/**
Compiling a `fields` expression into a union of XPaths (section 4.8.3 of RFC 8040), and what the
expression and the union select from a data tree.
*/
module FieldsXPath {
  import opened Common
  import opened UriPath
  import opened Fields
  import opened LibyangPath
  import opened Requests

  type Path = seq<ApiIdentifier>

  // ----- what an expression denotes -----

  /** The names of a chain of slashes. */
  function ChainOf(e: Expr): Path
    requires e.Slash? && Shaped(e)
  {
    [e.ident] + if e.below.None? then [] else ChainOf(e.below.value)
  }

  function Prepend(p: Path, qs: seq<Path>): (r: seq<Path>)
    ensures |r| == |qs|
  {
    seq(|qs|, i requires 0 <= i < |qs| => p + qs[i])
  }

  /** The paths that the nested expression denotes, from left to right. */
  function Denotes(e: Expr): seq<Path>
    requires Shaped(e)
  {
    match e
    case Slash(_, _) => [ChainOf(e)]
    case Paren(path, None) => [ChainOf(path)]
    case Paren(path, Some(inner)) => Prepend(ChainOf(path), Denotes(inner))
    case Semi(first, None) => Denotes(first)
    case Semi(first, Some(more)) => Denotes(first) + Denotes(more)
  }

  // ----- the compilation -----

  function Names(p: Path): (r: seq<string>)
    ensures |r| == |p|
  {
    seq(|p|, i requires 0 <= i < |p| => Name(p[i]))
  }

  /** The texts of these paths below the given stack of names. */
  function Texts(stack: seq<string>, ps: seq<Path>): (r: seq<string>)
    ensures |r| == |ps|
  {
    seq(|ps|, i requires 0 <= i < |ps| => Join(stack + Names(ps[i]), "/"))
  }

  lemma NamesAppend(a: Path, b: Path)
    ensures Names(a + b) == Names(a) + Names(b)
  {
  }

  lemma TextsAppend(stack: seq<string>, a: seq<Path>, b: seq<Path>)
    ensures Texts(stack, a + b) == Texts(stack, a) + Texts(stack, b)
  {
  }

  lemma TextsPrepend(stack: seq<string>, p: Path, qs: seq<Path>)
    ensures Texts(stack, Prepend(p, qs)) == Texts(stack + Names(p), qs)
  {
    forall i | 0 <= i < |qs| ensures Texts(stack, Prepend(p, qs))[i] == Texts(stack + Names(p), qs)[i] {
      NamesAppend(p, qs[i]);
      assert stack + (Names(p) + Names(qs[i])) == stack + Names(p) + Names(qs[i]);
    }
  }

  lemma TextsOne(stack: seq<string>, p: Path)
    ensures Texts(stack, [p]) == [Join(stack + Names(p), "/")]
  {
  }

  lemma NamesCons(stack: seq<string>, i: ApiIdentifier, p: Path)
    ensures stack + [Name(i)] + Names(p) == stack + Names([i] + p)
  {
    NamesAppend([i], p);
    assert Names([i]) == [Name(i)];
    assert stack + [Name(i)] + Names(p) == stack + ([Name(i)] + Names(p));
  }

  /**
  The depth-first traversal. `path` is the shared stack, changed on the way and not restored; only a
  semicolon saves it. `end` tells a slash chain whether it is a whole path. Works on any nesting; on a
  grammar-shaped one the output grows by exactly the denoted paths.
  */
  method Traverse(e: Expr, path: seq<string>, output: seq<string>, end: bool)
    returns (path': seq<string>, output': seq<string>)
    ensures Shaped(e) && e.Slash? ==>
              && path' == path + Names(ChainOf(e))
              && output' == if end then output + Texts(path, Denotes(e)) else output
    ensures Shaped(e) && !e.Slash? ==> output' == output + Texts(path, Denotes(e))
    decreases e
  {
    path', output' := path, output;
    match e
    case Paren(lhs, rhs) =>
      path', output' := Traverse(lhs, path', output', rhs.None?);
      if rhs.Some? {
        path', output' := Traverse(rhs.value, path', output', end);
        if Shaped(e) {
          TextsPrepend(path, ChainOf(lhs), Denotes(rhs.value));
        }
      }
    case Semi(lhs, rhs) =>
      var pathCopy := path';
      path', output' := Traverse(lhs, path', output', rhs.None?);
      if rhs.Some? {
        var dropped;
        dropped, output' := Traverse(rhs.value, pathCopy, output', false);
        if Shaped(e) {
          TextsAppend(path, Denotes(lhs), Denotes(rhs.value));
          Associative(output, Texts(path, Denotes(lhs)), Texts(path, Denotes(rhs.value)));
        }
      }
    case Slash(i, rhs) =>
      path' := path' + [Name(i)];
      if Shaped(e) {
        NamesCons(path, i, if rhs.None? then [] else ChainOf(rhs.value));
        TextsOne(path, ChainOf(e));
      }
      if rhs.Some? {
        if Shaped(e) {
          TextsOne(path', ChainOf(rhs.value));
        }
        path', output' := Traverse(rhs.value, path', output', end);
      } else {
        assert path' + [] == path';
        if end {
          output' := output' + [Join(path', "/")];
        }
      }
  }

  /** What is wrong with a path: it leads nowhere, or to a node that GET refuses; `find` is libyang's findPath. */
  function Problem(find: string -> Option<SchemaNode>, xpath: string): Option<ErrorResponse> {
    if find(xpath).None? then Some(OPERATION_FAILED)
    else ValidateMethodForNode(GET, BasicRestconfData, find(xpath))
  }

  /** A path is readable if it leads to a data node; an operation and anything else are refused differently. */
  lemma ProblemIs(find: string -> Option<SchemaNode>, xpath: string)
    ensures var node, problem := find(xpath), Problem(find, xpath);
            && (problem.None? <==>
                  node.Some? && node.value.kind in {Container, Leaf, AnyXml, AnyData, LeafList, List})
            && (problem == Some(ErrorResponse(405, "operation-not-supported")) <==>
                  node.Some? && node.value.kind in {Rpc, Action})
            && (problem == Some(ErrorResponse(400, "operation-failed")) <==> node.None? || node.value.kind == OtherKind)
  {
  }

  predicate AllReadable(find: string -> Option<SchemaNode>, xpaths: seq<string>) {
    forall i | 0 <= i < |xpaths| :: Problem(find, xpaths[i]).None?
  }

  /** `i` is the first path with a problem, and `error` is that problem. */
  predicate FirstProblem(find: string -> Option<SchemaNode>, xpaths: seq<string>, i: nat, error: ErrorResponse) {
    i < |xpaths| && AllReadable(find, xpaths[..i]) && Problem(find, xpaths[i]) == Some(error)
  }

  /** fieldsToXPath: the union of the collected paths, or the error of the first one that is not readable. */
  method FieldsToXPath(find: string -> Option<SchemaNode>, prefix: string, e: Expr)
    returns (r: Result<string, ErrorResponse>)
    ensures Shaped(e) && !e.Slash? ==>
              var xpaths := Texts([prefix], Denotes(e));
              && (r.Ok? <==> AllReadable(find, xpaths))
              && (r.Ok? ==> r.value == Join(xpaths, " | "))
              && (r.Err? ==> exists i :: FirstProblem(find, xpaths, i, r.error))
  {
    var stack, paths := Traverse(e, [prefix], [], false);
    assert Shaped(e) && !e.Slash? ==> paths == Texts([prefix], Denotes(e));
    for i := 0 to |paths|
      invariant AllReadable(find, paths[..i])
    {
      var node := find(paths[i]);
      if node.None? {
        assert FirstProblem(find, paths, i, OPERATION_FAILED);
        return Err(OPERATION_FAILED);
      }
      var invalid := ValidateMethodForNode(GET, BasicRestconfData, node);
      if invalid.Some? {
        assert FirstProblem(find, paths, i, invalid.value);
        return Err(invalid.value);
      }
      assert paths[..i + 1] == paths[..i] + [paths[i]];
    }
    assert paths[..|paths|] == paths;
    r := Ok(Join(paths, " | "));
  }

  // ----- reading a compiled path back -----

  /** The steps of a path whose names carry no predicates. */
  function PlainSteps(p: Path): seq<PathStep> {
    if p == [] then [] else [PathStep(Name(p[0]), [])] + PlainSteps(p[1..])
  }

  predicate AllValid(p: Path) {
    forall i | 0 <= i < |p| :: ValidIdentifier(p[i])
  }

  function PrintNames(p: Path): string {
    if p == [] then "" else "/" + (Name(p[0]) + PrintNames(p[1..]))
  }

  lemma {:induction false} JoinIsPrintNames(first: string, p: Path)
    ensures Join([first] + Names(p), "/") == first + PrintNames(p)
    decreases |p|
  {
    if p == [] {
      assert [first] + Names(p) == [first] && first + "" == first;
    } else {
      assert Names(p) == [Name(p[0])] + Names(p[1..]);
      JoinIsPrintNames(Name(p[0]), p[1..]);
      JoinCons(first, Names(p), "/");
      Associative(first, "/", Name(p[0]) + PrintNames(p[1..]));
    }
  }

  lemma NameChars(i: ApiIdentifier)
    requires ValidIdentifier(i)
    ensures forall k | 0 <= k < |Name(i)| :: IsIdentifierChar(Name(i)[k]) || Name(i)[k] == ':'
  {
  }

  lemma PlainStepReadsBack(i: ApiIdentifier, rest: string)
    requires ValidIdentifier(i) && EndsStep(rest) && ReadSteps(rest).Match?
    ensures ReadSteps("/" + (Name(i) + rest)) ==
            Match([PathStep(Name(i), [])] + ReadSteps(rest).value, ReadSteps(rest).rest)
  {
    NameChars(i);
    assert "" + rest == rest;
    StepReadsBack(Name(i), "", [], rest);
  }

  /** What follows a whole path: nothing, or a union bar. */
  predicate EndsPath(rest: string) {
    rest == "" || rest[0] == ' '
  }

  lemma NamesEnd(p: Path, rest: string)
    requires EndsPath(rest)
    ensures EndsStep(PrintNames(p) + rest)
  {
  }

  lemma {:induction false} NamesReadBack(p: Path, rest: string)
    requires AllValid(p) && EndsPath(rest)
    ensures ReadSteps(PrintNames(p) + rest) == Match(PlainSteps(p), rest)
    decreases |p|
  {
    if p == [] {
      assert "" + rest == rest;
    } else {
      NamesReadBack(p[1..], rest);
      NamesEnd(p[1..], rest);
      var tail := PrintNames(p[1..]);
      calc {
        ReadSteps(PrintNames(p) + rest);
        ReadSteps("/" + (Name(p[0]) + tail) + rest);
        { Associative("/", Name(p[0]) + tail, rest); Associative(Name(p[0]), tail, rest); }
        ReadSteps("/" + (Name(p[0]) + (tail + rest)));
        { PlainStepReadsBack(p[0], tail + rest); }
        Match([PathStep(Name(p[0]), [])] + PlainSteps(p[1..]), rest);
        Match(PlainSteps(p), rest);
      }
    }
  }

  /**
  The text of every compiled path below a translated resource path reads back as that resource's names
  and key values, whatever they contain, followed by the names of the denoted path.
  */
  lemma CompiledTextReadsBack(top: seq<SchemaNode>, segs: seq<Segment>, p: Path, rest: string)
    requires AllWellNamed(top) && Walk(top, None, segs).Ok? && AllValid(p) && EndsPath(rest)
    ensures var prefix := Walk(top, None, segs).value.path;
            ReadSteps(Join([prefix] + Names(p), "/") + rest) == Match(Meaning(top, None, segs) + PlainSteps(p), rest)
  {
    var prefix := Walk(top, None, segs).value.path;
    JoinIsPrintNames(prefix, p);
    NamesReadBack(p, rest);
    NamesEnd(p, rest);
    PathReadsBackBefore(top, None, segs, PrintNames(p) + rest);
    Associative(prefix, PrintNames(p), rest);
  }

  /** A union of paths, as an XPath processor takes it apart. */
  function ReadUnion(s: string): Option<seq<seq<PathStep>>>
    decreases |s|
  {
    match ReadSteps(s)
    case Match(steps, rest) =>
      if rest == "" then Some([steps])
      else if HasPrefix(rest, " | ") then
        var more := ReadUnion(rest[3..]);
        if more.None? then None else Some([steps] + more.value)
      else None
    case _ => None
  }

  function UnionMeaning(top: seq<SchemaNode>, segs: seq<Segment>, ps: seq<Path>): (r: seq<seq<PathStep>>)
    requires Walk(top, None, segs).Ok?
    ensures |r| == |ps|
  {
    seq(|ps|, i requires 0 <= i < |ps| => Meaning(top, None, segs) + PlainSteps(ps[i]))
  }

  lemma UnionStep(s: string, steps: seq<PathStep>, tail: string)
    requires ReadSteps(s) == Match(steps, " | " + tail) && ReadUnion(tail).Some?
    ensures ReadUnion(s) == Some([steps] + ReadUnion(tail).value)
  {
    PrefixOf(" | ", tail);
  }

  lemma TextsCons(stack: seq<string>, ps: seq<Path>)
    requires ps != []
    ensures Texts(stack, ps) == [Join(stack + Names(ps[0]), "/")] + Texts(stack, ps[1..])
  {
  }

  lemma UnionMeaningCons(top: seq<SchemaNode>, segs: seq<Segment>, ps: seq<Path>)
    requires Walk(top, None, segs).Ok? && ps != []
    ensures UnionMeaning(top, segs, ps) ==
            [Meaning(top, None, segs) + PlainSteps(ps[0])] + UnionMeaning(top, segs, ps[1..])
  {
  }

  /** The whole union, joined with bars, is taken apart into exactly the compiled paths, in order. */
  lemma {:induction false} UnionTextReadsBack(top: seq<SchemaNode>, segs: seq<Segment>, ps: seq<Path>)
    requires AllWellNamed(top) && Walk(top, None, segs).Ok? && ps != []
    requires forall i | 0 <= i < |ps| :: AllValid(ps[i])
    ensures var prefix := Walk(top, None, segs).value.path;
            ReadUnion(Join(Texts([prefix], ps), " | ")) == Some(UnionMeaning(top, segs, ps))
    decreases |ps|
  {
    var stack := [Walk(top, None, segs).value.path];
    var text := Join(stack + Names(ps[0]), "/");
    var steps := Meaning(top, None, segs) + PlainSteps(ps[0]);
    TextsCons(stack, ps);
    UnionMeaningCons(top, segs, ps);
    if |ps| == 1 {
      CompiledTextReadsBack(top, segs, ps[0], "");
      NothingAfter(text);
      assert Texts(stack, ps) == [text] && UnionMeaning(top, segs, ps) == [steps];
    } else {
      var tail := Join(Texts(stack, ps[1..]), " | ");
      UnionTextReadsBack(top, segs, ps[1..]);
      CompiledTextReadsBack(top, segs, ps[0], " | " + tail);
      JoinCons(text, Texts(stack, ps[1..]), " | ");
      Associative(text, " | ", tail);
      UnionStep(text + (" | " + tail), steps, tail);
    }
  }

  /** Denoted paths consist of valid names. */
  lemma {:induction false} DenotedNamesAreValid(e: Expr, i: nat)
    requires Shaped(e) && i < |Denotes(e)|
    ensures AllValid(Denotes(e)[i])
    decreases e
  {
    match e
    case Slash(_, below) => ChainIsValid(e);
    case Paren(path, None) => ChainIsValid(path);
    case Paren(path, Some(inner)) =>
      ChainIsValid(path);
      DenotedNamesAreValid(inner, i);
    case Semi(first, None) => DenotedNamesAreValid(first, i);
    case Semi(first, Some(more)) =>
      if i < |Denotes(first)| {
        DenotedNamesAreValid(first, i);
      } else {
        DenotedNamesAreValid(more, i - |Denotes(first)|);
      }
  }

  lemma {:induction false} DenotesSomething(e: Expr)
    requires Shaped(e)
    ensures Denotes(e) != []
    decreases e
  {
    match e
    case Slash(_, _) =>
    case Paren(_, None) =>
    case Paren(_, Some(inner)) => DenotesSomething(inner);
    case Semi(first, _) => DenotesSomething(first);
  }

  /**
  From the expression to the text and back: the XPath that is sent to sysrepo for a translated resource
  reads as the union of exactly the denoted paths below that resource.
  */
  lemma CompiledUnionReadsBack(top: seq<SchemaNode>, segs: seq<Segment>, e: Expr)
    requires AllWellNamed(top) && Walk(top, None, segs).Ok? && Shaped(e)
    ensures var prefix := Walk(top, None, segs).value.path;
            ReadUnion(Join(Texts([prefix], Denotes(e)), " | ")) == Some(UnionMeaning(top, segs, Denotes(e)))
  {
    DenotesSomething(e);
    forall i | 0 <= i < |Denotes(e)| ensures AllValid(Denotes(e)[i]) {
      DenotedNamesAreValid(e, i);
    }
    UnionTextReadsBack(top, segs, Denotes(e));
  }

  lemma {:induction false} ChainIsValid(e: Expr)
    requires e.Slash? && Shaped(e)
    ensures AllValid(ChainOf(e))
    decreases e
  {
    if e.below.None? {
    } else {
      ChainIsValid(e.below.value);
    }
  }

  // ----- what is selected from a data tree -----

  /** A node of instance data; the value is that of a leaf or a leaf-list entry. */
  datatype DataNode = DataNode(mod: string, name: string, value: string, children: seq<DataNode>)

  /** A position below a node: which child, which child of that child, and so on. */
  type Position = seq<nat>

  predicate Matches(parent: DataNode, child: DataNode, i: ApiIdentifier) {
    child.name == i.name && child.mod == if i.prefix.Some? then i.prefix.value else parent.mod
  }

  function At(n: DataNode, pos: Position): DataNode
    decreases |pos|
  {
    if pos == [] then n
    else if pos[0] < |n.children| then At(n.children[pos[0]], pos[1..])
    else n
  }

  /** An XPath of plain steps: each step goes to the children of that name. */
  predicate XPathSelects(n: DataNode, p: Path, pos: Position)
    decreases |p|
  {
    if p == [] then pos == []
    else
      && pos != [] && pos[0] < |n.children|
      && Matches(n, n.children[pos[0]], p[0])
      && XPathSelects(n.children[pos[0]], p[1..], pos[1..])
  }

  predicate UnionSelects(n: DataNode, ps: seq<Path>, pos: Position) {
    exists i :: 0 <= i < |ps| && XPathSelects(n, ps[i], pos)
  }

  /** The filter itself, following the nesting: "/" goes down, "(" goes on from what was reached, ";" is either. */
  predicate FilterSelects(n: DataNode, e: Expr, pos: Position)
    decreases e
  {
    match e
    case Slash(i, below) =>
      && pos != [] && pos[0] < |n.children|
      && Matches(n, n.children[pos[0]], i)
      && if below.None? then pos[1..] == [] else FilterSelects(n.children[pos[0]], below.value, pos[1..])
    case Paren(path, None) => FilterSelects(n, path, pos)
    case Paren(path, Some(inner)) =>
      exists k :: 0 <= k <= |pos| && FilterSelects(n, path, pos[..k]) && FilterSelects(At(n, pos[..k]), inner, pos[k..])
    case Semi(first, None) => FilterSelects(n, first, pos)
    case Semi(first, Some(more)) => FilterSelects(n, first, pos) || FilterSelects(n, more, pos)
  }

  lemma {:induction false} ChainSelects(n: DataNode, e: Expr, pos: Position)
    requires e.Slash? && Shaped(e)
    ensures FilterSelects(n, e, pos) <==> XPathSelects(n, ChainOf(e), pos)
    decreases e
  {
    var p := ChainOf(e);
    if e.below.None? {
      assert p[1..] == [];
    } else {
      assert p[1..] == ChainOf(e.below.value);
      if pos != [] && pos[0] < |n.children| {
        ChainSelects(n.children[pos[0]], e.below.value, pos[1..]);
      }
    }
  }

  /** A path of two parts: the first part reaches a node, the second goes on from there. */
  lemma {:induction false} SelectsInTwoParts(n: DataNode, a: Path, b: Path, pos: Position)
    ensures XPathSelects(n, a + b, pos) <==>
            |a| <= |pos| && XPathSelects(n, a, pos[..|a|]) && XPathSelects(At(n, pos[..|a|]), b, pos[|a|..])
    decreases |a|
  {
    if a == [] {
      assert a + b == b && pos[..0] == [] && pos[0..] == pos;
    } else {
      assert (a + b)[1..] == a[1..] + b;
      if pos != [] && pos[0] < |n.children| {
        SelectsInTwoParts(n.children[pos[0]], a[1..], b, pos[1..]);
        if |a| <= |pos| {
          assert pos[..|a|][1..] == pos[1..][..|a| - 1] && pos[1..][|a| - 1..] == pos[|a|..];
        }
      }
    }
  }

  lemma {:induction false} SelectedPositionsAreAsLongAsThePath(n: DataNode, p: Path, pos: Position)
    requires XPathSelects(n, p, pos)
    ensures |pos| == |p|
    decreases |p|
  {
    if p == [] {
    } else {
      SelectedPositionsAreAsLongAsThePath(n.children[pos[0]], p[1..], pos[1..]);
    }
  }

  lemma UnionOfBoth(n: DataNode, a: seq<Path>, b: seq<Path>, pos: Position)
    ensures UnionSelects(n, a + b, pos) <==> UnionSelects(n, a, pos) || UnionSelects(n, b, pos)
  {
    if i :| 0 <= i < |a| && XPathSelects(n, a[i], pos) {
      assert (a + b)[i] == a[i];
    }
    if i :| 0 <= i < |b| && XPathSelects(n, b[i], pos) {
      assert (a + b)[|a| + i] == b[i];
    }
  }

  lemma UnionBelow(n: DataNode, p: Path, qs: seq<Path>, pos: Position)
    ensures UnionSelects(n, Prepend(p, qs), pos) <==>
            |p| <= |pos| && XPathSelects(n, p, pos[..|p|]) && UnionSelects(At(n, pos[..|p|]), qs, pos[|p|..])
  {
    forall i | 0 <= i < |qs|
      ensures XPathSelects(n, Prepend(p, qs)[i], pos) <==>
              |p| <= |pos| && XPathSelects(n, p, pos[..|p|]) && XPathSelects(At(n, pos[..|p|]), qs[i], pos[|p|..])
    {
      SelectsInTwoParts(n, p, qs[i], pos);
    }
  }

  lemma ParenSelects(n: DataNode, path: Expr, inner: Expr, pos: Position)
    requires path.Slash? && Shaped(path) && Shaped(inner)
    requires var k := |ChainOf(path)|;
             k <= |pos| ==>
               var m, rest := At(n, pos[..k]), pos[k..];
               (FilterSelects(m, inner, rest) <==> UnionSelects(m, Denotes(inner), rest))
    ensures FilterSelects(n, Paren(path, Some(inner)), pos)
            <==> UnionSelects(n, Prepend(ChainOf(path), Denotes(inner)), pos)
  {
    var p := ChainOf(path);
    UnionBelow(n, p, Denotes(inner), pos);
    forall k | 0 <= k <= |pos|
      ensures FilterSelects(n, path, pos[..k]) <==> XPathSelects(n, p, pos[..k])
      ensures FilterSelects(n, path, pos[..k]) ==> k == |p|
    {
      ChainSelects(n, path, pos[..k]);
      if XPathSelects(n, p, pos[..k]) {
        SelectedPositionsAreAsLongAsThePath(n, p, pos[..k]);
      }
    }
  }

  /**
  Compiling preserves meaning: for every expression of the grammar, every data tree and every node in
  it, the union of the compiled paths selects the node exactly when the nested filter does.
  */
  lemma {:induction false} CompilationPreservesMeaning(n: DataNode, e: Expr, pos: Position)
    requires Shaped(e)
    ensures FilterSelects(n, e, pos) <==> UnionSelects(n, Denotes(e), pos)
    decreases e
  {
    match e
    case Slash(_, _) =>
      ChainSelects(n, e, pos);
      assert Denotes(e)[0] == ChainOf(e);
    case Paren(path, None) =>
      ChainSelects(n, path, pos);
      assert Denotes(e)[0] == ChainOf(path);
    case Paren(path, Some(inner)) =>
      var k := |ChainOf(path)|;
      if k <= |pos| {
        CompilationPreservesMeaning(At(n, pos[..k]), inner, pos[k..]);
      }
      ParenSelects(n, path, inner, pos);
    case Semi(first, None) => CompilationPreservesMeaning(n, first, pos);
    case Semi(first, Some(more)) =>
      CompilationPreservesMeaning(n, first, pos);
      CompilationPreservesMeaning(n, more, pos);
      UnionOfBoth(n, Denotes(first), Denotes(more), pos);
  }

  // ----- evaluating the text -----

  /** Some child matches the name and has the value. */
  predicate HasLeaf(n: DataNode, i: ApiIdentifier, value: string) {
    exists k :: 0 <= k < |n.children| && Matches(n, n.children[k], i) && n.children[k].value == value
  }

  /** An XPath predicate of a path: "." compares the node itself, a name one of its children. */
  predicate Holds(n: DataNode, t: Test) {
    if t.name == "." then n.value == t.value else HasLeaf(n, SplitName(t.name), t.value)
  }

  predicate AllHold(n: DataNode, ts: seq<Test>) {
    forall j | 0 <= j < |ts| :: Holds(n, ts[j])
  }

  /** Evaluating the steps of an absolute path, as read from its text. */
  predicate StepsSelect(n: DataNode, steps: seq<PathStep>, pos: Position)
    decreases |steps|
  {
    if steps == [] then pos == []
    else
      && pos != [] && pos[0] < |n.children|
      && Matches(n, n.children[pos[0]], SplitName(steps[0].name))
      && AllHold(n.children[pos[0]], steps[0].tests)
      && StepsSelect(n.children[pos[0]], steps[1..], pos[1..])
  }

  /** Evaluating a union of such paths from its text. */
  predicate TextSelects(root: DataNode, text: string, pos: Position) {
    && ReadUnion(text).Some?
    && exists i :: 0 <= i < |ReadUnion(text).value| && StepsSelect(root, ReadUnion(text).value[i], pos)
  }

  predicate HasKeys(d: DataNode, n: SchemaNode, keys: seq<string>) {
    match n.kind
    case List =>
      |keys| == |n.keys| && forall i | 0 <= i < |keys| :: HasLeaf(d, ApiIdentifier(None, n.keys[i]), keys[i])
    case LeafList => keys == [d.value]
    case _ => true
  }

  /** The node at `pos` is what the segments of a URI name: an instance of their schema nodes with their keys. */
  predicate IsInstance(d: DataNode, top: seq<SchemaNode>, at: Option<SchemaNode>, segs: seq<Segment>, pos: Position)
    decreases |segs|
  {
    if segs == [] then pos == []
    else
      && pos != [] && pos[0] < |d.children|
      && var n, c := Resolve(top, at, segs[0].ident), d.children[pos[0]];
      && n.Some? && c.mod == n.value.mod && c.name == n.value.name
      && HasKeys(c, n.value, segs[0].keys)
      && IsInstance(c, top, n, segs[1..], pos[1..])
  }

  lemma SplitPlain(name: string)
    requires IsIdentifier(name)
    ensures SplitName(name) == ApiIdentifier(None, name)
  {
    IdentifierHasNoColon(name);
    IndexOfAbsent(name, ':');
  }

  lemma SplitOfName(i: ApiIdentifier)
    requires ValidIdentifier(i)
    ensures SplitName(Name(i)) == i
  {
    if i.prefix.None? {
      SplitPlain(i.name);
    } else {
      var p := i.prefix.value;
      IdentifierHasNoColon(p);
      IndexOfAfter(p, ':', i.name);
      assert Name(i) == p + [':'] + i.name;
      assert Name(i)[..|p|] == p && Name(i)[|p| + 1..] == i.name;
    }
  }

  lemma KeyTestHolds(d: DataNode, name: string, value: string)
    requires IsIdentifier(name)
    ensures Holds(d, Test(name, value)) <==> HasLeaf(d, ApiIdentifier(None, name), value)
  {
    SplitPlain(name);
    assert name[0] != '.';
  }

  lemma KeyTestsHold(d: DataNode, n: SchemaNode, keys: seq<string>)
    requires WellNamed(n) && KeysFor(n, keys).Ok?
    ensures AllHold(d, KeyTests(n, keys)) <==> HasKeys(d, n, keys)
  {
    var ts := KeyTests(n, keys);
    match n.kind {
      case List =>
        forall i | 0 <= i < |keys|
          ensures Holds(d, ts[i]) <==> HasLeaf(d, ApiIdentifier(None, n.keys[i]), keys[i])
        {
          KeyTestHolds(d, n.keys[i], keys[i]);
        }
      case LeafList =>
        assert ts[0] == Test(".", keys[0]);
      case _ =>
    }
  }

  /** The resource part of the text selects exactly the instances of the resource. */
  lemma {:induction false} ResourceSelects(
    d: DataNode, top: seq<SchemaNode>, at: Option<SchemaNode>, segs: seq<Segment>, pos: Position)
    requires AllWellNamed(top) && (at.Some? ==> WellNamed(at.value) && d.mod == at.value.mod)
    requires Walk(top, at, segs).Ok?
    ensures StepsSelect(d, Meaning(top, at, segs), pos) <==> IsInstance(d, top, at, segs, pos)
    decreases |segs|
  {
    if segs == [] {
    } else {
      WalkUnroll(top, at, segs);
      var found := Resolve(top, at, segs[0].ident);
      FoundIsWellNamed(top, at, segs[0].ident);
      SplitQualified(at, found.value);
      var steps := Meaning(top, at, segs);
      assert steps[1..] == Meaning(top, found, segs[1..]);
      if pos != [] && pos[0] < |d.children| {
        var c := d.children[pos[0]];
        KeyTestsHold(c, found.value, segs[0].keys);
        if c.mod == found.value.mod {
          ResourceSelects(c, top, found, segs[1..], pos[1..]);
        }
      }
    }
  }

  lemma {:induction false} MeaningIsAsLong(top: seq<SchemaNode>, at: Option<SchemaNode>, segs: seq<Segment>)
    requires Walk(top, at, segs).Ok?
    ensures |Meaning(top, at, segs)| == |segs|
    decreases |segs|
  {
    if segs == [] {
    } else {
      WalkUnroll(top, at, segs);
      MeaningIsAsLong(top, Resolve(top, at, segs[0].ident), segs[1..]);
    }
  }

  lemma {:induction false} PlainStepsSelect(n: DataNode, p: Path, pos: Position)
    requires AllValid(p)
    ensures StepsSelect(n, PlainSteps(p), pos) <==> XPathSelects(n, p, pos)
    decreases |p|
  {
    if p == [] {
    } else {
      SplitOfName(p[0]);
      assert PlainSteps(p)[1..] == PlainSteps(p[1..]);
      if pos != [] && pos[0] < |n.children| {
        PlainStepsSelect(n.children[pos[0]], p[1..], pos[1..]);
      }
    }
  }

  lemma {:induction false} StepsInTwoParts(n: DataNode, a: seq<PathStep>, b: seq<PathStep>, pos: Position)
    ensures StepsSelect(n, a + b, pos) <==>
            |a| <= |pos| && StepsSelect(n, a, pos[..|a|]) && StepsSelect(At(n, pos[..|a|]), b, pos[|a|..])
    decreases |a|
  {
    if a == [] {
      assert a + b == b && pos[..0] == [] && pos[0..] == pos;
    } else {
      assert (a + b)[1..] == a[1..] + b;
      if pos != [] && pos[0] < |n.children| {
        StepsInTwoParts(n.children[pos[0]], a[1..], b, pos[1..]);
        if |a| <= |pos| {
          assert pos[..|a|][1..] == pos[1..][..|a| - 1] && pos[1..][|a| - 1..] == pos[|a|..];
        }
      }
    }
  }

  /** The node at `pos` lies below an instance of the resource, where the filter selects it. */
  predicate FilterSelectsBelow(root: DataNode, top: seq<SchemaNode>, segs: seq<Segment>, e: Expr, pos: Position) {
    var k := |segs|;
    k <= |pos| && IsInstance(root, top, None, segs, pos[..k]) && FilterSelects(At(root, pos[..k]), e, pos[k..])
  }

  lemma OnePathSelects(root: DataNode, top: seq<SchemaNode>, segs: seq<Segment>, p: Path, pos: Position)
    requires AllWellNamed(top) && Walk(top, None, segs).Ok? && AllValid(p)
    ensures StepsSelect(root, Meaning(top, None, segs) + PlainSteps(p), pos) <==>
            var k := |segs|;
            k <= |pos| && IsInstance(root, top, None, segs, pos[..k]) && XPathSelects(At(root, pos[..k]), p, pos[k..])
  {
    var k := |segs|;
    MeaningIsAsLong(top, None, segs);
    StepsInTwoParts(root, Meaning(top, None, segs), PlainSteps(p), pos);
    if k <= |pos| {
      ResourceSelects(root, top, None, segs, pos[..k]);
      PlainStepsSelect(At(root, pos[..k]), p, pos[k..]);
    }
  }

  /**
  The text that is sent to sysrepo, evaluated on any data tree, selects exactly what the filter selects
  below the instances of the resource, whatever the keys contain.
  */
  lemma TextSelectsWhatTheFilterSelects(
    root: DataNode, top: seq<SchemaNode>, segs: seq<Segment>, e: Expr, pos: Position)
    requires AllWellNamed(top) && Walk(top, None, segs).Ok? && Shaped(e)
    ensures var text := Join(Texts([Walk(top, None, segs).value.path], Denotes(e)), " | ");
            TextSelects(root, text, pos) <==> FilterSelectsBelow(root, top, segs, e, pos)
  {
    var ps := Denotes(e);
    CompiledUnionReadsBack(top, segs, e);
    forall i | 0 <= i < |ps|
      ensures StepsSelect(root, UnionMeaning(top, segs, ps)[i], pos) <==>
              var k := |segs|;
              && k <= |pos| && IsInstance(root, top, None, segs, pos[..k])
              && XPathSelects(At(root, pos[..k]), ps[i], pos[k..])
    {
      DenotedNamesAreValid(e, i);
      OnePathSelects(root, top, segs, ps[i], pos);
    }
    if |segs| <= |pos| {
      CompilationPreservesMeaning(At(root, pos[..|segs|]), e, pos[|segs|..]);
    }
  }
}
