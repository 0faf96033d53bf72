/**
The `fields` query parameter (section 4.8.3 of RFC 8040): its expressions, its grammar and its printed
form.
*/
module Fields {
  import opened Common
  import opened UriPath

  /** The three kinds of expression of the source, with no restriction on how they nest. */
  datatype Expr =
    | Slash(ident: ApiIdentifier, below: Option<Expr>)
    | Paren(path: Expr, inner: Option<Expr>)
    | Semi(first: Expr, more: Option<Expr>)

  /** The nesting that the grammar produces: slash below paren below semi. */
  predicate Shaped(e: Expr) {
    match e
    case Slash(i, below) =>
      ValidIdentifier(i) && (below.Some? ==> below.value.Slash? && Shaped(below.value))
    case Paren(path, inner) =>
      path.Slash? && Shaped(path) && (inner.Some? ==> inner.value.Semi? && Shaped(inner.value))
    case Semi(first, more) =>
      first.Paren? && Shaped(first) && (more.Some? ==> more.value.Semi? && Shaped(more.value))
  }

  // ----- the grammar -----

  /** apiIdentifier > -("/" > fieldsSlash) */
  function ParseSlash(s: string): (p: Parse<Expr>)
    ensures p.Match? ==> |p.rest| < |s|
    ensures !p.NoMatch?
    decreases |s|, 0
  {
    match ParseApiIdentifier(s)
    case Match(i, rest) =>
      if Begins(rest, '/') then
        match ParseSlash(rest[1..])
        case Match(e, rest') => Match(Slash(i, Some(e)), rest')
        case _ => Abort
      else Match(Slash(i, None), rest)
    case _ => Abort
  }

  /** fieldsSlash > -("(" > fieldsExpr > ")") */
  function ParseParen(s: string): (p: Parse<Expr>)
    ensures p.Match? ==> |p.rest| < |s|
    ensures !p.NoMatch?
    decreases |s|, 1
  {
    match ParseSlash(s)
    case Match(path, rest) =>
      if Begins(rest, '(') then
        match ParseSemi(rest[1..])
        case Match(e, rest') => if Begins(rest', ')') then Match(Paren(path, Some(e)), rest'[1..]) else Abort
        case _ => Abort
      else Match(Paren(path, None), rest)
    case _ => Abort
  }

  /** fieldsParen > -(";" > fieldsSemi) */
  function ParseSemi(s: string): (p: Parse<Expr>)
    ensures p.Match? ==> |p.rest| < |s|
    ensures !p.NoMatch?
    decreases |s|, 2
  {
    match ParseParen(s)
    case Match(first, rest) =>
      if Begins(rest, ';') then
        match ParseSemi(rest[1..])
        case Match(e, rest') => Match(Semi(first, Some(e)), rest')
        case _ => Abort
      else Match(Semi(first, None), rest)
    case _ => Abort
  }

  function Print(e: Expr): string {
    match e
    case Slash(i, below) => Name(i) + if below.None? then "" else "/" + Print(below.value)
    case Paren(path, inner) => Print(path) + if inner.None? then "" else "(" + (Print(inner.value) + ")")
    case Semi(first, more) => Print(first) + if more.None? then "" else ";" + Print(more.value)
  }

  /** The rule of the grammar that yields this kind of expression. */
  function ParseAs(e: Expr, s: string): Parse<Expr> {
    match e
    case Slash(_, _) => ParseSlash(s)
    case Paren(_, _) => ParseParen(s)
    case Semi(_, _) => ParseSemi(s)
  }

  /** `rest` cannot be taken for a continuation of `e`. */
  predicate Ends(e: Expr, rest: string) {
    && EndsIdentifier(rest) && !Begins(rest, ':') && !Begins(rest, '/')
    && (!e.Slash? ==> !Begins(rest, '('))
    && (e.Semi? ==> !Begins(rest, ';'))
  }

  // ----- printing, then parsing -----

  lemma ReadSlash(i: ApiIdentifier, below: Option<Expr>, rest: string)
    requires ValidIdentifier(i) && Ends(Slash(i, below), rest)
    requires below.Some? ==> ParseSlash(Print(below.value) + rest) == Match(below.value, rest)
    ensures ParseSlash(Print(Slash(i, below)) + rest) == Match(Slash(i, below), rest)
  {
    if below.None? {
      assert Name(i) + "" + rest == Name(i) + rest;
      ReadApiIdentifier(i, rest);
    } else {
      var tail := Print(below.value) + rest;
      Associative(Name(i), "/" + Print(below.value), rest);
      Associative("/", Print(below.value), rest);
      Skip('/', tail);
      ReadApiIdentifier(i, "/" + tail);
    }
  }

  lemma Brackets(a: string, body: string, rest: string)
    ensures a + ("(" + (body + ")")) + rest == a + ("(" + (body + (")" + rest)))
  {
    Associative(a, "(" + (body + ")"), rest);
    Associative("(", body + ")", rest);
    Associative(body, ")", rest);
  }

  lemma ReadParen(path: Expr, inner: Expr, rest: string)
    requires ParseSlash(Print(path) + ("(" + (Print(inner) + (")" + rest))))
             == Match(path, "(" + (Print(inner) + (")" + rest)))
    requires ParseSemi(Print(inner) + (")" + rest)) == Match(inner, ")" + rest)
    ensures ParseParen(Print(Paren(path, Some(inner))) + rest) == Match(Paren(path, Some(inner)), rest)
  {
    Brackets(Print(path), Print(inner), rest);
    Skip('(', Print(inner) + (")" + rest));
    Skip(')', rest);
  }

  lemma ReadSemi(first: Expr, more: Expr, rest: string)
    requires ParseParen(Print(first) + (";" + (Print(more) + rest))) == Match(first, ";" + (Print(more) + rest))
    requires ParseSemi(Print(more) + rest) == Match(more, rest)
    ensures ParseSemi(Print(Semi(first, Some(more))) + rest) == Match(Semi(first, Some(more)), rest)
  {
    Associative(Print(first), ";" + Print(more), rest);
    Associative(";", Print(more), rest);
    Skip(';', Print(more) + rest);
  }

  lemma {:induction false} ReadExpr(e: Expr, rest: string)
    requires Shaped(e) && Ends(e, rest)
    ensures ParseAs(e, Print(e) + rest) == Match(e, rest)
    decreases e
  {
    match e
    case Slash(i, below) =>
      if below.Some? { ReadExpr(below.value, rest); }
      ReadSlash(i, below, rest);
    case Paren(path, None) =>
      assert Print(path) + "" == Print(path);
      ReadExpr(path, rest);
    case Paren(path, Some(inner)) =>
      ReadExpr(inner, ")" + rest);
      ReadExpr(path, "(" + (Print(inner) + (")" + rest)));
      ReadParen(path, inner, rest);
    case Semi(first, None) =>
      assert Print(first) + "" == Print(first);
      ReadExpr(first, rest);
    case Semi(first, Some(more)) =>
      ReadExpr(more, rest);
      ReadExpr(first, ";" + (Print(more) + rest));
      ReadSemi(first, more, rest);
  }

  // ----- parsing, then printing -----

  lemma {:induction false} SlashCameFrom(s: string)
    requires ParseSlash(s).Match?
    ensures var p := ParseSlash(s); p.value.Slash? && Shaped(p.value) && s == Print(p.value) + p.rest
    decreases |s|
  {
    ApiIdentifierCameFrom(s);
    var q := ParseApiIdentifier(s);
    if Begins(q.rest, '/') {
      SlashCameFrom(q.rest[1..]);
      var p := ParseSlash(q.rest[1..]);
      Head('/', q.rest);
      Associative(Name(q.value), "/" + Print(p.value), p.rest);
      Associative("/", Print(p.value), p.rest);
    } else {
      assert Name(q.value) + "" == Name(q.value);
    }
  }

  lemma {:induction false} ParenCameFrom(s: string)
    requires ParseParen(s).Match?
    ensures var p := ParseParen(s); p.value.Paren? && Shaped(p.value) && s == Print(p.value) + p.rest
    decreases |s|, 1
  {
    SlashCameFrom(s);
    var q := ParseSlash(s);
    if Begins(q.rest, '(') {
      SemiCameFrom(q.rest[1..]);
      var p := ParseSemi(q.rest[1..]);
      var body, rest := Print(p.value), p.rest[1..];
      Head('(', q.rest);
      Head(')', p.rest);
      Brackets(Print(q.value), body, rest);
    } else {
      assert Print(q.value) + "" == Print(q.value);
    }
  }

  lemma {:induction false} SemiCameFrom(s: string)
    requires ParseSemi(s).Match?
    ensures var p := ParseSemi(s); p.value.Semi? && Shaped(p.value) && s == Print(p.value) + p.rest
    decreases |s|, 2
  {
    ParenCameFrom(s);
    var q := ParseParen(s);
    if Begins(q.rest, ';') {
      SemiCameFrom(q.rest[1..]);
      var p := ParseSemi(q.rest[1..]);
      Head(';', q.rest);
      Associative(Print(q.value), ";" + Print(p.value), p.rest);
      Associative(";", Print(p.value), p.rest);
    } else {
      assert Print(q.value) + "" == Print(q.value);
    }
  }

  /** A whole string is accepted as `e` exactly when `e` has the grammar's shape and prints as that string. */
  lemma ParseIffPrinted(s: string, e: Expr)
    ensures ParseSemi(s) == Match(e, "") <==> e.Semi? && Shaped(e) && s == Print(e)
  {
    if ParseSemi(s) == Match(e, "") {
      SemiCameFrom(s);
      assert Print(e) + "" == Print(e);
    } else if e.Semi? && Shaped(e) {
      ReadExpr(e, "");
      assert Print(e) + "" == Print(e);
    }
  }
}
