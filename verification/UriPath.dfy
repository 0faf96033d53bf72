/**
The RESTCONF resource path: its grammar as a recursive-descent parser, its printed form, and the
proof that the two are inverse to each other.

A `char` stands for one byte of the URI. In the grammar a plain sequence backtracks when an element
does not match (`NoMatch`); after an expectation point, a mismatch fails the whole parse (`Abort`).
*/
module UriPath {
  import opened Common

  datatype ApiIdentifier = ApiIdentifier(prefix: Option<string>, name: string)

  datatype Segment = Segment(ident: ApiIdentifier, keys: seq<string>)

  datatype Prefix =
    | RestconfRoot
    | BasicRestconfData
    | BasicRestconfOperations
    | NmdaDatastore(datastore: ApiIdentifier)
    | YangLibraryVersion

  datatype Uri = Uri(prefix: Prefix, segments: seq<Segment>)

  datatype Parse<+T> = Match(value: T, rest: string) | NoMatch | Abort

  // ----- character classes -----

  predicate IsAlpha(c: char) { 'a' <= c <= 'z' || 'A' <= c <= 'Z' }

  predicate IsDigit(c: char) { '0' <= c <= '9' }

  predicate StartsIdentifier(c: char) { IsAlpha(c) || c == '_' }

  predicate IsIdentifierChar(c: char) { IsAlpha(c) || IsDigit(c) || c == '_' || c == '-' || c == '.' }

  predicate IsReserved(c: char) {
    || c == ':' || c == '/' || c == '?' || c == '#' || c == '[' || c == ']' || c == '@' || c == '!' || c == '$'
    || c == '&' || c == '\'' || c == '(' || c == ')' || c == '*' || c == '+' || c == ',' || c == ';' || c == '='
    || c == '%'
  }

  predicate IsHexDigit(c: char) { IsDigit(c) || 'a' <= c <= 'f' || 'A' <= c <= 'F' }

  function HexValue(c: char): (v: nat)
    requires IsHexDigit(c)
    ensures v < 16
  {
    if IsDigit(c) then c as int - '0' as int
    else if 'a' <= c then c as int - 'a' as int + 10
    else c as int - 'A' as int + 10
  }

  function HexByte(hi: char, lo: char): char
    requires IsHexDigit(hi) && IsHexDigit(lo)
  {
    (16 * HexValue(hi) + HexValue(lo)) as char
  }

  predicate Begins(s: string, c: char) {
    s != "" && s[0] == c
  }

  // ----- the grammar -----

  function IdentifierLength(s: string): (n: nat)
    ensures n <= |s|
  {
    if s != "" && IsIdentifierChar(s[0]) then 1 + IdentifierLength(s[1..]) else 0
  }

  function ParseIdentifier(s: string): (p: Parse<string>)
    ensures p.Match? ==> |p.rest| < |s|
    ensures !p.Abort?
  {
    if s != "" && StartsIdentifier(s[0]) then
      var n := 1 + IdentifierLength(s[1..]);
      Match(s[..n], s[n..])
    else NoMatch
  }

  /** -(identifier >> ':') > identifier: the optional module name is given up if no colon follows. */
  function ParseApiIdentifier(s: string): (p: Parse<ApiIdentifier>)
    ensures p.Match? ==> |p.rest| < |s|
    ensures !p.NoMatch?
  {
    match ParseIdentifier(s)
    case Match(first, rest) =>
      if Begins(rest, ':') then
        match ParseIdentifier(rest[1..])
        case Match(second, rest') => Match(ApiIdentifier(Some(first), second), rest')
        case _ => Abort
      else Match(ApiIdentifier(None, first), rest)
    case _ => Abort
  }

  /** identifier > ':' > identifier */
  function ParseQualifiedIdentifier(s: string): (p: Parse<ApiIdentifier>)
    ensures p.Match? ==> |p.rest| < |s|
  {
    match ParseIdentifier(s)
    case Match(first, rest) =>
      if Begins(rest, ':') then
        match ParseIdentifier(rest[1..])
        case Match(second, rest') => Match(ApiIdentifier(Some(first), second), rest')
        case _ => Abort
      else Abort
    case _ => NoMatch
  }

  /** A possibly empty percent-encoded string. */
  function ParseKey(s: string): (p: Parse<string>)
    ensures p.Match? ==> |p.rest| <= |s|
    ensures !p.NoMatch?
    decreases |s|
  {
    if Begins(s, '%') then
      if |s| >= 3 && IsHexDigit(s[1]) && IsHexDigit(s[2]) then
        match ParseKey(s[3..])
        case Match(k, rest) => Match([HexByte(s[1], s[2])] + k, rest)
        case _ => Abort
      else Abort
    else if s != "" && !IsReserved(s[0]) then
      match ParseKey(s[1..])
      case Match(k, rest) => Match([s[0]] + k, rest)
      case _ => Abort
    else Match("", s)
  }

  /** Keys separated by commas; at least one, each possibly empty. */
  function ParseKeyList(s: string): (p: Parse<seq<string>>)
    ensures p.Match? ==> |p.rest| <= |s| && p.value != []
    ensures !p.NoMatch?
    decreases |s|
  {
    match ParseKey(s)
    case Match(k, rest) =>
      if Begins(rest, ',') then
        match ParseKeyList(rest[1..])
        case Match(ks, rest') => Match([k] + ks, rest')
        case _ => Abort
      else Match([k], rest)
    case _ => Abort
  }

  /** -('=' > keyList > noStrayEquals) */
  function ParseKeys(s: string): (p: Parse<seq<string>>)
    ensures p.Match? ==> |p.rest| <= |s|
    ensures !p.NoMatch?
  {
    if Begins(s, '=') then
      match ParseKeyList(s[1..])
      case Match(ks, rest) => if Begins(rest, '=') then Abort else Match(ks, rest)
      case _ => Abort
    else Match([], s)
  }

  function WithKeys(p: Parse<ApiIdentifier>): (q: Parse<Segment>)
    ensures q.Match? ==> p.Match? && |q.rest| <= |p.rest|
  {
    match p
    case Match(ident, rest) =>
      (match ParseKeys(rest)
       case Match(ks, rest') => Match(Segment(ident, ks), rest')
       case _ => Abort)
    case NoMatch => NoMatch
    case Abort => Abort
  }

  /** -("/" > listInstance % "/") */
  function ParseMoreSegments(s: string): (p: Parse<seq<Segment>>)
    ensures !p.NoMatch?
    decreases |s|
  {
    if Begins(s, '/') then
      match WithKeys(ParseApiIdentifier(s[1..]))
      case Match(seg, rest) =>
        (match ParseMoreSegments(rest)
         case Match(segs, rest') => Match([seg] + segs, rest')
         case _ => Abort)
      case _ => Abort
    else Match([], s)
  }

  /** uriPath: empty, "/", or "/" and a path whose first segment names its module. */
  function ParseUriPath(s: string): Parse<seq<Segment>> {
    if s == "" || s == "/" then Match([], "")
    else if s[0] == '/' then
      match WithKeys(ParseQualifiedIdentifier(s[1..]))
      case Match(seg, rest) =>
        (match ParseMoreSegments(rest)
         case Match(segs, rest') => Match([seg] + segs, rest')
         case _ => Abort)
      case _ => Abort
    else NoMatch
  }

  predicate HasPrefix(s: string, p: string) {
    |p| <= |s| && s[..|p|] == p
  }

  /** The path must end where the input ends. */
  function Finish(prefix: Prefix, p: Parse<seq<Segment>>): Option<Uri> {
    if p.Match? && p.rest == "" then Some(Uri(prefix, p.value)) else None
  }

  /** What follows "/restconf/". */
  function ParseResource(s: string): Option<Uri> {
    if s == "" then Some(Uri(RestconfRoot, []))
    else if HasPrefix(s, "data") then Finish(BasicRestconfData, ParseUriPath(s[4..]))
    else if HasPrefix(s, "ds") then
      var rest := s[2..];
      if Begins(rest, '/') then
        match ParseQualifiedIdentifier(rest[1..])
        case Match(ds, rest') => Finish(NmdaDatastore(ds), ParseUriPath(rest'))
        case _ => None
      else None
    else if HasPrefix(s, "operations") then Finish(BasicRestconfOperations, ParseUriPath(s[10..]))
    else if HasPrefix(s, "yang-library-version") then
      var rest := s[20..];
      if rest == "" || rest == "/" then Some(Uri(YangLibraryVersion, [])) else None
    else None
  }

  const ROOT: string := "/restconf"

  function ParseUri(s: string): Option<Uri> {
    if HasPrefix(s, ROOT) then
      var rest := s[|ROOT|..];
      if rest == "" then Some(Uri(RestconfRoot, []))
      else if rest[0] == '/' then ParseResource(rest[1..])
      else None
    else None
  }

  // ----- the printed form -----

  /** ApiIdentifier::name() */
  function Name(i: ApiIdentifier): string {
    if i.prefix.None? then i.name else i.prefix.value + ":" + i.name
  }

  /** The printed keys of a segment, with their '='. */
  function PrintKeys(keys: seq<string>): string {
    if keys == [] then "" else "=" + Join(keys, ",")
  }

  /** A segment whose keys are already percent-encoded. */
  function PrintSegment(e: Segment): string {
    Name(e.ident) + PrintKeys(e.keys)
  }

  function PrintSegments(es: seq<Segment>): string {
    if es == [] then "" else "/" + PrintSegment(es[0]) + PrintSegments(es[1..])
  }

  function PrintResource(p: Prefix): string {
    match p
    case RestconfRoot => ""
    case BasicRestconfData => "data"
    case BasicRestconfOperations => "operations"
    case NmdaDatastore(ds) => "ds" + ("/" + Name(ds))
    case YangLibraryVersion => "yang-library-version"
  }

  function PrintPrefix(p: Prefix): string {
    if p == RestconfRoot then "" else "/" + PrintResource(p)
  }

  function PrintUri(p: Prefix, es: seq<Segment>): string {
    ROOT + (PrintPrefix(p) + PrintSegments(es))
  }

  predicate IsIdentifier(s: string) {
    s != "" && StartsIdentifier(s[0]) && forall i | 0 <= i < |s| :: IsIdentifierChar(s[i])
  }

  predicate ValidIdentifier(i: ApiIdentifier) {
    (i.prefix.Some? ==> IsIdentifier(i.prefix.value)) && IsIdentifier(i.name)
  }

  predicate ValidSegments(segs: seq<Segment>) {
    forall i | 0 <= i < |segs| :: ValidIdentifier(segs[i].ident)
  }

  /** The URIs the grammar describes: a module-qualified first segment, and none at all for two prefixes. */
  predicate ValidUri(u: Uri) {
    && ValidSegments(u.segments)
    && (u.segments != [] ==> u.segments[0].ident.prefix.Some?)
    && (u.prefix == RestconfRoot || u.prefix == YangLibraryVersion ==> u.segments == [])
    && (u.prefix.NmdaDatastore? ==> ValidIdentifier(u.prefix.datastore) && u.prefix.datastore.prefix.Some?)
  }

  const LOWER_DIGITS := "0123456789abcdef"
  const UPPER_DIGITS := "0123456789ABCDEF"

  /** `c` is the hexadecimal digit number `d`, in either case. */
  predicate IsDigitOf(c: char, d: nat)
    requires d < 16
  {
    c == LOWER_DIGITS[d] || c == UPPER_DIGITS[d]
  }

  /** The two digits of a byte. */
  predicate StandsFor(hi: char, lo: char, b: char) {
    b as int < 256 && IsDigitOf(hi, b as int / 16) && IsDigitOf(lo, b as int % 16)
  }

  /** `e` is `k` with some bytes percent-encoded, among them all the reserved ones; hex digits in any case. */
  predicate Encodes(e: string, k: string)
    decreases |e|
  {
    if Begins(e, '%') then
      |e| >= 3 && k != "" && StandsFor(e[1], e[2], k[0]) && Encodes(e[3..], k[1..])
    else if e != "" then
      !IsReserved(e[0]) && k != "" && k[0] == e[0] && Encodes(e[1..], k[1..])
    else k == ""
  }

  predicate EncodesKeys(es: seq<string>, ks: seq<string>) {
    |es| == |ks| && forall i | 0 <= i < |es| :: Encodes(es[i], ks[i])
  }

  predicate EncodesSegment(e: Segment, s: Segment) {
    e.ident == s.ident && EncodesKeys(e.keys, s.keys)
  }

  predicate EncodesSegments(es: seq<Segment>, ss: seq<Segment>) {
    |es| == |ss| && forall i | 0 <= i < |es| :: EncodesSegment(es[i], ss[i])
  }

  // ----- what the digits of the grammar are worth -----

  lemma HexValueIs(c: char, d: nat)
    requires d < 16
    ensures IsDigitOf(c, d) <==> IsHexDigit(c) && HexValue(c) == d
  {
  }

  /** The grammar reads two hexadecimal digits as the byte they stand for, and accepts no other digits. */
  lemma HexByteIs(hi: char, lo: char, b: char)
    ensures StandsFor(hi, lo, b) <==> IsHexDigit(hi) && IsHexDigit(lo) && HexByte(hi, lo) == b
  {
    if b as int < 256 {
      HexValueIs(hi, b as int / 16);
      HexValueIs(lo, b as int % 16);
    }
  }

  const GEN_DELIMS := ":/?#[]@"
  const SUB_DELIMS := "!$&'()*+,;="

  /** The reserved characters are those of section 2.2 of RFC 3986, and the percent sign. */
  lemma ReservedCharacters(c: char)
    ensures IsReserved(c) <==> c in GEN_DELIMS || c in SUB_DELIMS || c == '%'
  {
  }

  // ----- every key has an encoding -----

  function HexDigit(v: nat): (c: char)
    requires v < 16
    ensures IsDigitOf(c, v)
  {
    if v < 10 then ('0' as int + v) as char else ('A' as int + v - 10) as char
  }

  function EncodeByte(c: char): string
    requires c as int < 256
  {
    if IsReserved(c) then ['%', HexDigit(c as int / 16), HexDigit(c as int % 16)] else [c]
  }

  function Encode(k: string): string
    requires forall i | 0 <= i < |k| :: k[i] as int < 256
  {
    if k == "" then "" else EncodeByte(k[0]) + Encode(k[1..])
  }

  lemma {:induction false} EncodeIsAnEncoding(k: string)
    requires forall i | 0 <= i < |k| :: k[i] as int < 256
    ensures Encodes(Encode(k), k)
    decreases |k|
  {
    if k == "" {
    } else {
      EncodeIsAnEncoding(k[1..]);
      var b := EncodeByte(k[0]);
      var e := Encode(k);
      assert e[|b|..] == Encode(k[1..]);
      if IsReserved(k[0]) {
        assert e[0] == '%' && e[1] == b[1] && e[2] == b[2];
        assert StandsFor(b[1], b[2], k[0]);
      } else {
        assert e[0] == k[0] != '%';
      }
    }
  }

  // ----- printing, then parsing -----

  /** Where an identifier certainly ends. */
  predicate EndsIdentifier(rest: string) {
    rest == "" || !IsIdentifierChar(rest[0])
  }

  lemma {:induction false} IdentifierLengthOf(s: string, rest: string)
    requires (forall i | 0 <= i < |s| :: IsIdentifierChar(s[i])) && EndsIdentifier(rest)
    ensures IdentifierLength(s + rest) == |s|
    decreases |s|
  {
    if s == "" {
      assert s + rest == rest;
    } else {
      assert (s + rest)[1..] == s[1..] + rest;
      IdentifierLengthOf(s[1..], rest);
    }
  }

  lemma ReadIdentifier(s: string, rest: string)
    requires IsIdentifier(s) && EndsIdentifier(rest)
    ensures ParseIdentifier(s + rest) == Match(s, rest)
  {
    assert (s + rest)[1..] == s[1..] + rest;
    IdentifierLengthOf(s[1..], rest);
  }

  lemma ReadApiIdentifier(i: ApiIdentifier, rest: string)
    requires ValidIdentifier(i) && EndsIdentifier(rest) && !Begins(rest, ':')
    ensures ParseApiIdentifier(Name(i) + rest) == Match(i, rest)
    ensures i.prefix.Some? ==> ParseQualifiedIdentifier(Name(i) + rest) == Match(i, rest)
  {
    if i.prefix.None? {
      ReadIdentifier(i.name, rest);
    } else {
      var tail := [':'] + (i.name + rest);
      Associative(i.prefix.value, ":", i.name);
      Associative(i.prefix.value, ":" + i.name, rest);
      Associative(":", i.name, rest);
      Skip(':', i.name + rest);
      ReadIdentifier(i.prefix.value, tail);
      ReadIdentifier(i.name, rest);
    }
  }

  /** Where a key certainly ends. */
  predicate EndsKey(rest: string) {
    rest == "" || (IsReserved(rest[0]) && rest[0] != '%')
  }

  lemma {:induction false} ReadKey(e: string, k: string, rest: string)
    requires Encodes(e, k) && EndsKey(rest)
    ensures ParseKey(e + rest) == Match(k, rest)
    decreases |e|
  {
    if e == "" {
      assert e + rest == rest;
    } else {
      assert k == [k[0]] + k[1..];
      if e[0] == '%' {
        HexByteIs(e[1], e[2], k[0]);
        assert (e + rest)[3..] == e[3..] + rest;
        ReadKey(e[3..], k[1..], rest);
      } else {
        assert (e + rest)[1..] == e[1..] + rest;
        ReadKey(e[1..], k[1..], rest);
      }
    }
  }

  lemma JoinSplit(es: seq<string>, rest: string)
    requires |es| > 1
    ensures Join(es, ",") + rest == es[0] + ("," + (Join(es[1..], ",") + rest))
  {
  }

  lemma Skip(c: char, s: string)
    ensures ([c] + s)[1..] == s && Begins([c] + s, c)
  {
  }

  lemma Head(c: char, s: string)
    requires Begins(s, c)
    ensures s == [c] + s[1..]
  {
  }

  /** The list goes on after a comma, and ends otherwise. */
  lemma KeyListStep(s: string, k: string, rest: string)
    requires ParseKey(s) == Match(k, rest)
    ensures !Begins(rest, ',') ==> ParseKeyList(s) == Match([k], rest)
    ensures Begins(rest, ',') && ParseKeyList(rest[1..]).Match? ==>
              ParseKeyList(s) == Match([k] + ParseKeyList(rest[1..]).value, ParseKeyList(rest[1..]).rest)
  {
  }

  lemma {:induction false} ReadKeyList(es: seq<string>, ks: seq<string>, rest: string)
    requires EncodesKeys(es, ks) && es != [] && EndsKey(rest) && !Begins(rest, ',')
    ensures ParseKeyList(Join(es, ",") + rest) == Match(ks, rest)
    decreases |es|
  {
    assert ks == [ks[0]] + ks[1..];
    if |es| == 1 {
      ReadKey(es[0], ks[0], rest);
      KeyListStep(es[0] + rest, ks[0], rest);
      assert ks == [ks[0]] && Join(es, ",") == es[0];
    } else {
      var more := Join(es[1..], ",") + rest;
      JoinSplit(es, rest);
      ReadKey(es[0], ks[0], [','] + more);
      Skip(',', more);
      ReadKeyList(es[1..], ks[1..], rest);
      KeyListStep(es[0] + ([','] + more), ks[0], [','] + more);
    }
  }

  predicate EndsSegment(rest: string) {
    rest == "" || rest[0] == '/'
  }

  lemma ReadKeys(es: seq<string>, ks: seq<string>, rest: string)
    requires EncodesKeys(es, ks) && EndsSegment(rest)
    ensures ParseKeys(PrintKeys(es) + rest) == Match(ks, rest)
    ensures EndsIdentifier(PrintKeys(es) + rest) && !Begins(PrintKeys(es) + rest, ':')
  {
    if es == [] {
      assert PrintKeys(es) + rest == rest;
    } else {
      var more := Join(es, ",") + rest;
      assert PrintKeys(es) + rest == ['='] + more;
      Skip('=', more);
      ReadKeyList(es, ks, rest);
    }
  }

  lemma ReadSegment(e: Segment, s: Segment, rest: string)
    requires EncodesSegment(e, s) && ValidIdentifier(s.ident) && EndsSegment(rest)
    ensures WithKeys(ParseApiIdentifier(PrintSegment(e) + rest)) == Match(s, rest)
    ensures s.ident.prefix.Some? ==> WithKeys(ParseQualifiedIdentifier(PrintSegment(e) + rest)) == Match(s, rest)
  {
    assert PrintSegment(e) + rest == Name(e.ident) + (PrintKeys(e.keys) + rest);
    ReadKeys(e.keys, s.keys, rest);
    ReadApiIdentifier(e.ident, PrintKeys(e.keys) + rest);
  }

  lemma PrintSegmentsCons(e: Segment, es: seq<Segment>, rest: string)
    ensures PrintSegments([e] + es) + rest == ['/'] + (PrintSegment(e) + (PrintSegments(es) + rest))
  {
    assert ([e] + es)[1..] == es;
  }

  lemma SegmentsEnd(es: seq<Segment>)
    ensures EndsSegment(PrintSegments(es))
  {
  }

  lemma MoreSegmentsStep(s: string)
    requires WithKeys(ParseApiIdentifier(s)).Match?
    ensures var q := WithKeys(ParseApiIdentifier(s));
            var more := ParseMoreSegments(q.rest);
            more.Match? ==> ParseMoreSegments(['/'] + s) == Match([q.value] + more.value, more.rest)
  {
    Skip('/', s);
  }

  lemma {:induction false} ReadMoreSegments(es: seq<Segment>, ss: seq<Segment>)
    requires EncodesSegments(es, ss) && ValidSegments(ss)
    ensures ParseMoreSegments(PrintSegments(es)) == Match(ss, "")
    decreases |es|
  {
    if es == [] {
    } else {
      var tail := PrintSegments(es[1..]);
      assert es == [es[0]] + es[1..] && ss == [ss[0]] + ss[1..];
      PrintSegmentsCons(es[0], es[1..], "");
      assert PrintSegments(es) + "" == PrintSegments(es) && tail + "" == tail;
      SegmentsEnd(es[1..]);
      ReadSegment(es[0], ss[0], tail);
      ReadMoreSegments(es[1..], ss[1..]);
      MoreSegmentsStep(PrintSegment(es[0]) + tail);
    }
  }

  lemma UriPathStep(s: string)
    requires WithKeys(ParseQualifiedIdentifier(s)).Match?
    ensures var q := WithKeys(ParseQualifiedIdentifier(s));
            var more := ParseMoreSegments(q.rest);
            more.Match? ==> ParseUriPath(['/'] + s) == Match([q.value] + more.value, more.rest)
  {
    Skip('/', s);
  }

  lemma ReadUriPath(es: seq<Segment>, ss: seq<Segment>)
    requires EncodesSegments(es, ss) && ValidSegments(ss) && (ss != [] ==> ss[0].ident.prefix.Some?)
    ensures ParseUriPath(PrintSegments(es)) == Match(ss, "")
  {
    if es != [] {
      var tail := PrintSegments(es[1..]);
      assert es == [es[0]] + es[1..] && ss == [ss[0]] + ss[1..];
      PrintSegmentsCons(es[0], es[1..], "");
      assert PrintSegments(es) + "" == PrintSegments(es) && tail + "" == tail;
      SegmentsEnd(es[1..]);
      ReadSegment(es[0], ss[0], tail);
      ReadMoreSegments(es[1..], ss[1..]);
      UriPathStep(PrintSegment(es[0]) + tail);
    }
  }

  lemma PrefixOf(p: string, rest: string)
    ensures HasPrefix(p + rest, p) && (p + rest)[|p|..] == rest
  {
  }

  lemma NotPrefix(s: string, p: string, i: nat)
    requires i < |s| && i < |p| && s[i] != p[i]
    ensures !HasPrefix(s, p)
  {
  }

  // How each kind of resource is recognised.

  lemma DataResource(path: string)
    ensures ParseResource("data" + path) == Finish(BasicRestconfData, ParseUriPath(path))
  {
    PrefixOf("data", path);
  }

  lemma DatastoreResource(path: string)
    ensures ParseResource("ds" + ("/" + path)) ==
            match ParseQualifiedIdentifier(path)
            case Match(ds, rest) => Finish(NmdaDatastore(ds), ParseUriPath(rest))
            case _ => None
  {
    PrefixOf("ds", "/" + path);
    Skip('/', path);
    NotPrefix("ds" + ("/" + path), "data", 1);
  }

  lemma OperationsResource(path: string)
    ensures ParseResource("operations" + path) == Finish(BasicRestconfOperations, ParseUriPath(path))
  {
    var s := "operations" + path;
    PrefixOf("operations", path);
    NotPrefix(s, "data", 0);
    NotPrefix(s, "ds", 0);
  }

  lemma LibraryResource(path: string)
    requires path == "" || path == "/"
    ensures ParseResource("yang-library-version" + path) == Some(Uri(YangLibraryVersion, []))
  {
    var s := "yang-library-version" + path;
    PrefixOf("yang-library-version", path);
    NotPrefix(s, "data", 0);
    NotPrefix(s, "ds", 0);
    NotPrefix(s, "operations", 0);
  }

  lemma NmdaResource(ds: ApiIdentifier, path: string)
    requires ValidIdentifier(ds) && ds.prefix.Some? && EndsSegment(path)
    ensures ParseResource(PrintResource(NmdaDatastore(ds)) + path) == Finish(NmdaDatastore(ds), ParseUriPath(path))
  {
    ReadApiIdentifier(ds, path);
    DatastoreResource(Name(ds) + path);
    Associative("ds", "/" + Name(ds), path);
    Associative("/", Name(ds), path);
  }

  lemma AfterRoot(rest: string)
    ensures ParseUri(ROOT + ("/" + rest)) == ParseResource(rest)
    ensures ParseUri(ROOT + "") == Some(Uri(RestconfRoot, []))
  {
    PrefixOf(ROOT, "/" + rest);
    PrefixOf(ROOT, "");
    Skip('/', rest);
  }

  lemma ReadRoot(path: string)
    requires path == "" || path == "/"
    ensures ParseUri(ROOT + (PrintPrefix(RestconfRoot) + path)) == Some(Uri(RestconfRoot, []))
  {
    assert "" + path == path;
    AfterRoot("");
    assert "/" == "/" + "";
  }

  lemma ReadResource(p: Prefix, path: string, ss: seq<Segment>)
    requires ValidUri(Uri(p, ss)) && EndsSegment(path) && ParseUriPath(path) == Match(ss, "")
    requires p == RestconfRoot || p == YangLibraryVersion ==> path == "" || path == "/"
    ensures ParseUri(ROOT + (PrintPrefix(p) + path)) == Some(Uri(p, ss))
  {
    AfterRoot(PrintResource(p) + path);
    if p == RestconfRoot {
      ReadRoot(path);
    } else {
      Associative("/", PrintResource(p), path);
      match p
      case BasicRestconfData => DataResource(path);
      case BasicRestconfOperations => OperationsResource(path);
      case NmdaDatastore(ds) => NmdaResource(ds, path);
      case YangLibraryVersion => LibraryResource(path);
    }
  }

  /**
  Parsing what was printed gives back the prefix and the segments, for keys of arbitrary content
  (also empty ones) and for every encoder that encodes at least the reserved bytes. An empty path may
  carry a trailing slash.
  */
  lemma ParseAfterPrint(p: Prefix, es: seq<Segment>, ss: seq<Segment>)
    requires ValidUri(Uri(p, ss)) && EncodesSegments(es, ss)
    ensures ParseUri(PrintUri(p, es)) == Some(Uri(p, ss))
    ensures ss == [] ==> ParseUri(PrintUri(p, es) + "/") == Some(Uri(p, ss))
  {
    ReadUriPath(es, ss);
    ReadResource(p, PrintSegments(es), ss);
    if ss == [] {
      ReadResource(p, "/", ss);
      EmptyPath(p);
    }
  }

  lemma PrintedResource(p: Prefix)
    requires p != RestconfRoot
    ensures PrintUri(p, []) == "/restconf/" + PrintResource(p)
  {
    assert ROOT + "/" == "/restconf/";
    assert "/" + PrintResource(p) + "" == "/" + PrintResource(p);
    Associative(ROOT, "/", PrintResource(p));
  }

  /** The resources that are not in a datastore of their own, by name. */
  lemma ResourceNames()
    ensures ParseUri("/restconf") == Some(Uri(RestconfRoot, []))
    ensures ParseUri("/restconf/" + "data") == Some(Uri(BasicRestconfData, []))
    ensures ParseUri("/restconf/" + "operations") == Some(Uri(BasicRestconfOperations, []))
    ensures ParseUri("/restconf/" + "yang-library-version") == Some(Uri(YangLibraryVersion, []))
  {
    PrintedResource(BasicRestconfData);
    PrintedResource(BasicRestconfOperations);
    PrintedResource(YangLibraryVersion);
    ParseAfterPrint(BasicRestconfData, [], []);
    ParseAfterPrint(BasicRestconfOperations, [], []);
    ParseAfterPrint(YangLibraryVersion, [], []);
  }

  // ----- parsing, then printing -----

  lemma {:induction false} IdentifierLengthIsSound(s: string)
    ensures forall i | 0 <= i < IdentifierLength(s) :: IsIdentifierChar(s[i])
    ensures EndsIdentifier(s[IdentifierLength(s)..])
    decreases |s|
  {
    if s == "" || !IsIdentifierChar(s[0]) {
    } else {
      IdentifierLengthIsSound(s[1..]);
      forall i | 0 <= i < IdentifierLength(s) ensures IsIdentifierChar(s[i]) {
        assert i > 0 ==> s[i] == s[1..][i - 1];
      }
    }
  }

  lemma IdentifierCameFrom(s: string)
    requires ParseIdentifier(s).Match?
    ensures var p := ParseIdentifier(s); s == p.value + p.rest && IsIdentifier(p.value)
  {
    IdentifierLengthIsSound(s[1..]);
  }

  lemma ApiIdentifierCameFrom(s: string)
    ensures var p := ParseApiIdentifier(s); p.Match? ==> s == Name(p.value) + p.rest && ValidIdentifier(p.value)
    ensures var p := ParseQualifiedIdentifier(s);
            p.Match? ==> p == ParseApiIdentifier(s) && p.value.prefix.Some?
  {
    var p := ParseIdentifier(s);
    if p.Match? {
      IdentifierCameFrom(s);
      if Begins(p.rest, ':') && ParseIdentifier(p.rest[1..]).Match? {
        IdentifierCameFrom(p.rest[1..]);
        var q := ParseIdentifier(p.rest[1..]);
        Head(':', p.rest);
        Associative(p.value, ":", q.value);
        Associative(p.value, ":" + q.value, q.rest);
        Associative(":", q.value, q.rest);
      }
    }
  }

  lemma CutAt(s: string, n: nat)
    requires n <= |s|
    ensures s == s[..n] + s[n..]
    ensures n == 1 ==> s[..n] == [s[0]]
  {
  }

  lemma {:induction false} KeyCameFrom(s: string) returns (e: string)
    requires ParseKey(s).Match?
    ensures s == e + ParseKey(s).rest && Encodes(e, ParseKey(s).value)
    decreases |s|
  {
    if Begins(s, '%') {
      var e' := KeyCameFrom(s[3..]);
      HexByteIs(s[1], s[2], HexByte(s[1], s[2]));
      e := s[..3] + e';
      PrefixOf(s[..3], e');
      CutAt(s, 3);
      Associative(s[..3], e', ParseKey(s).rest);
    } else if s != "" && !IsReserved(s[0]) {
      var e' := KeyCameFrom(s[1..]);
      e := [s[0]] + e';
      PrefixOf([s[0]], e');
      CutAt(s, 1);
      Associative([s[0]], e', ParseKey(s).rest);
    } else {
      e := "";
    }
  }

  lemma {:induction false} KeyListCameFrom(s: string) returns (es: seq<string>)
    requires ParseKeyList(s).Match?
    ensures es != [] && s == Join(es, ",") + ParseKeyList(s).rest && EncodesKeys(es, ParseKeyList(s).value)
    decreases |s|
  {
    var e := KeyCameFrom(s);
    var p := ParseKey(s);
    KeyListStep(s, p.value, p.rest);
    if Begins(p.rest, ',') {
      var es' := KeyListCameFrom(p.rest[1..]);
      es := [e] + es';
      assert es[1..] == es';
      JoinSplit(es, ParseKeyList(s).rest);
      Head(',', p.rest);
    } else {
      es := [e];
    }
  }

  lemma KeysCameFrom(p: Parse<ApiIdentifier>) returns (e: Segment)
    requires WithKeys(p).Match?
    ensures p.value == e.ident && EncodesSegment(e, WithKeys(p).value)
    ensures Name(p.value) + p.rest == PrintSegment(e) + WithKeys(p).rest
  {
    if Begins(p.rest, '=') {
      var ks := KeyListCameFrom(p.rest[1..]);
      e := Segment(p.value, ks);
      Head('=', p.rest);
    } else {
      e := Segment(p.value, []);
    }
  }

  lemma SegmentCameFrom(s: string) returns (e: Segment)
    requires WithKeys(ParseApiIdentifier(s)).Match?
    ensures var q := WithKeys(ParseApiIdentifier(s));
            s == PrintSegment(e) + q.rest && EncodesSegment(e, q.value) && ValidIdentifier(q.value.ident)
  {
    ApiIdentifierCameFrom(s);
    e := KeysCameFrom(ParseApiIdentifier(s));
  }

  lemma EncodesCons(e: Segment, s: Segment, es: seq<Segment>, ss: seq<Segment>)
    requires EncodesSegment(e, s) && EncodesSegments(es, ss) && ValidIdentifier(s.ident) && ValidSegments(ss)
    ensures EncodesSegments([e] + es, [s] + ss) && ValidSegments([s] + ss)
  {
  }

  lemma MoreSegmentsSplit(s: string)
    requires Begins(s, '/') && ParseMoreSegments(s).Match?
    ensures var q := WithKeys(ParseApiIdentifier(s[1..]));
            && q.Match? && var more := ParseMoreSegments(q.rest);
            && more.Match? && ParseMoreSegments(s) == Match([q.value] + more.value, more.rest)
  {
  }

  /** One segment and those after it, taken together. */
  lemma SegmentsText(s: string, e: Segment, mid: string, es: seq<Segment>, rest: string)
    requires Begins(s, '/') && s[1..] == PrintSegment(e) + mid && mid == PrintSegments(es) + rest
    ensures s == PrintSegments([e] + es) + rest
  {
    Head('/', s);
    PrintSegmentsCons(e, es, rest);
  }

  lemma {:induction false} MoreSegmentsCameFrom(s: string) returns (es: seq<Segment>)
    requires ParseMoreSegments(s).Match?
    ensures var p := ParseMoreSegments(s);
            s == PrintSegments(es) + p.rest && EncodesSegments(es, p.value) && ValidSegments(p.value)
    decreases |s|
  {
    if Begins(s, '/') {
      MoreSegmentsSplit(s);
      var e := SegmentCameFrom(s[1..]);
      var q := WithKeys(ParseApiIdentifier(s[1..]));
      var es' := MoreSegmentsCameFrom(q.rest);
      es := [e] + es';
      SegmentsText(s, e, q.rest, es', ParseMoreSegments(s).rest);
      EncodesCons(e, q.value, es', ParseMoreSegments(q.rest).value);
    } else {
      es := [];
    }
  }

  lemma UriPathSplit(s: string)
    requires Begins(s, '/') && |s| > 1 && ParseUriPath(s).Match?
    ensures var q := WithKeys(ParseQualifiedIdentifier(s[1..]));
            && q.Match? && ParseMoreSegments(q.rest).Match?
            && ParseUriPath(s) == Match([q.value] + ParseMoreSegments(q.rest).value, ParseMoreSegments(q.rest).rest)
            && q == WithKeys(ParseApiIdentifier(s[1..])) && q.value.ident.prefix.Some?
  {
    ApiIdentifierCameFrom(s[1..]);
  }

  lemma UriPathCameFrom(s: string) returns (es: seq<Segment>)
    requires ParseUriPath(s).Match?
    ensures var p := ParseUriPath(s);
            && EncodesSegments(es, p.value) && ValidSegments(p.value)
            && (p.value != [] ==> p.value[0].ident.prefix.Some?)
            && (s == PrintSegments(es) + p.rest || (s == "/" && es == [] && p.rest == ""))
  {
    if s == "" || s == "/" {
      es := [];
    } else {
      UriPathSplit(s);
      var e := SegmentCameFrom(s[1..]);
      var q := WithKeys(ParseQualifiedIdentifier(s[1..]));
      var es' := MoreSegmentsCameFrom(q.rest);
      es := [e] + es';
      SegmentsText(s, e, q.rest, es', ParseUriPath(s).rest);
      EncodesCons(e, q.value, es', ParseMoreSegments(q.rest).value);
    }
  }

  /** `s` prints `u`, up to the slash an empty path may end with. */
  predicate Prints(s: string, u: Uri, es: seq<Segment>) {
    && ValidUri(u) && EncodesSegments(es, u.segments)
    && (s == PrintUri(u.prefix, es) || (es == [] && s == PrintUri(u.prefix, es) + "/"))
  }

  lemma NothingAfter(s: string)
    ensures s + "" == s
  {
  }

  lemma EmptyPath(p: Prefix)
    ensures PrintUri(p, []) + "/" == ROOT + (PrintPrefix(p) + "/")
  {
    NothingAfter(PrintPrefix(p));
    Associative(ROOT, PrintPrefix(p), "/");
  }

  lemma ResourceCameFrom(path: string, p: Prefix) returns (es: seq<Segment>)
    requires Finish(p, ParseUriPath(path)).Some?
    requires ValidUri(Uri(p, [])) && p != RestconfRoot && p != YangLibraryVersion
    ensures Prints(ROOT + ("/" + (PrintResource(p) + path)), Finish(p, ParseUriPath(path)).value, es)
  {
    es := UriPathCameFrom(path);
    Associative("/", PrintResource(p), path);
    if path == "/" && es == [] {
      EmptyPath(p);
    } else {
      NothingAfter(PrintSegments(es));
    }
  }

  lemma CutPrefix(s: string, p: string)
    requires HasPrefix(s, p)
    ensures s == p + s[|p|..]
  {
  }

  lemma DatastoreCameFrom(r: string) returns (es: seq<Segment>)
    requires ParseQualifiedIdentifier(r).Match?
    requires var p := ParseQualifiedIdentifier(r); Finish(NmdaDatastore(p.value), ParseUriPath(p.rest)).Some?
    ensures var p := ParseQualifiedIdentifier(r);
            Prints(ROOT + ("/" + ("ds" + ("/" + r))), Finish(NmdaDatastore(p.value), ParseUriPath(p.rest)).value, es)
  {
    ApiIdentifierCameFrom(r);
    var p := ParseQualifiedIdentifier(r);
    es := ResourceCameFrom(p.rest, NmdaDatastore(p.value));
    Associative("ds", "/" + Name(p.value), p.rest);
    Associative("/", Name(p.value), p.rest);
  }

  lemma LibraryCameFrom(rest: string)
    requires rest == "" || rest == "/"
    ensures Prints(ROOT + ("/" + (PrintResource(YangLibraryVersion) + rest)), Uri(YangLibraryVersion, []), [])
  {
    var name := PrintResource(YangLibraryVersion);
    NothingAfter(name);
    NothingAfter("/" + name);
    EmptyPath(YangLibraryVersion);
    Associative("/", name, "/");
  }

  lemma ParsedDatastoreCameFrom(r: string) returns (es: seq<Segment>)
    requires HasPrefix(r, "ds") && !HasPrefix(r, "data") && ParseResource(r).Some?
    ensures Prints(ROOT + ("/" + r), ParseResource(r).value, es)
  {
    CutPrefix(r, "ds");
    assert r[2..] == "/" + r[2..][1..];
    es := DatastoreCameFrom(r[2..][1..]);
  }

  lemma ParsedResourceCameFrom(r: string) returns (es: seq<Segment>)
    requires ParseResource(r).Some?
    ensures Prints(ROOT + ("/" + r), ParseResource(r).value, es)
  {
    es := [];
    if r == "" {
      assert PrintUri(RestconfRoot, []) == ROOT;
    } else if HasPrefix(r, "data") {
      CutPrefix(r, "data");
      es := ResourceCameFrom(r[4..], BasicRestconfData);
    } else if HasPrefix(r, "ds") {
      es := ParsedDatastoreCameFrom(r);
    } else if HasPrefix(r, "operations") {
      CutPrefix(r, "operations");
      es := ResourceCameFrom(r[10..], BasicRestconfOperations);
    } else {
      CutPrefix(r, "yang-library-version");
      LibraryCameFrom(r[20..]);
    }
  }

  /** Whatever the parser accepts is a printed form of what it returns. */
  lemma PrintAfterParse(s: string) returns (es: seq<Segment>)
    requires ParseUri(s).Some?
    ensures Prints(s, ParseUri(s).value, es)
  {
    CutPrefix(s, ROOT);
    var rest := s[|ROOT|..];
    if rest == "" {
      es := [];
      assert PrintUri(RestconfRoot, []) == ROOT;
    } else {
      assert rest == "/" + rest[1..];
      es := ParsedResourceCameFrom(rest[1..]);
    }
  }

  // ----- uriJoin -----

  function UriJoin(a: string, b: string): string {
    if a != "" && a[|a| - 1] == '/' && Begins(b, '/') then a + b[1..]
    else if a != "" && b != "" && a[|a| - 1] != '/' && b[0] != '/' then a + "/" + b
    else a + b
  }

  predicate EndsInSlash(s: string) {
    s != "" && s[|s| - 1] == '/'
  }

  lemma {:induction false} EncodedKeyHasNoSlash(e: string, k: string)
    requires Encodes(e, k)
    ensures '/' !in e
    decreases |e|
  {
    if e == "" {
    } else {
      var n := if e[0] == '%' then 3 else 1;
      EncodedKeyHasNoSlash(e[n..], k[n - n + 1..]);
      assert e == e[..n] + e[n..];
    }
  }

  lemma {:induction false} JoinedKeysHaveNoSlash(es: seq<string>, ks: seq<string>)
    requires EncodesKeys(es, ks)
    ensures '/' !in Join(es, ",")
    decreases |es|
  {
    if es == [] {
    } else {
      EncodedKeyHasNoSlash(es[0], ks[0]);
      JoinedKeysHaveNoSlash(es[1..], ks[1..]);
    }
  }

  lemma NameHasNoSlash(i: ApiIdentifier)
    requires ValidIdentifier(i)
    ensures '/' !in Name(i) && Name(i) != ""
  {
  }

  lemma SegmentHasNoSlash(e: Segment, s: Segment)
    requires EncodesSegment(e, s) && ValidIdentifier(s.ident)
    ensures '/' !in PrintSegment(e) && PrintSegment(e) != ""
  {
    NameHasNoSlash(e.ident);
    JoinedKeysHaveNoSlash(e.keys, s.keys);
  }

  lemma SlashThenName(s: string)
    requires s != "" && '/' !in s
    ensures !EndsInSlash("/" + s)
  {
    assert ("/" + s)[|s|] == s[|s| - 1];
  }

  lemma {:induction false} SegmentsDoNotEndInSlash(es: seq<Segment>, ss: seq<Segment>)
    requires EncodesSegments(es, ss) && ValidSegments(ss)
    ensures !EndsInSlash(PrintSegments(es))
    decreases |es|
  {
    if es == [] {
    } else {
      SegmentHasNoSlash(es[0], ss[0]);
      SegmentsDoNotEndInSlash(es[1..], ss[1..]);
      SlashThenName(PrintSegment(es[0]));
      LastOfAppend("/" + PrintSegment(es[0]), PrintSegments(es[1..]));
    }
  }

  lemma UriDoesNotEndInSlash(p: Prefix, es: seq<Segment>, ss: seq<Segment>)
    requires ValidUri(Uri(p, ss)) && EncodesSegments(es, ss)
    ensures !EndsInSlash(PrintUri(p, es))
  {
    SegmentsDoNotEndInSlash(es, ss);
    PrefixDoesNotEndInSlash(p);
    LastOfAppend(PrintPrefix(p), PrintSegments(es));
    LastOfAppend(ROOT, PrintPrefix(p) + PrintSegments(es));
  }

  lemma LastOfAppend(a: string, b: string)
    requires !EndsInSlash(a) && !EndsInSlash(b)
    ensures !EndsInSlash(a + b)
  {
    if b == "" {
      assert a + b == a;
    } else {
      assert (a + b)[|a + b| - 1] == b[|b| - 1];
    }
  }

  lemma PrefixDoesNotEndInSlash(p: Prefix)
    requires p.NmdaDatastore? ==> ValidIdentifier(p.datastore)
    ensures !EndsInSlash(PrintPrefix(p)) && !EndsInSlash(ROOT)
  {
    if p.NmdaDatastore? {
      var n := Name(p.datastore);
      NameHasNoSlash(p.datastore);
      assert PrintPrefix(p)[|PrintPrefix(p)| - 1] == n[|n| - 1];
    } else if p != RestconfRoot {
      var r := PrintResource(p);
      assert PrintPrefix(p)[|PrintPrefix(p)| - 1] == r[|r| - 1];
    }
  }

  lemma {:induction false} PrintSegmentsAppend(a: seq<Segment>, b: seq<Segment>)
    ensures PrintSegments(a + b) == PrintSegments(a) + PrintSegments(b)
    decreases |a|
  {
    if a == [] {
      assert a + b == b;
    } else {
      assert (a + b)[1..] == a[1..] + b;
      PrintSegmentsAppend(a[1..], b);
    }
  }

  /** The four ways to join a printed path and a non-empty relative tail all give the same string. */
  lemma JoinPrinted(a: string, tail: string)
    requires a != "" && !EndsInSlash(a) && Begins(tail, '/') && |tail| > 1 && tail[1] != '/'
    ensures UriJoin(a, tail) == UriJoin(a, tail[1..]) == a + tail
    ensures UriJoin(a + "/", tail) == UriJoin(a + "/", tail[1..]) == a + tail
  {
    assert tail == "/" + tail[1..];
    assert a + "/" + tail[1..] == a + tail;
  }

  lemma EncodesAppend(es: seq<Segment>, ss: seq<Segment>, fs: seq<Segment>, ts: seq<Segment>)
    requires EncodesSegments(es, ss) && EncodesSegments(fs, ts)
    ensures EncodesSegments(es + fs, ss + ts)
  {
  }

  /** A printed relative tail starts with exactly one slash. */
  lemma TailShape(fs: seq<Segment>, ts: seq<Segment>)
    requires EncodesSegments(fs, ts) && ts != [] && ValidIdentifier(ts[0].ident)
    ensures var b := PrintSegments(fs); Begins(b, '/') && |b| > 1 && b[1] != '/'
  {
    SegmentHasNoSlash(fs[0], ts[0]);
    var first := PrintSegment(fs[0]);
    assert PrintSegments(fs)[1] == first[0] && first[0] in first;
  }

  lemma ParseJoined(p: Prefix, es: seq<Segment>, ss: seq<Segment>, fs: seq<Segment>, ts: seq<Segment>)
    requires EncodesSegments(es, ss) && EncodesSegments(fs, ts) && ValidUri(Uri(p, ss + ts))
    ensures ParseUri(PrintUri(p, es) + PrintSegments(fs)) == Some(Uri(p, ss + ts))
  {
    EncodesAppend(es, ss, fs, ts);
    ParseAfterPrint(p, es + fs, ss + ts);
    PrintSegmentsAppend(es, fs);
    Associative(ROOT, PrintPrefix(p) + PrintSegments(es), PrintSegments(fs));
    Associative(PrintPrefix(p), PrintSegments(es), PrintSegments(fs));
  }

  /** Joining with an empty tail changes nothing. */
  lemma JoinNothing(a: string)
    ensures UriJoin(a, "") == a
  {
  }

  /**
  Joining a printed path (with the trailing slash an empty one may have) and a printed relative tail,
  with or without its leading slash, gives a URI that parses to the segments of both.
  */
  lemma JoinConcatenates(p: Prefix, es: seq<Segment>, ss: seq<Segment>, fs: seq<Segment>, ts: seq<Segment>)
    requires ValidUri(Uri(p, ss)) && EncodesSegments(es, ss) && EncodesSegments(fs, ts)
    requires ValidUri(Uri(p, ss + ts)) && ts != []
    ensures var a, b := PrintUri(p, es), PrintSegments(fs);
            var both := Some(Uri(p, ss + ts));
            && b != ""
            && ParseUri(UriJoin(a, b)) == both
            && ParseUri(UriJoin(a, b[1..])) == both
            && ParseUri(UriJoin(a + "/", b)) == both
            && ParseUri(UriJoin(a + "/", b[1..])) == both
    ensures ParseUri(UriJoin(PrintUri(p, es), "")) == Some(Uri(p, ss))
    ensures ss == [] ==> ParseUri(UriJoin(PrintUri(p, es) + "/", "")) == Some(Uri(p, ss))
  {
    var a, b := PrintUri(p, es), PrintSegments(fs);
    ParseAfterPrint(p, es, ss);
    JoinNothing(a);
    JoinNothing(a + "/");
    ParseJoined(p, es, ss, fs, ts);
    UriDoesNotEndInSlash(p, es, ss);
    assert (ss + ts)[|ss|] == ts[0];
    TailShape(fs, ts);
    JoinPrinted(a, b);
  }
}
