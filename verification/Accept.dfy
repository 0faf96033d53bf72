/**
Content negotiation: ordering the entries of an Accept header by preference and choosing encodings.

The header has already been parsed into entries. Quality values are reals; `stod` turns the text of a
q parameter into a number, or into nothing when it is out of range.
*/
module Accept {
  import opened Common

  datatype Mime = Mime(mediaType: string, mediaSubtype: string)

  datatype Parameter = Parameter(name: string, value: string)

  datatype MediaType = MediaType(mime: Mime, parameters: seq<Parameter>)

  /** An entry with its quality. */
  datatype Entry = Entry(mime: Mime, q: real)

  type Number = string -> Option<real>

  // ----- normalising -----

  function LowerChar(c: char): char {
    if 'A' <= c <= 'Z' then (c as int + 32) as char else c
  }

  function Lower(s: string): (r: string)
    ensures |r| == |s|
  {
    seq(|s|, i requires 0 <= i < |s| => LowerChar(s[i]))
  }

  function LowerMime(m: Mime): Mime {
    Mime(Lower(m.mediaType), Lower(m.mediaSubtype))
  }

  /** The value of the first q parameter; 1 without one. */
  function QualityOf(ps: seq<Parameter>, stod: Number): real {
    if ps == [] then 1.0
    else if Lower(ps[0].name) == "q" then (if stod(ps[0].value).Some? then stod(ps[0].value).value else 1.0)
    else QualityOf(ps[1..], stod)
  }

  predicate Representable(ps: seq<Parameter>, stod: Number) {
    forall i | 0 <= i < |ps| && Lower(ps[i].name) == "q" :: stod(ps[i].value).Some?
  }

  function Weigh(e: MediaType, stod: Number): Entry {
    Entry(LowerMime(e.mime), QualityOf(e.parameters, stod))
  }

  function WeighAll(es: seq<MediaType>, stod: Number): (r: seq<Entry>)
    ensures |r| == |es|
  {
    seq(|es|, i requires 0 <= i < |es| => Weigh(es[i], stod))
  }

  // ----- the order of preference -----

  /** The comparator given to stable_sort: whether `a` goes before `b`. */
  predicate Less(a: Entry, b: Entry) {
    if a.q != b.q then a.q > b.q
    else if a.mime.mediaType == "*" then false
    else if b.mime.mediaType == "*" then true
    else if a.mime.mediaSubtype == "*" then false
    else if b.mime.mediaSubtype == "*" then true
    else false
  }

  function Specificity(m: Mime): nat {
    if m.mediaType == "*" then 0 else if m.mediaSubtype == "*" then 1 else 2
  }

  predicate Equivalent(a: Entry, b: Entry) {
    !Less(a, b) && !Less(b, a)
  }

  /** The comparator is a strict weak order: higher quality first, then the more specific type. */
  lemma ComparatorIsStrictWeakOrder(a: Entry, b: Entry, c: Entry)
    ensures Less(a, b) <==> a.q > b.q || (a.q == b.q && Specificity(a.mime) > Specificity(b.mime))
    ensures !Less(a, a)
    ensures Less(a, b) ==> !Less(b, a)
    ensures Less(a, b) && Less(b, c) ==> Less(a, c)
    ensures Equivalent(a, b) && Equivalent(b, c) ==> Equivalent(a, c)
  {
  }

  /** Entry number p is preferred to number r: by the comparator, then by the order in the header. */
  predicate Before(es: seq<Entry>, p: nat, r: nat)
    requires p < |es| && r < |es|
  {
    Less(es[p], es[r]) || (!Less(es[r], es[p]) && p < r)
  }

  lemma BeforeIsTransitive(es: seq<Entry>, p: nat, r: nat, t: nat)
    requires p < |es| && r < |es| && t < |es| && Before(es, p, r) && Before(es, r, t)
    ensures Before(es, p, t)
  {
    ComparatorIsStrictWeakOrder(es[p], es[r], es[t]);
    ComparatorIsStrictWeakOrder(es[r], es[t], es[p]);
  }

  predicate Within(es: seq<Entry>, order: seq<nat>) {
    forall i | 0 <= i < |order| :: order[i] < |es|
  }

  predicate SortedBefore(es: seq<Entry>, order: seq<nat>) {
    Within(es, order) && forall i, j | 0 <= i < j < |order| :: Before(es, order[i], order[j])
  }

  /** The entries with a quality other than 0, each once, the preferred ones first. */
  predicate IsPreference(es: seq<Entry>, order: seq<nat>) {
    && SortedBefore(es, order)
    && forall p | 0 <= p < |es| :: p in order <==> es[p].q != 0.0
  }

  /** The indices of the entries that are kept, in header order. */
  function Kept(es: seq<Entry>, n: nat): (r: seq<nat>)
    requires n <= |es|
    ensures forall i | 0 <= i < |r| :: r[i] < n && es[r[i]].q != 0.0
    ensures forall i, j | 0 <= i < j < |r| :: r[i] < r[j]
  {
    if n == 0 then [] else if es[n - 1].q == 0.0 then Kept(es, n - 1) else Kept(es, n - 1) + [n - 1]
  }

  lemma {:induction false} KeptIsComplete(es: seq<Entry>, n: nat, p: nat)
    requires p < n <= |es| && es[p].q != 0.0
    ensures p in Kept(es, n)
    decreases n
  {
    if p == n - 1 {
    } else {
      KeptIsComplete(es, n - 1, p);
    }
  }

  /** Insert x behind everything it does not go before. */
  function Insert(es: seq<Entry>, order: seq<nat>, x: nat): (r: seq<nat>)
    requires Within(es, order) && x < |es|
    ensures |r| == |order| + 1 && Within(es, r)
  {
    if order == [] || !Less(es[x], es[order[|order| - 1]]) then order + [x]
    else Insert(es, order[..|order| - 1], x) + [order[|order| - 1]]
  }

  function SortStably(es: seq<Entry>, indices: seq<nat>): (r: seq<nat>)
    requires Within(es, indices)
    ensures |r| == |indices| && Within(es, r)
    decreases |indices|
  {
    if indices == [] then []
    else Insert(es, SortStably(es, indices[..|indices| - 1]), indices[|indices| - 1])
  }

  function Preference(es: seq<Entry>): (r: seq<nat>)
    ensures Within(es, r)
  {
    SortStably(es, Kept(es, |es|))
  }

  lemma {:induction false} InsertPermutes(es: seq<Entry>, order: seq<nat>, x: nat)
    requires Within(es, order) && x < |es|
    ensures multiset(Insert(es, order, x)) == multiset(order) + multiset{x}
    decreases |order|
  {
    if order == [] {
    } else {
      var n := |order| - 1;
      assert order == order[..n] + [order[n]];
      InsertPermutes(es, order[..n], x);
    }
  }

  lemma InsertedOnlyX(es: seq<Entry>, order: seq<nat>, x: nat, i: nat)
    requires Within(es, order) && x < |es| && i <= |order|
    ensures Insert(es, order, x)[i] == x || Insert(es, order, x)[i] in order
  {
    InsertPermutes(es, order, x);
    assert Insert(es, order, x)[i] in multiset(Insert(es, order, x));
  }

  lemma {:induction false} InsertSorts(es: seq<Entry>, order: seq<nat>, x: nat)
    requires SortedBefore(es, order) && x < |es| && forall i | 0 <= i < |order| :: order[i] < x
    ensures SortedBefore(es, Insert(es, order, x))
    decreases |order|
  {
    if order == [] {
    } else {
      var n := |order| - 1;
      var last := order[n];
      if Less(es[x], es[last]) {
        InsertSorts(es, order[..n], x);
        var r := Insert(es, order[..n], x);
        forall i | 0 <= i < |r| ensures Before(es, r[i], last) {
          InsertedOnlyX(es, order[..n], x, i);
        }
      } else {
        forall i | 0 <= i < |order| ensures Before(es, order[i], x) {
          if i < n {
            BeforeIsTransitive(es, order[i], last, x);
          }
        }
      }
    }
  }

  lemma {:induction false} SortSorts(es: seq<Entry>, indices: seq<nat>)
    requires Within(es, indices) && forall i, j | 0 <= i < j < |indices| :: indices[i] < indices[j]
    ensures SortedBefore(es, SortStably(es, indices))
    ensures multiset(SortStably(es, indices)) == multiset(indices)
    decreases |indices|
  {
    if indices == [] {
    } else {
      var n := |indices| - 1;
      var front := indices[..n];
      SortSorts(es, front);
      assert indices == front + [indices[n]];
      var sorted := SortStably(es, front);
      forall i | 0 <= i < |sorted| ensures sorted[i] < indices[n] {
        assert sorted[i] in multiset(sorted);
        assert sorted[i] in front;
      }
      InsertSorts(es, sorted, indices[n]);
      InsertPermutes(es, sorted, indices[n]);
    }
  }

  /** The result is a stable, sorted permutation of the entries whose quality is not 0. */
  lemma PreferenceIsStableSort(es: seq<Entry>)
    ensures IsPreference(es, Preference(es))
    ensures multiset(Preference(es)) == multiset(Kept(es, |es|))
  {
    var kept := Kept(es, |es|);
    SortSorts(es, kept);
    forall p | 0 <= p < |es| ensures p in Preference(es) <==> es[p].q != 0.0 {
      assert p in Preference(es) <==> p in multiset(Preference(es));
      assert p in kept <==> p in multiset(kept);
      if es[p].q != 0.0 {
        KeptIsComplete(es, |es|, p);
      }
    }
  }

  /** There is only one such order. */
  lemma PreferenceIsUnique(es: seq<Entry>, a: seq<nat>, b: seq<nat>)
    requires IsPreference(es, a) && IsPreference(es, b)
    ensures a == b
  {
    assert forall p :: p in a <==> p in b by {
      forall p | p in a || p in b ensures p in a <==> p in b {
        assert p < |es|;
      }
    }
    SameElementsSameOrder(es, a, b);
  }

  lemma {:induction false} SameElementsSameOrder(es: seq<Entry>, a: seq<nat>, b: seq<nat>)
    requires SortedBefore(es, a) && SortedBefore(es, b) && forall p :: p in a <==> p in b
    ensures a == b
    decreases |a|
  {
    SameEmptiness(a, b);
    if a == [] {
    } else {
      assert a[0] in a && b[0] in b;
      FirstIsFirst(es, a, b);
      assert a == [a[0]] + a[1..] && b == [b[0]] + b[1..];
      forall p ensures p in a[1..] <==> p in b[1..] {
        TailMembers(es, a, p);
        TailMembers(es, b, p);
      }
      SameElementsSameOrder(es, a[1..], b[1..]);
    }
  }

  lemma SameEmptiness(a: seq<nat>, b: seq<nat>)
    requires forall p :: p in a <==> p in b
    ensures a == [] <==> b == []
  {
    if a != [] {
      assert a[0] in a;
    }
    if b != [] {
      assert b[0] in b;
    }
  }

  lemma FirstIsFirst(es: seq<Entry>, a: seq<nat>, b: seq<nat>)
    requires SortedBefore(es, a) && SortedBefore(es, b) && a != [] && b != [] && a[0] in b && b[0] in a
    ensures a[0] == b[0]
  {
    var i :| 0 <= i < |b| && b[i] == a[0];
    var j :| 0 <= j < |a| && a[j] == b[0];
    ComparatorIsStrictWeakOrder(es[a[0]], es[b[0]], es[a[0]]);
  }

  lemma TailMembers(es: seq<Entry>, a: seq<nat>, p: nat)
    requires SortedBefore(es, a) && a != []
    ensures p in a[1..] <==> p in a && p != a[0]
  {
    if p in a[1..] {
      var i :| 0 <= i < |a[1..]| && a[1..][i] == p;
      assert a[i + 1] == p && Before(es, a[0], a[i + 1]);
    }
  }

  // ----- parseAcceptHeader -----

  function Pick(es: seq<Entry>, order: seq<nat>): (r: seq<Entry>)
    requires Within(es, order)
    ensures |r| == |order|
  {
    seq(|order|, i requires 0 <= i < |order| => es[order[i]])
  }

  function Mimes(es: seq<Entry>): (r: seq<Mime>)
    ensures |r| == |es|
  {
    seq(|es|, i requires 0 <= i < |es| => es[i].mime)
  }

  /** None stands for a header that does not parse; such a header, or one with an unusable q, counts as empty. */
  function EntriesOf(parsed: Option<seq<MediaType>>, stod: Number): seq<Entry> {
    if parsed.None? || exists i :: 0 <= i < |parsed.value| && !Representable(parsed.value[i].parameters, stod) then []
    else WeighAll(parsed.value, stod)
  }

  /** The media types of the entries, the preferred ones first. */
  function InOrder(es: seq<Entry>): (r: seq<Mime>)
    ensures |r| == |Preference(es)|
  {
    Mimes(Pick(es, Preference(es)))
  }

  function AcceptTypes(parsed: Option<seq<MediaType>>, stod: Number): seq<Mime> {
    InOrder(EntriesOf(parsed, stod))
  }

  // ----- what the q parameters of a header mean -----

  predicate IsQ(p: Parameter) {
    p.name == "q" || p.name == "Q"
  }

  predicate IsFirstQ(ps: seq<Parameter>, k: nat) {
    k < |ps| && IsQ(ps[k]) && forall j | 0 <= j < k :: !IsQ(ps[j])
  }

  /** The quality of a member: the number in its first q parameter, or 1 if it has none. */
  ghost predicate HasQuality(m: MediaType, stod: Number, v: real) {
    || (exists k: nat :: IsFirstQ(m.parameters, k) && stod(m.parameters[k].value) == Some(v))
    || (v == 1.0 && forall k: nat :: !IsFirstQ(m.parameters, k))
  }

  /** Every q parameter of the member is a number. */
  predicate HasNumbers(m: MediaType, stod: Number) {
    forall i | 0 <= i < |m.parameters| && IsQ(m.parameters[i]) :: stod(m.parameters[i].value).Some?
  }

  lemma LowerIsQ(p: Parameter)
    ensures Lower(p.name) == "q" <==> IsQ(p)
  {
    if |p.name| == 1 {
      assert p.name == [p.name[0]] && Lower(p.name) == [LowerChar(p.name[0])];
    }
  }

  lemma NumbersIff(m: MediaType, stod: Number)
    ensures Representable(m.parameters, stod) <==> HasNumbers(m, stod)
  {
    forall i | 0 <= i < |m.parameters| ensures Lower(m.parameters[i].name) == "q" <==> IsQ(m.parameters[i]) {
      LowerIsQ(m.parameters[i]);
    }
  }

  lemma {:induction false} FirstQDecides(ps: seq<Parameter>, stod: Number) returns (k: nat)
    requires Representable(ps, stod)
    ensures k <= |ps| && forall j | 0 <= j < k :: !IsQ(ps[j])
    ensures k < |ps| ==> IsFirstQ(ps, k) && stod(ps[k].value) == Some(QualityOf(ps, stod))
    ensures k == |ps| ==> QualityOf(ps, stod) == 1.0
    decreases |ps|
  {
    if ps == [] {
      k := 0;
    } else {
      LowerIsQ(ps[0]);
      if IsQ(ps[0]) {
        k := 0;
      } else {
        k := FirstQDecides(ps[1..], stod);
        assert forall j | 0 < j <= k && j < |ps| :: ps[j] == ps[1..][j - 1];
        k := k + 1;
      }
    }
  }

  /** The quality that the code computes is the one the parameters say. */
  lemma QualityIs(m: MediaType, stod: Number, v: real)
    requires HasNumbers(m, stod)
    ensures QualityOf(m.parameters, stod) == v <==> HasQuality(m, stod, v)
  {
    NumbersIff(m, stod);
    var k := FirstQDecides(m.parameters, stod);
    forall j: nat | IsFirstQ(m.parameters, j) ensures j == k {
    }
  }

  /** A header that can be used: it parses, and all its q parameters are numbers. */
  predicate Usable(parsed: Option<seq<MediaType>>, stod: Number) {
    parsed.Some? && forall i | 0 <= i < |parsed.value| :: HasNumbers(parsed.value[i], stod)
  }

  /** A usable header gives one entry per member, with its quality; any other header gives none. */
  lemma EntriesAre(parsed: Option<seq<MediaType>>, stod: Number)
    ensures var es := EntriesOf(parsed, stod);
            if Usable(parsed, stod)
            then |es| == |parsed.value| && forall p | 0 <= p < |es| :: es[p] == Weigh(parsed.value[p], stod)
            else es == []
  {
    if parsed.Some? {
      forall i | 0 <= i < |parsed.value|
        ensures Representable(parsed.value[i].parameters, stod) <==> HasNumbers(parsed.value[i], stod)
      {
        NumbersIff(parsed.value[i], stod);
      }
    }
  }

  method CheckQualities(ps: seq<Parameter>, stod: Number) returns (ok: bool)
    ensures ok <==> Representable(ps, stod)
  {
    for i := 0 to |ps|
      invariant Representable(ps[..i], stod)
    {
      if Lower(ps[i].name) == "q" && stod(ps[i].value).None? {
        return false;
      }
      assert forall j | 0 <= j < i :: ps[j] == ps[..i][j];
    }
    assert ps[..|ps|] == ps;
    ok := true;
  }

  /** The erase-remove idiom: drop the entries with quality 0. */
  method RemoveUnacceptable(es: seq<Entry>) returns (v: seq<Entry>)
    ensures v == Pick(es, Kept(es, |es|))
  {
    v := [];
    for i := 0 to |es|
      invariant v == Pick(es, Kept(es, i))
    {
      if es[i].q != 0.0 {
        assert Pick(es, Kept(es, i) + [i]) == Pick(es, Kept(es, i)) + [es[i]];
        v := v + [es[i]];
      }
    }
  }

  /** One round of the stable sort: where the next entry goes among those already sorted. */
  method InsertEntry(sorted: seq<Entry>, x: Entry, ghost es: seq<Entry>, ghost order: seq<nat>, ghost at: nat)
    returns (r: seq<Entry>)
    requires Within(es, order) && at < |es| && sorted == Pick(es, order) && x == es[at]
    ensures r == Pick(es, Insert(es, order, at))
  {
    var k := |sorted|;
    ghost var tail: seq<nat> := [];
    assert order[..k] == order && order[k..] == [];
    assert Insert(es, order, at) + tail == Insert(es, order, at);
    while k > 0 && Less(x, sorted[k - 1])
      invariant 0 <= k <= |sorted| && tail == order[k..]
      invariant Insert(es, order, at) == Insert(es, order[..k], at) + tail
    {
      assert order[..k][..k - 1] == order[..k - 1] && order[..k][k - 1] == order[k - 1];
      assert [order[k - 1]] + tail == order[k - 1..];
      Associative(Insert(es, order[..k - 1], at), [order[k - 1]], tail);
      tail := order[k - 1..];
      k := k - 1;
    }
    assert Insert(es, order[..k], at) == order[..k] + [at];
    r := sorted[..k] + [x] + sorted[k..];
    assert Insert(es, order, at) == order[..k] + [at] + order[k..];
  }

  method StableSort(v: seq<Entry>, ghost es: seq<Entry>, ghost indices: seq<nat>) returns (r: seq<Entry>)
    requires Within(es, indices) && v == Pick(es, indices)
    ensures r == Pick(es, SortStably(es, indices))
  {
    r := [];
    for i := 0 to |v|
      invariant Within(es, indices[..i])
      invariant r == Pick(es, SortStably(es, indices[..i]))
    {
      ghost var front := indices[..i + 1];
      assert front[..i] == indices[..i] && front[i] == indices[i];
      r := InsertEntry(r, v[i], es, SortStably(es, indices[..i]), indices[i]);
    }
    assert indices[..|v|] == indices;
  }

  method ParseAcceptHeader(parsed: Option<seq<MediaType>>, stod: Number) returns (types: seq<Mime>)
    ensures types == AcceptTypes(parsed, stod)
  {
    if parsed.None? {
      return [];
    }
    var es: seq<Entry> := [];
    for i := 0 to |parsed.value|
      invariant es == WeighAll(parsed.value[..i], stod)
      invariant forall j | 0 <= j < i :: Representable(parsed.value[j].parameters, stod)
    {
      var ok := CheckQualities(parsed.value[i].parameters, stod);
      if !ok {
        return [];
      }
      es := es + [Weigh(parsed.value[i], stod)];
    }
    assert parsed.value[..|parsed.value|] == parsed.value;
    var v := RemoveUnacceptable(es);
    v := StableSort(v, es, Kept(es, |es|));
    types := Mimes(v);
  }

  // ----- choosing the encoding -----

  datatype DataFormat = Json | Xml

  predicate MimeMatch(provided: Mime, application: Mime, wildcards: bool) {
    if wildcards && provided.mediaType == "*" then true
    else if wildcards && provided.mediaType == application.mediaType && provided.mediaSubtype == "*" then true
    else provided == application
  }

  function DataTypeFromMime(mime: Mime, wildcards: bool): Option<DataFormat> {
    var m := LowerMime(mime);
    if || MimeMatch(m, Mime("application", "yang-data+json"), wildcards)
       || MimeMatch(m, Mime("application", "yang-patch+json"), wildcards)
    then Some(Json)
    else if || MimeMatch(m, Mime("application", "yang-data+xml"), wildcards)
            || MimeMatch(m, Mime("application", "yang-patch+xml"), wildcards)
    then Some(Xml)
    else None
  }

  /** `s` is the lower-case word `w`, in any mixture of cases. */
  predicate Spells(s: string, w: string) {
    && |s| == |w|
    && forall i | 0 <= i < |s| :: s[i] == w[i] || ('a' <= w[i] <= 'z' && s[i] as int + 32 == w[i] as int)
  }

  lemma LowerIs(s: string, w: string)
    requires forall i | 0 <= i < |w| :: !('A' <= w[i] <= 'Z')
    ensures Lower(s) == w <==> Spells(s, w)
  {
    if Lower(s) == w {
      forall i | 0 <= i < |s|
        ensures s[i] == w[i] || ('a' <= w[i] <= 'z' && s[i] as int + 32 == w[i] as int)
      {
        assert Lower(s)[i] == LowerChar(s[i]);
      }
    }
  }

  predicate IsApplication(m: Mime, subtype: string) {
    Spells(m.mediaType, "application") && Spells(m.mediaSubtype, subtype)
  }

  lemma LowerMimeIs(m: Mime, subtype: string)
    requires forall i | 0 <= i < |subtype| :: !('A' <= subtype[i] <= 'Z')
    ensures LowerMime(m) == Mime("application", subtype) <==> IsApplication(m, subtype)
  {
    LowerIs(m.mediaType, "application");
    LowerIs(m.mediaSubtype, subtype);
  }

  predicate NamesJson(m: Mime) {
    IsApplication(m, "yang-data+json") || IsApplication(m, "yang-patch+json")
  }

  predicate NamesXml(m: Mime) {
    IsApplication(m, "yang-data+xml") || IsApplication(m, "yang-patch+xml")
  }

  /** The media types of a request body: two names for each format, in any case; no wildcards. */
  lemma RequestTypes(m: Mime)
    ensures DataTypeFromMime(m, false) == Some(Json) <==> NamesJson(m)
    ensures DataTypeFromMime(m, false) == Some(Xml) <==> NamesXml(m)
  {
    LowerMimeIs(m, "yang-data+json");
    LowerMimeIs(m, "yang-patch+json");
    LowerMimeIs(m, "yang-data+xml");
    LowerMimeIs(m, "yang-patch+xml");
    FormatsDiffer(m);
  }

  lemma FormatsDiffer(m: Mime)
    ensures !(NamesJson(m) && NamesXml(m))
  {
    assert |"yang-data+xml"| == 13 && |"yang-patch+xml"| == 14;
    assert |"yang-data+json"| == 14 && |"yang-patch+json"| == 15;
    assert "yang-data+json"[5] == 'd' && "yang-patch+xml"[5] == 'p';
  }

  /** What the server can produce: JSON for any wildcard, otherwise the same four media types. */
  lemma SupportedTypes(m: Mime)
    ensures DataTypeFromMime(m, true) == Some(Json)
            <==> m.mediaType == "*" || IsApplication(m, "*") || NamesJson(m)
    ensures DataTypeFromMime(m, true) == Some(Xml) <==> m.mediaType != "*" && NamesXml(m)
  {
    RequestTypes(m);
    LowerIs(m.mediaType, "*");
    LowerIs(m.mediaSubtype, "*");
    LowerIs(m.mediaType, "application");
    assert Spells(m.mediaType, "*") <==> m.mediaType == "*";
  }

  function FirstSupported(types: seq<Mime>): Option<DataFormat> {
    if types == [] then None
    else if DataTypeFromMime(types[0], true).Some? then DataTypeFromMime(types[0], true)
    else FirstSupported(types[1..])
  }

  const NOT_ACCEPTABLE := ErrorResponse(406, "operation-not-supported")
  const UNSUPPORTED_MEDIA_TYPE := ErrorResponse(415, "operation-not-supported")

  datatype Formats = Formats(request: Option<DataFormat>, response: DataFormat)

  /** What the two headers mean together. */
  function Encoding(accept: seq<Mime>, contentType: seq<Mime>): Result<Formats, ErrorResponse> {
    var wanted := FirstSupported(accept);
    if accept != [] && wanted.None? then Err(NOT_ACCEPTABLE)
    else if contentType == [] then Ok(Formats(None, if wanted.Some? then wanted.value else Json))
    else
      var given := DataTypeFromMime(contentType[|contentType| - 1], false);
      if given.None? then Err(UNSUPPORTED_MEDIA_TYPE)
      else Ok(Formats(given, if wanted.Some? then wanted.value else given.value))
  }

  /** The loop over the accepted types, left at the first one that is supported. */
  method FindSupported(types: seq<Mime>) returns (r: Option<DataFormat>)
    ensures r == FirstSupported(types)
  {
    r := None;
    assert types[0..] == types;
    for i := 0 to |types|
      invariant r == None
      invariant FirstSupported(types) == FirstSupported(types[i..])
    {
      var format := DataTypeFromMime(types[i], true);
      assert types[i..][0] == types[i] && types[i..][1..] == types[i + 1..];
      if format.Some? {
        return format;
      }
    }
  }

  /** The decision once both headers have been read. */
  method Decide(acceptTypes: seq<Mime>, contentTypes: seq<Mime>) returns (r: Result<Formats, ErrorResponse>)
    ensures r == Encoding(acceptTypes, contentTypes)
  {
    var resAccept: Option<DataFormat> := None;
    var resContentType: Option<DataFormat> := None;
    if acceptTypes != [] {
      resAccept := FindSupported(acceptTypes);
      if resAccept.None? {
        return Err(NOT_ACCEPTABLE);
      }
    }
    if contentTypes != [] {
      resContentType := DataTypeFromMime(contentTypes[|contentTypes| - 1], false);
      if resContentType.None? {
        return Err(UNSUPPORTED_MEDIA_TYPE);
      }
    }
    if resAccept.None? {
      resAccept := resContentType;
    }
    r := Ok(Formats(resContentType, if resAccept.Some? then resAccept.value else Json));
  }

  /** chooseDataEncoding; an absent header is Some([]), one that does not parse is None. */
  method ChooseDataEncoding(accept: Option<seq<MediaType>>, contentType: Option<seq<MediaType>>, stod: Number)
    returns (r: Result<Formats, ErrorResponse>)
    ensures r == Encoding(AcceptTypes(accept, stod), AcceptTypes(contentType, stod))
  {
    var acceptTypes := ParseAcceptHeader(accept, stod);
    var contentTypes := ParseAcceptHeader(contentType, stod);
    r := Decide(acceptTypes, contentTypes);
  }

  predicate Acceptable(es: seq<Entry>, p: nat) {
    p < |es| && es[p].q != 0.0 && DataTypeFromMime(es[p].mime, true).Some?
  }

  lemma {:induction false} FirstSupportedIsFirst(types: seq<Mime>) returns (k: nat)
    requires FirstSupported(types).Some?
    ensures k < |types| && FirstSupported(types) == DataTypeFromMime(types[k], true)
    ensures forall i | 0 <= i < k :: DataTypeFromMime(types[i], true).None?
    decreases |types|
  {
    if DataTypeFromMime(types[0], true).Some? {
      k := 0;
    } else {
      var j := FirstSupportedIsFirst(types[1..]);
      k := j + 1;
      forall i | 0 <= i < k ensures DataTypeFromMime(types[i], true).None? {
        assert i > 0 ==> types[i] == types[1..][i - 1];
      }
    }
  }

  lemma {:induction false} NothingSupported(types: seq<Mime>, i: nat)
    requires FirstSupported(types).None? && i < |types|
    ensures DataTypeFromMime(types[i], true).None?
    decreases |types|
  {
    if i == 0 {
    } else {
      NothingSupported(types[1..], i - 1);
    }
  }

  /** An acceptable entry that no other one beats in quality, specificity and header order. */
  ghost predicate Best(es: seq<Entry>, best: nat) {
    Acceptable(es, best) && forall p: nat | Acceptable(es, p) && p != best :: Before(es, best, p)
  }

  /** The encoding chosen comes from the best entry; there is none exactly when no entry is acceptable. */
  lemma BestEntryWins(es: seq<Entry>)
    ensures var chosen := FirstSupported(InOrder(es));
            if chosen.None? then forall p: nat :: !Acceptable(es, p)
            else exists best: nat :: Best(es, best) && chosen == DataTypeFromMime(es[best].mime, true)
  {
    var order := Preference(es);
    var types := InOrder(es);
    PreferenceIsStableSort(es);
    if FirstSupported(types).None? {
      forall p: nat | Acceptable(es, p) ensures false {
        var i :| 0 <= i < |order| && order[i] == p;
        NothingSupported(types, i);
      }
    } else {
      var k := FirstSupportedIsFirst(types);
      var best := order[k];
      assert Acceptable(es, best);
      forall p: nat | Acceptable(es, p) && p != best ensures Before(es, best, p) {
        var i :| 0 <= i < |order| && order[i] == p;
        assert types[i] == es[p].mime;
        assert i > k;
      }
      assert Best(es, best);
    }
  }

  predicate IsKept(es: seq<Entry>, p: nat) {
    p < |es| && es[p].q != 0.0
  }

  lemma NoneKeptIffNoTypes(es: seq<Entry>)
    ensures InOrder(es) == [] <==> forall p: nat :: !IsKept(es, p)
  {
    var order := Preference(es);
    PreferenceIsStableSort(es);
    if order != [] {
      assert order[0] in order && IsKept(es, order[0]);
    }
  }

  /** 406 exactly if something is wanted and nothing of it supported; else what is supported, or the default. */
  lemma EncodingCases(accept: seq<Mime>, contentType: seq<Mime>)
    ensures var wanted, r := FirstSupported(accept), Encoding(accept, contentType);
            && (r == Err(NOT_ACCEPTABLE) <==> accept != [] && wanted.None?)
            && (r.Ok? && accept != [] ==> wanted == Some(r.value.response))
            && (r.Ok? && accept == [] ==>
                  r.value.response == if r.value.request.Some? then r.value.request.value else Json)
  {
  }

  /**
  The whole answer in terms of the entries of the Accept header: 406 exactly if there are entries of nonzero
  quality but none is acceptable; otherwise the response has the format of the best entry, and without
  any entries that of the request, or JSON.
  */
  lemma ResponseIsBestAccepted(es: seq<Entry>, contentType: seq<Mime>)
    ensures var r := Encoding(InOrder(es), contentType);
            && (r == Err(ErrorResponse(406, "operation-not-supported")) <==>
                  (exists p: nat :: IsKept(es, p)) && forall p: nat :: !Acceptable(es, p))
            && (r.Ok? && (exists p: nat :: IsKept(es, p)) ==>
                  exists best: nat :: Best(es, best) && DataTypeFromMime(es[best].mime, true) == Some(r.value.response))
            && (r.Ok? && (forall p: nat :: !IsKept(es, p)) ==>
                  r.value.response == if r.value.request.Some? then r.value.request.value else Json)
  {
    BestEntryWins(es);
    NoneKeptIffNoTypes(es);
    EncodingCases(InOrder(es), contentType);
  }

  // ----- the same, told from the header -----

  lemma LowerTwice(s: string)
    ensures Lower(Lower(s)) == Lower(s)
    ensures Lower(s) == "*" <==> s == "*"
  {
    LowerIs(s, "*");
  }

  lemma LoweringChangesNothing(m: Mime)
    ensures DataTypeFromMime(LowerMime(m), true) == DataTypeFromMime(m, true)
    ensures DataTypeFromMime(LowerMime(m), false) == DataTypeFromMime(m, false)
    ensures Specificity(LowerMime(m)) == Specificity(m)
  {
    LowerTwice(m.mediaType);
    LowerTwice(m.mediaSubtype);
    assert LowerMime(LowerMime(m)) == LowerMime(m);
  }

  /** Member `p` of the header has a quality other than 0. */
  ghost predicate Wanted(ms: seq<MediaType>, stod: Number, p: nat) {
    p < |ms| && exists v :: v != 0.0 && HasQuality(ms[p], stod, v)
  }

  ghost predicate Served(ms: seq<MediaType>, stod: Number, p: nat) {
    Wanted(ms, stod, p) && DataTypeFromMime(ms[p].mime, true).Some?
  }

  /** Member `p` goes before `r`: a higher quality, or the same and more specific, or equally so and earlier. */
  ghost predicate GoesBefore(ms: seq<MediaType>, stod: Number, p: nat, r: nat)
    requires p < |ms| && r < |ms|
  {
    exists v, w ::
      HasQuality(ms[p], stod, v) && HasQuality(ms[r], stod, w) && Outranks(v, ms[p].mime, w, ms[r].mime, p < r)
  }

  predicate Outranks(v: real, a: Mime, w: real, b: Mime, earlier: bool) {
    v > w || (v == w && (Specificity(a) > Specificity(b) || (Specificity(a) == Specificity(b) && earlier)))
  }

  lemma MemberIs(ms: seq<MediaType>, stod: Number, p: nat)
    requires Usable(Some(ms), stod) && p < |ms|
    ensures var es := EntriesOf(Some(ms), stod);
            && |es| == |ms| && HasQuality(ms[p], stod, es[p].q)
            && (forall v :: HasQuality(ms[p], stod, v) ==> v == es[p].q)
            && Specificity(es[p].mime) == Specificity(ms[p].mime)
            && DataTypeFromMime(es[p].mime, true) == DataTypeFromMime(ms[p].mime, true)
            && DataTypeFromMime(es[p].mime, false) == DataTypeFromMime(ms[p].mime, false)
  {
    EntriesAre(Some(ms), stod);
    LoweringChangesNothing(ms[p].mime);
    forall v ensures QualityOf(ms[p].parameters, stod) == v <==> HasQuality(ms[p], stod, v) {
      QualityIs(ms[p], stod, v);
    }
  }

  lemma MembersAre(ms: seq<MediaType>, stod: Number)
    requires Usable(Some(ms), stod)
    ensures |EntriesOf(Some(ms), stod)| == |ms|
    ensures forall p: nat :: Wanted(ms, stod, p) <==> IsKept(EntriesOf(Some(ms), stod), p)
    ensures forall p: nat :: Served(ms, stod, p) <==> Acceptable(EntriesOf(Some(ms), stod), p)
    ensures forall p: nat | p < |ms| ::
              DataTypeFromMime(EntriesOf(Some(ms), stod)[p].mime, true) == DataTypeFromMime(ms[p].mime, true)
  {
    EntriesAre(Some(ms), stod);
    forall p: nat | p < |ms|
      ensures Wanted(ms, stod, p) <==> IsKept(EntriesOf(Some(ms), stod), p)
      ensures DataTypeFromMime(EntriesOf(Some(ms), stod)[p].mime, true) == DataTypeFromMime(ms[p].mime, true)
    {
      MemberIs(ms, stod, p);
    }
  }

  lemma BeforeInHeader(ms: seq<MediaType>, stod: Number, p: nat, r: nat)
    requires Usable(Some(ms), stod) && p < |ms| && r < |ms|
    ensures |EntriesOf(Some(ms), stod)| == |ms|
    ensures GoesBefore(ms, stod, p, r) <==> Before(EntriesOf(Some(ms), stod), p, r)
  {
    MemberIs(ms, stod, p);
    MemberIs(ms, stod, r);
    var es := EntriesOf(Some(ms), stod);
    ComparatorIsStrictWeakOrder(es[p], es[r], es[p]);
    ComparatorIsStrictWeakOrder(es[r], es[p], es[r]);
    assert GoesBefore(ms, stod, p, r) <==> Outranks(es[p].q, ms[p].mime, es[r].q, ms[r].mime, p < r);
  }

  /** The served member of the header that goes before all other served ones. */
  ghost predicate BestMember(ms: seq<MediaType>, stod: Number, best: nat) {
    Served(ms, stod, best) && forall p: nat | Served(ms, stod, p) && p != best :: GoesBefore(ms, stod, best, p)
  }

  lemma BestIsBestMember(ms: seq<MediaType>, stod: Number, best: nat)
    requires Usable(Some(ms), stod)
    ensures Best(EntriesOf(Some(ms), stod), best) <==> BestMember(ms, stod, best)
  {
    MembersAre(ms, stod);
    if best < |ms| {
      forall p: nat | p < |ms|
        ensures GoesBefore(ms, stod, best, p) <==> Before(EntriesOf(Some(ms), stod), best, p)
      {
        BeforeInHeader(ms, stod, best, p);
      }
    }
  }

  /**
  The response in terms of the Accept header itself. One that cannot be used is as good as none. With one
  that can: 406 exactly if some member is wanted and none can be served; otherwise the format of the best
  member, judged by q parameter, specificity and position.
  */
  lemma ResponseFollowsHeader(ms: seq<MediaType>, contentType: seq<Mime>, stod: Number)
    requires Usable(Some(ms), stod)
    ensures var r := Encoding(AcceptTypes(Some(ms), stod), contentType);
            && (r == Err(ErrorResponse(406, "operation-not-supported")) <==>
                  (exists p: nat :: Wanted(ms, stod, p)) && forall p: nat :: !Served(ms, stod, p))
            && (r.Ok? && (exists p: nat :: Wanted(ms, stod, p)) ==>
                  exists best: nat :: BestMember(ms, stod, best)
                                 && DataTypeFromMime(ms[best].mime, true) == Some(r.value.response))
  {
    var es := EntriesOf(Some(ms), stod);
    ResponseIsBestAccepted(es, contentType);
    MembersAre(ms, stod);
    forall best: nat ensures Best(es, best) <==> BestMember(ms, stod, best) {
      BestIsBestMember(ms, stod, best);
    }
  }

  lemma UnusableHeaderIsIgnored(parsed: Option<seq<MediaType>>, stod: Number)
    requires !Usable(parsed, stod)
    ensures AcceptTypes(parsed, stod) == []
  {
    EntriesAre(parsed, stod);
  }

  // ----- which member of a Content-Type list is used -----

  /** The entry that every other one of nonzero quality is preferred to. */
  ghost predicate LeastPreferred(es: seq<Entry>, w: nat) {
    IsKept(es, w) && forall p: nat | IsKept(es, p) && p != w :: Before(es, p, w)
  }

  lemma BackIsLeastPreferred(es: seq<Entry>, order: seq<nat>)
    requires IsPreference(es, order) && order != []
    ensures LeastPreferred(es, order[|order| - 1])
  {
    var back := order[|order| - 1];
    assert back in order;
    forall p: nat | IsKept(es, p) && p != back ensures Before(es, p, back) {
      var i :| 0 <= i < |order| && order[i] == p;
    }
  }

  lemma LeastPreferredIsUnique(es: seq<Entry>, v: nat, w: nat)
    requires LeastPreferred(es, v) && LeastPreferred(es, w)
    ensures v == w
  {
    if v != w {
      ComparatorIsStrictWeakOrder(es[v], es[w], es[v]);
    }
  }

  /** The entry that chooseDataEncoding takes from a Content-Type list is the least preferred one. */
  lemma BackIffLeastPreferred(es: seq<Entry>, w: nat)
    ensures Preference(es) != [] && Preference(es)[|Preference(es)| - 1] == w <==> LeastPreferred(es, w)
  {
    var order := Preference(es);
    PreferenceIsStableSort(es);
    if order != [] {
      BackIsLeastPreferred(es, order);
      if LeastPreferred(es, w) {
        LeastPreferredIsUnique(es, w, order[|order| - 1]);
      }
    }
  }

  lemma RequestCases(accept: seq<Mime>, contentType: seq<Mime>)
    ensures var r := Encoding(accept, contentType);
            if contentType == [] then
              r != Err(UNSUPPORTED_MEDIA_TYPE) && (r.Ok? ==> r.value.request.None?)
            else
              var given := DataTypeFromMime(contentType[|contentType| - 1], false);
              && (r == Err(UNSUPPORTED_MEDIA_TYPE) <==> r != Err(NOT_ACCEPTABLE) && given.None?)
              && (r.Ok? ==> r.value.request == given && given.Some?)
  {
  }

  /** Without entries of nonzero quality a request has no format, and it is not refused for it. */
  lemma NoContentType(accept: seq<Mime>, es: seq<Entry>)
    requires forall p: nat :: !IsKept(es, p)
    ensures var r := Encoding(accept, InOrder(es));
            r != Err(ErrorResponse(415, "operation-not-supported")) && (r.Ok? ==> r.value.request.None?)
  {
    NoneKeptIffNoTypes(es);
    RequestCases(accept, InOrder(es));
  }

  /** Otherwise it has the format of the least preferred entry; 415 exactly if that is of no known type. */
  lemma RequestIsLeastPreferred(accept: seq<Mime>, es: seq<Entry>, w: nat)
    requires LeastPreferred(es, w)
    ensures var r, given := Encoding(accept, InOrder(es)), DataTypeFromMime(es[w].mime, false);
            && (r == Err(ErrorResponse(415, "operation-not-supported")) <==> r != Err(NOT_ACCEPTABLE) && given.None?)
            && (r.Ok? ==> r.value.request == given && given.Some?)
  {
    BackIffLeastPreferred(es, w);
    BackOfOrder(es);
    RequestCases(accept, InOrder(es));
  }

  lemma BackOfOrder(es: seq<Entry>)
    requires Preference(es) != []
    ensures InOrder(es)[|InOrder(es)| - 1] == es[Preference(es)[|Preference(es)| - 1]].mime
  {
  }

  lemma SomeLeastPreferred(es: seq<Entry>) returns (w: nat)
    requires exists p: nat :: IsKept(es, p)
    ensures LeastPreferred(es, w)
  {
    NoneKeptIffNoTypes(es);
    w := Preference(es)[|Preference(es)| - 1];
    BackIffLeastPreferred(es, w);
  }

  /** No other entry of nonzero quality has a lower quality, or the same and a less specific type. */
  predicate NothingBelowLast(es: seq<Entry>)
    requires es != []
  {
    var last := es[|es| - 1];
    && last.q != 0.0
    && forall p: nat | p < |es| - 1 && es[p].q != 0.0 ::
         || es[p].q > last.q
         || (es[p].q == last.q && Specificity(es[p].mime) >= Specificity(last.mime))
  }

  /**
  The back of the sorted list is taken for the last member of the header. It is that member exactly if
  the other members have a higher quality, or the same and a type at least as specific.
  */
  lemma LastMemberIsUsedIff(es: seq<Entry>)
    requires es != []
    ensures Preference(es) != [] && Preference(es)[|Preference(es)| - 1] == |es| - 1 <==> NothingBelowLast(es)
  {
    var n := |es| - 1;
    BackIffLeastPreferred(es, n);
    forall p: nat | p < n
      ensures Before(es, p, n) <==>
              es[p].q > es[n].q || (es[p].q == es[n].q && Specificity(es[p].mime) >= Specificity(es[n].mime))
    {
      ComparatorIsStrictWeakOrder(es[p], es[n], es[p]);
      ComparatorIsStrictWeakOrder(es[n], es[p], es[n]);
    }
  }

  const XML_DATA := Mime("application", "yang-data+xml")
  const JSON_DATA := Mime("application", "yang-data+json")

  const TWO_MEMBERS: seq<Entry> := [Entry(XML_DATA, 0.5), Entry(JSON_DATA, 1.0)]

  /** With a lower quality for the first of two members it is the first one that is used. */
  lemma FirstMemberMayBeUsed()
    ensures !NothingBelowLast(TWO_MEMBERS)
    ensures var order := Preference(TWO_MEMBERS); order != [] && order[|order| - 1] == 0
  {
    assert TWO_MEMBERS[0].q < TWO_MEMBERS[1].q;
    BackIffLeastPreferred(TWO_MEMBERS, 0);
  }
}
