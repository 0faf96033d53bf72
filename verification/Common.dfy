/** Small value types and sequence helpers shared by the other modules. */
module Common {

  datatype Option<+T> = None | Some(value: T)

  datatype Result<+T, +E> = Ok(value: T) | Err(error: E)

  /** An error sent to the client: the HTTP status and the RESTCONF error-tag. */
  datatype ErrorResponse = ErrorResponse(status: nat, tag: string)

  /** The concatenation of a list of strings. */
  function Concat(parts: seq<string>): string {
    if parts == [] then "" else parts[0] + Concat(parts[1..])
  }

  lemma {:induction false} ConcatAppend(a: seq<string>, b: seq<string>)
    ensures Concat(a + b) == Concat(a) + Concat(b)
  {
    if a == [] {
      assert a + b == b;
    } else {
      assert (a + b)[1..] == a[1..] + b;
      ConcatAppend(a[1..], b);
    }
  }

  lemma ConcatSnoc(a: seq<string>, x: string)
    ensures Concat(a + [x]) == Concat(a) + x
  {
    ConcatAppend(a, [x]);
    assert Concat([x]) == x;
  }

  /** `parts` joined by `separator`, as boost::algorithm::join does. */
  function Join(parts: seq<string>, separator: string): string {
    if parts == [] then "" else if |parts| == 1 then parts[0] else parts[0] + separator + Join(parts[1..], separator)
  }

  lemma {:induction false} JoinSnoc(parts: seq<string>, separator: string, x: string)
    requires parts != []
    ensures Join(parts + [x], separator) == Join(parts, separator) + separator + x
  {
    assert (parts + [x])[1..] == parts[1..] + [x];
    if |parts| == 1 {
      assert Join([x], separator) == x;
    } else {
      JoinSnoc(parts[1..], separator, x);
    }
  }

  lemma JoinCons(x: string, parts: seq<string>, separator: string)
    requires parts != []
    ensures Join([x] + parts, separator) == x + separator + Join(parts, separator)
  {
    assert ([x] + parts)[1..] == parts;
  }

  /** Index of the first `c` in `s`, or |s|. */
  function IndexOf(s: string, c: char): (i: nat)
    ensures i <= |s|
    ensures i < |s| ==> s[i] == c
    ensures c !in s[..i]
  {
    if s == "" || s[0] == c then 0
    else
      var i := 1 + IndexOf(s[1..], c);
      assert s[..i] == [s[0]] + s[1..][..i - 1];
      i
  }

  lemma {:induction false} IndexOfAbsent(s: string, c: char)
    requires c !in s
    ensures IndexOf(s, c) == |s|
  {
    if s == "" {
    } else {
      assert s[0] in s;
      IndexOfAbsent(s[1..], c);
    }
  }

  lemma {:induction false} IndexOfAfter(before: string, c: char, rest: string)
    requires c !in before
    ensures IndexOf(before + [c] + rest, c) == |before|
  {
    var s := before + [c] + rest;
    if before == "" {
    } else {
      assert before[0] in before && s[0] == before[0];
      assert s[1..] == before[1..] + [c] + rest;
      IndexOfAfter(before[1..], c, rest);
    }
  }

  lemma Associative<T>(a: seq<T>, b: seq<T>, c: seq<T>)
    ensures (a + b) + c == a + (b + c)
  {
  }

  lemma SplitLast<T>(s: seq<T>)
    requires s != []
    ensures s == s[..|s| - 1] + [s[|s| - 1]]
  {
  }

  function Min(a: nat, b: nat): nat {
    if a <= b then a else b
  }
}
