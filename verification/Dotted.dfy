/** Dotted paths and what joining their segments keeps. */
module Dotted {

  /** `key.split('.')`. */
  function Split(key: string): (segments: seq<string>)
    ensures segments != []
    ensures forall s <- segments :: '.' !in s
    ensures Join(segments) == key
  {
    if key == "" then [""] else
    var rest := Split(key[1..]);
    if key[0] == '.' then
      JoinCons("", rest);
      [""] + rest
    else
      JoinCons([key[0]] + rest[0], rest[1..]);
      JoinCons(rest[0], rest[1..]);
      [[key[0]] + rest[0]] + rest[1..]
  }

  /** `segments.join('.')`. */
  function Join(segments: seq<string>): string {
    if segments == [] then ""
    else if |segments| == 1 then segments[0]
    else segments[0] + "." + Join(segments[1..])
  }

  lemma JoinCons(head: string, rest: seq<string>)
    ensures Join([head] + rest) == if rest == [] then head else head + "." + Join(rest)
  {
    assert ([head] + rest)[1..] == rest;
  }

  lemma {:induction false} JoinExtends(p: seq<string>, q: seq<string>)
    requires p != [] && p < q
    ensures Join(p) + "." <= Join(q)
  {
    if |p| == 1 {
      assert Join(q) == q[0] + "." + Join(q[1..]);
    } else {
      assert p[1..] < q[1..];
      JoinExtends(p[1..], q[1..]);
    }
  }

  /** A path whose segments can be told apart again. */
  ghost predicate Dotless(q: seq<string>) {
    q != [] && forall s <- q :: '.' !in s
  }

  lemma {:induction false} JoinIsInjective(a: seq<string>, b: seq<string>)
    requires a != [] && b != [] && (forall s <- a :: '.' !in s) && (forall s <- b :: '.' !in s)
    requires Join(a) == Join(b)
    ensures a == b
  {
    assert a[0] in a && b[0] in b;
    assert |a| > 1 ==> Join(a)[|a[0]|] == '.';
    assert |b| > 1 ==> Join(b)[|b[0]|] == '.';
    if |a| > 1 {
      HeadsAgree(a[0], Join(a[1..]), b[0], Join(b[1..]));
      JoinIsInjective(a[1..], b[1..]);
      assert a == [a[0]] + a[1..] && b == [b[0]] + b[1..];
    }
  }

  lemma HeadsAgree(a: string, s: string, b: string, t: string)
    requires '.' !in a && '.' !in b && a + "." + s == b + "." + t
    ensures a == b && s == t
  {
    var u := a + "." + s;
    assert u[|a|] == '.' && u[|b|] == '.';
    assert forall i | 0 <= i < |a| :: u[i] == a[i];
    assert forall i | 0 <= i < |b| :: u[i] == b[i];
    assert a == u[..|a|] && b == u[..|b|] && s == u[|a| + 1..] && t == u[|b| + 1..];
  }
}
