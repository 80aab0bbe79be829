/** The order of strings and of names sorted by the standard library: character by character, a
    prefix first. */
module Lexicographic {

  predicate Leq(a: string, b: string)
  {
    a == "" || (b != "" && (a[0] < b[0] || (a[0] == b[0] && Leq(a[1..], b[1..]))))
  }

  predicate Less(a: string, b: string) { Leq(a, b) && a != b }

  lemma {:induction false} Reflexive(a: string)
    ensures Leq(a, a)
  {
    if a != "" {
      Reflexive(a[1..]);
    }
  }

  lemma {:induction false} Total(a: string, b: string)
    ensures Leq(a, b) || Leq(b, a)
  {
    if a != "" && b != "" && a[0] == b[0] {
      Total(a[1..], b[1..]);
    }
  }

  lemma {:induction false} Antisymmetric(a: string, b: string)
    requires Leq(a, b) && Leq(b, a)
    ensures a == b
  {
    if a != "" && b != "" {
      Antisymmetric(a[1..], b[1..]);
      assert a == [a[0]] + a[1..] && b == [b[0]] + b[1..];
    }
  }

  lemma {:induction false} Transitive(a: string, b: string, c: string)
    requires Leq(a, b) && Leq(b, c)
    ensures Leq(a, c)
  {
    if a != "" && a[0] == b[0] == c[0] {
      Transitive(a[1..], b[1..], c[1..]);
    }
  }

  ghost predicate IsLeast(least: string, s: set<string>)
  {
    least in s && forall x :: x in s ==> Leq(least, x)
  }

  /** The first string of a sorted set. */
  method Least(s: set<string>) returns (least: string)
    requires s != {}
    ensures IsLeast(least, s)
  {
    least :| least in s;
    var rest := s - {least};
    Reflexive(least);
    while rest != {}
      invariant rest <= s && least in s
      invariant forall x :: x in s && x !in rest ==> Leq(least, x)
    {
      var y :| y in rest;
      rest := rest - {y};
      Total(least, y);
      Reflexive(y);
      if !Leq(least, y) {
        forall x | x in s && x !in rest ensures Leq(y, x) {
          if x != y {
            Transitive(y, least, x);
          }
        }
        least := y;
      }
    }
  }

  lemma {:induction false} LeastUnique(a: string, b: string, s: set<string>)
    requires IsLeast(a, s) && IsLeast(b, s)
    ensures a == b
  {
    Antisymmetric(a, b);
  }

  ghost predicate Increasing(ids: seq<string>) { forall j, k :: 0 <= j < k < |ids| ==> Less(ids[j], ids[k]) }

  /** The strings of a set in sorted order. */
  method Sorted(s: set<string>) returns (ids: seq<string>)
    ensures Increasing(ids) && (forall x :: x in ids <==> x in s)
  {
    ids := [];
    var rest := s;
    while rest != {}
      invariant rest <= s && Increasing(ids) && forall x :: x in ids <==> x in s && x !in rest
      invariant forall x, y :: x in ids && y in rest ==> Less(x, y)
    {
      var x := Least(rest);
      ids := ids + [x];
      rest := rest - {x};
    }
  }
}
