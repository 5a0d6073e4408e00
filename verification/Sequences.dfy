// Linked lists as sequences: list_del, and lists that hold nothing twice.
module Sequences {

  ghost predicate NoRepeats<T>(s: seq<T>) {
    s == [] || (s[0] !in s[1..] && NoRepeats(s[1..]))
  }

  // list_del
  function Without<T(==)>(s: seq<T>, x: T): seq<T> {
    if s == [] then [] else if s[0] == x then s[1..] else [s[0]] + Without(s[1..], x)
  }

  // Only the first x goes, and the others keep their order.
  lemma {:induction false} WithoutSplit<T>(a: seq<T>, x: T, b: seq<T>)
    requires x !in a
    ensures Without(a + [x] + b, x) == a + b
  {
    if a == [] {
      assert a + [x] + b == [x] + b && ([x] + b)[1..] == b && a + b == b;
    } else {
      WithoutSplit(a[1..], x, b);
      assert (a + [x] + b)[1..] == a[1..] + [x] + b;
      assert a + b == [a[0]] + (a[1..] + b);
    }
  }

  ghost function Members<T>(s: seq<T>): set<T> {
    set x | x in s
  }

  lemma MembersCons<T>(x: T, s: seq<T>)
    ensures Members([x] + s) == {x} + Members(s)
  {}

  lemma {:induction false} WithoutMembers<T>(s: seq<T>, x: T)
    requires NoRepeats(s)
    ensures NoRepeats(Without(s, x))
    ensures Members(Without(s, x)) == Members(s) - {x}
  {
    if s != [] {
      var rest := Without(s[1..], x);
      WithoutMembers(s[1..], x);
      assert s == [s[0]] + s[1..];
      MembersCons(s[0], s[1..]);
      MembersCons(s[0], rest);
      if s[0] == x {
        assert x !in Members(s[1..]);
      } else {
        assert s[0] !in Members(rest);
        assert ([s[0]] + rest)[1..] == rest;
      }
    }
  }

  lemma {:induction false} DistinctEntries<T>(s: seq<T>, j: nat, i: nat)
    requires NoRepeats(s) && j < i < |s|
    ensures s[j] != s[i]
  {
    if j > 0 {
      DistinctEntries(s[1..], j - 1, i - 1);
    } else {
      assert s[i] == s[1..][i - 1];
    }
  }
}
