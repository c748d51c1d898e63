/** Small datatypes and sequence facts shared by the other modules. */
module Basics {

  datatype Option<+T> = None | Some(value: T)

  /** No element occurs twice. */
  ghost predicate NoDup<T>(s: seq<T>) {
    forall i, j :: 0 <= i < j < |s| ==> s[i] != s[j]
  }

  function SetOf<T(==)>(s: seq<T>): set<T> {
    set x | x in s
  }

  /** Extends a duplicate-free enumeration of a set by one fresh element. */
  lemma NoDupSnoc<T>(s: seq<T>, x: T)
    requires NoDup(s) && x !in s
    ensures NoDup(s + [x])
    ensures SetOf(s + [x]) == SetOf(s) + {x}
  {
    forall y ensures y in SetOf(s + [x]) <==> y in SetOf(s) + {x} {
      assert y in s + [x] <==> y in s || y == x;
    }
  }

  /** `s` is an enumeration of the set, in some order and without repetition. */
  predicate Lists<T(==)>(s: seq<T>, all: set<T>) {
    |s| == |all| && SetOf(s) == all
  }

  /** Extends an enumeration by one fresh element. */
  lemma ListsSnoc<T>(s: seq<T>, all: set<T>, x: T)
    requires Lists(s, all) && x !in all
    ensures Lists(s + [x], all + {x})
  {
    forall y ensures y in SetOf(s + [x]) <==> y in all + {x} {
      assert y in s + [x] <==> y in s || y == x;
      assert y in s <==> y in SetOf(s);
    }
  }

  lemma ListsMembers<T>(s: seq<T>, all: set<T>)
    requires Lists(s, all)
    ensures NoDup(s)
    ensures forall x :: x in s <==> x in all
  {
    SetOfSize(s);
    assert forall x :: x in s <==> x in SetOf(s);
  }

  lemma {:induction false} SetOfSize<T>(s: seq<T>)
    ensures |SetOf(s)| <= |s|
    ensures |SetOf(s)| == |s| <==> NoDup(s)
  {
    if s == [] {
      assert SetOf(s) == {};
    } else {
      var n := |s| - 1;
      var init := s[..n];
      SetOfSize(init);
      assert s == init + [s[n]];
      assert SetOf(s) == SetOf(init) + {s[n]};
      assert NoDup(s) <==> NoDup(init) && s[n] !in init by {
        assert forall i :: 0 <= i < n ==> s[i] == init[i];
      }
    }
  }

  /** A sequence that covers a set with no element to spare is an enumeration of it. */
  lemma SetOfFull<T>(s: seq<T>, all: set<T>)
    requires |all| == |s| && forall x :: x in all ==> x in s
    ensures SetOf(s) == all && NoDup(s)
  {
    SetOfSize(s);
    assert all <= SetOf(s);
    SubsetSize(all, SetOf(s));
  }

  lemma SubsetSize<T>(a: set<T>, b: set<T>)
    requires a <= b
    ensures |a| <= |b| && (|a| == |b| ==> a == b)
  {
    assert |b| == |a| + |b - a| by { assert b == a + (b - a); }
    if |a| == |b| {
      assert b - a == {};
    }
  }
}
