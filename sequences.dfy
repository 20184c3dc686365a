/**
 * Removing repeated elements the way a `contains`-then-`push` loop does:
 * an element is appended only when no equal element is already there.
 */
module Sequences {
  import opened Wrappers

  function Dedup<T(==)>(s: seq<T>): seq<T>
  {
    if s == [] then []
    else
      var d := Dedup(s[..|s| - 1]);
      if s[|s| - 1] in d then d else d + [s[|s| - 1]]
  }

  predicate NoDuplicates<T(==)>(s: seq<T>)
  {
    forall i, j :: 0 <= i < j < |s| ==> s[i] != s[j]
  }

  /** The index of the first occurrence of `x` in `s`. */
  function FirstIndex<T(==)>(s: seq<T>, x: T): (k: nat)
    requires x in s
    ensures k < |s| && s[k] == x && x !in s[..k]
  {
    if s[0] == x then 0 else 1 + FirstIndex(s[1..], x)
  }

  /** The result holds exactly the elements of the input. */
  lemma {:induction false} DedupElements<T>(s: seq<T>)
    ensures forall x :: x in Dedup(s) <==> x in s
  {
    if s != [] {
      var init := s[..|s| - 1];
      DedupElements(init);
      assert s == init + [s[|s| - 1]];
    }
  }

  lemma DedupMember<T>(s: seq<T>, i: nat)
    requires i < |Dedup(s)|
    ensures Dedup(s)[i] in s
  {
    DedupElements(s);
    assert Dedup(s)[i] in Dedup(s);
  }

  /** No element appears twice in the result. */
  lemma {:induction false} DedupNoDuplicates<T>(s: seq<T>)
    ensures NoDuplicates(Dedup(s))
  {
    if s != [] {
      DedupNoDuplicates(s[..|s| - 1]);
    }
  }

  /** `x` and `y` both occur in `s`, and `x` occurs first. */
  predicate FirstOccursBefore<T(==)>(s: seq<T>, x: T, y: T)
  {
    x in s && y in s && FirstIndex(s, x) < FirstIndex(s, y)
  }

  lemma {:induction false} FirstIndexSnoc<T>(s: seq<T>, y: T, x: T)
    requires x in s
    ensures FirstIndex(s + [y], x) == FirstIndex(s, x)
  {
    if s[0] != x {
      assert (s + [y])[1..] == s[1..] + [y];
      FirstIndexSnoc(s[1..], y, x);
    }
  }

  lemma {:induction false} DedupOrderAt<T>(s: seq<T>, i: nat, j: nat)
    requires i < j < |Dedup(s)|
    ensures FirstOccursBefore(s, Dedup(s)[i], Dedup(s)[j])
  {
    var init, y := s[..|s| - 1], s[|s| - 1];
    var d := Dedup(init);
    assert s == init + [y];
    assert Dedup(s) == if y in d then d else d + [y];
    assert i < |d| && Dedup(s)[i] == d[i];
    DedupMember(init, i);
    FirstIndexSnoc(init, y, d[i]);
    if j < |d| {
      DedupMember(init, j);
      FirstIndexSnoc(init, y, d[j]);
      DedupOrderAt(init, i, j);
    } else {
      DedupElements(init);
      assert Dedup(s)[j] == y && y !in init;
      var k := FirstIndex(s, y);
      assert k == |init| by {
        assert forall m :: 0 <= m < |init| ==> s[m] == init[m];
      }
    }
  }

  /** The result lists the elements in the order of their first occurrence in the input. */
  lemma DedupFirstOccurrenceOrder<T>(s: seq<T>)
    ensures forall i, j :: 0 <= i < j < |Dedup(s)| ==> FirstOccursBefore(s, Dedup(s)[i], Dedup(s)[j])
  {
    forall i: nat, j: nat | i < j < |Dedup(s)| {
      DedupOrderAt(s, i, j);
    }
  }

  /** A list without repeats is left as it is. */
  lemma {:induction false} DedupOfDistinct<T>(s: seq<T>)
    requires NoDuplicates(s)
    ensures Dedup(s) == s
  {
    if s != [] {
      var init := s[..|s| - 1];
      DedupOfDistinct(init);
    }
  }

  /** The values `f` yields for the elements of `s`, in order; elements it maps to `None` are dropped. */
  function FilterMap<A, B>(f: A -> Option<B>, s: seq<A>): seq<B>
  {
    if s == [] then []
    else
      var init := FilterMap(f, s[..|s| - 1]);
      match f(s[|s| - 1])
      case Some(y) => init + [y]
      case None => init
  }

  /** A value is in the result exactly when `f` yields it for some element. */
  lemma {:induction false} FilterMapMembership<A, B>(f: A -> Option<B>, s: seq<A>, y: B)
    ensures y in FilterMap(f, s) <==> exists i :: 0 <= i < |s| && f(s[i]) == Some(y)
  {
    if s != [] {
      var init := s[..|s| - 1];
      FilterMapMembership(f, init, y);
      if y in FilterMap(f, init) {
        var i :| 0 <= i < |init| && f(init[i]) == Some(y);
        assert s[i] == init[i];
      } else if f(s[|s| - 1]) != Some(y) {
        forall i | 0 <= i < |s|
          ensures f(s[i]) != Some(y)
        {
          if i < |init| {
            assert s[i] == init[i];
          }
        }
      }
    }
  }
}
