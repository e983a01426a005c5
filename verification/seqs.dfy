/** Sequence helpers: index-based removal and duplicate-freedom. */
module Seqs {

  /** `s.filter((_, k) => k !== i)`: drop the entry at index `i`, if there is one. */
  function RemoveAt<T>(s: seq<T>, i: int): seq<T>
    decreases |s|
  {
    if s == [] then []
    else (if i == 0 then [] else [s[0]]) + RemoveAt(s[1..], i - 1)
  }

  /** Removing at an index drops exactly that entry; any other index leaves the sequence alone. */
  lemma {:induction false} RemoveAtSpec<T>(s: seq<T>, i: int)
    ensures 0 <= i < |s| ==> RemoveAt(s, i) == s[..i] + s[i + 1..]
    ensures !(0 <= i < |s|) ==> RemoveAt(s, i) == s
    decreases |s|
  {
    if s == [] {
    } else if i == 0 {
      RemoveAtSpec(s[1..], -1);
    } else {
      var r := RemoveAt(s[1..], i - 1);
      assert RemoveAt(s, i) == [s[0]] + r;
      RemoveAtSpec(s[1..], i - 1);
      if 0 < i < |s| {
        assert r == s[1..i] + s[i + 1..];
        assert [s[0]] + s[1..i] == s[..i];
      } else {
        assert r == s[1..];
      }
    }
  }

  predicate Distinct<T(==)>(s: seq<T>) {
    forall i, j | 0 <= i < j < |s| :: s[i] != s[j]
  }

  function Elements<T>(s: seq<T>): set<T> {
    set i | 0 <= i < |s| :: s[i]
  }

  lemma {:induction false} ElementsOfSnoc<T>(p: seq<T>, x: T)
    ensures Elements(p + [x]) == Elements(p) + {x}
  {
    var s := p + [x];
    forall y | y in Elements(s) ensures y in Elements(p) + {x} {
      var i :| 0 <= i < |s| && s[i] == y;
      if i < |p| { assert p[i] == y; }
    }
    forall y | y in Elements(p) ensures y in Elements(s) {
      var i :| 0 <= i < |p| && p[i] == y;
      assert s[i] == y;
    }
    assert s[|p|] == x;
  }

  lemma {:induction false} ElementsBound<T>(s: seq<T>)
    ensures |Elements(s)| <= |s|
    decreases |s|
  {
    if s != [] {
      var p := s[..|s| - 1];
      assert s == p + [s[|s| - 1]];
      ElementsOfSnoc(p, s[|s| - 1]);
      ElementsBound(p);
    }
  }

  /** `new Set(s).size === s.length` holds exactly when `s` has no repeated entry. */
  lemma {:induction false} DistinctIffElementCount<T>(s: seq<T>)
    ensures |Elements(s)| == |s| <==> Distinct(s)
    decreases |s|
  {
    if s != [] {
      var p := s[..|s| - 1];
      var x := s[|s| - 1];
      assert s == p + [x];
      ElementsOfSnoc(p, x);
      DistinctIffElementCount(p);
      if x in Elements(p) {
        var k :| 0 <= k < |p| && p[k] == x;
        assert s[k] == s[|s| - 1];
        ElementsBound(p);
      } else {
        assert Distinct(s) <==> Distinct(p) by {
          if Distinct(p) {
            forall i, j | 0 <= i < j < |s| ensures s[i] != s[j] {
              if j == |s| - 1 {
                assert p[i] in Elements(p);
              } else {
                assert s[i] == p[i] && s[j] == p[j];
              }
            }
          }
          if Distinct(s) {
            forall i, j | 0 <= i < j < |p| ensures p[i] != p[j] {
              assert s[i] == p[i] && s[j] == p[j];
            }
          }
        }
      }
    }
  }
}
