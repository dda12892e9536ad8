/** Sequence helpers shared by the palette dedup, the object dedup and the batch loop. */
module Seqs {

  ghost predicate Distinct<T>(s: seq<T>) {
    forall i, j :: 0 <= i < j < |s| ==> s[i] != s[j]
  }

  /** `[...new Set(s)]`: the elements of `s` in order of first occurrence. */
  function Unique<T(==)>(s: seq<T>): seq<T>
    decreases |s|
  {
    if s == [] then []
    else
      var u := Unique(s[..|s| - 1]);
      if s[|s| - 1] in u then u else u + [s[|s| - 1]]
  }

  lemma {:induction false} UniqueProperties<T>(s: seq<T>)
    ensures Distinct(Unique(s))
    ensures |Unique(s)| <= |s|
    ensures forall x :: x in Unique(s) <==> x in s
    decreases |s|
  {
    if s != [] {
      var p := s[..|s| - 1];
      UniqueProperties(p);
      assert s == p + [s[|s| - 1]];
    }
  }

  /** Dedup leaves a sequence without repetitions as it is. */
  lemma {:induction false} UniqueOfDistinct<T>(s: seq<T>)
    requires Distinct(s)
    ensures Unique(s) == s
    decreases |s|
  {
    if s != [] {
      var p := s[..|s| - 1];
      assert Distinct(p);
      UniqueOfDistinct(p);
      assert s[|s| - 1] !in p by {
        forall i | 0 <= i < |p| ensures p[i] != s[|s| - 1] {
          assert s[i] != s[|s| - 1];
        }
      }
      assert s == p + [s[|s| - 1]];
    }
  }

  /** Dedup of a prefix extended by one element. */
  lemma UniqueSnoc<T>(s: seq<T>, x: T)
    ensures Unique(s + [x]) == if x in Unique(s) then Unique(s) else Unique(s) + [x]
  {
    assert (s + [x])[..|s + [x]| - 1] == s;
  }

  /** Concatenation of a sequence of sequences, in order. */
  function Flatten<T>(ss: seq<seq<T>>): seq<T>
    decreases |ss|
  {
    if ss == [] then [] else Flatten(ss[..|ss| - 1]) + ss[|ss| - 1]
  }

  lemma FlattenSnoc<T>(ss: seq<seq<T>>, s: seq<T>)
    ensures Flatten(ss + [s]) == Flatten(ss) + s
  {
    assert (ss + [s])[..|ss + [s]| - 1] == ss;
  }

  /** `Array.prototype.filter`: the elements satisfying `p`, in order. */
  function Filter<T>(s: seq<T>, p: T -> bool): seq<T>
    decreases |s|
  {
    if s == [] then [] else (if p(s[0]) then [s[0]] else []) + Filter(s[1..], p)
  }

  lemma {:induction false} FilterProperties<T>(s: seq<T>, p: T -> bool)
    ensures |Filter(s, p)| <= |s|
    ensures forall x :: x in Filter(s, p) <==> x in s && p(x)
    decreases |s|
  {
    if s != [] {
      FilterProperties(s[1..], p);
      assert s == [s[0]] + s[1..];
    }
  }

  lemma {:induction false} FilterConcat<T>(a: seq<T>, b: seq<T>, p: T -> bool)
    ensures Filter(a + b, p) == Filter(a, p) + Filter(b, p)
    decreases |a|
  {
    if a == [] {
      assert a + b == b;
    } else {
      var c := a + b;
      var head := if p(a[0]) then [a[0]] else [];
      assert c[0] == a[0] && c[1..] == a[1..] + b;
      assert Filter(c, p) == head + Filter(a[1..] + b, p);
      FilterConcat(a[1..], b, p);
      assert Filter(a, p) == head + Filter(a[1..], p);
      assert head + (Filter(a[1..], p) + Filter(b, p)) == (head + Filter(a[1..], p)) + Filter(b, p);
    }
  }

  /** A concatenation is empty exactly when every part is. */
  lemma {:induction false} FlattenEmpty<T>(ss: seq<seq<T>>)
    ensures Flatten(ss) == [] <==> forall i :: 0 <= i < |ss| ==> ss[i] == []
    decreases |ss|
  {
    if ss != [] {
      var p := ss[..|ss| - 1];
      FlattenEmpty(p);
      assert forall i :: 0 <= i < |p| ==> p[i] == ss[i];
    }
  }
}
