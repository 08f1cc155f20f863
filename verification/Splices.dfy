/** Sequences without repetition, and replacing an element of a sequence by a sequence. */
module Splices {
  ghost predicate NoDup<T>(s: seq<T>) {
    s == [] || (s[0] !in s[1..] && NoDup(s[1..]))
  }

  ghost function Elems<T>(s: seq<T>): set<T> {
    if s == [] then {} else {s[0]} + Elems(s[1..])
  }

  lemma {:induction false} ElemsAre<T>(s: seq<T>)
    ensures forall x :: x in Elems(s) <==> x in s
  {
    if s != [] {
      ElemsAre(s[1..]);
      assert s == [s[0]] + s[1..];
    }
  }

  lemma {:induction false} ElemsConcat<T>(a: seq<T>, b: seq<T>)
    ensures Elems(a + b) == Elems(a) + Elems(b)
  {
    if a == [] {
      assert a + b == b;
    } else {
      ElemsConcat(a[1..], b);
      assert (a + b)[1..] == a[1..] + b;
    }
  }

  lemma {:induction false} NoDupConcat<T>(a: seq<T>, b: seq<T>)
    ensures NoDup(a + b) <==> NoDup(a) && NoDup(b) && Elems(a) !! Elems(b)
  {
    ElemsAre(b);
    if a == [] {
      assert a + b == b;
    } else {
      NoDupConcat(a[1..], b);
      assert (a + b)[1..] == a[1..] + b;
    }
  }

  lemma {:induction false} NoDupAt<T>(s: seq<T>, i: nat, j: nat)
    requires NoDup(s) && i < j < |s|
    ensures s[i] != s[j]
  {
    if i == 0 {
      assert s[1..][j - 1] == s[j];
    } else {
      NoDupAt(s[1..], i - 1, j - 1);
    }
  }

  /** `s` with every `y` replaced by the elements of `t`. */
  ghost function Splice<T>(s: seq<T>, y: T, t: seq<T>): seq<T> {
    if s == [] then [] else (if s[0] == y then t else [s[0]]) + Splice(s[1..], y, t)
  }

  lemma {:induction false} SpliceConcat<T>(a: seq<T>, b: seq<T>, y: T, t: seq<T>)
    ensures Splice(a + b, y, t) == Splice(a, y, t) + Splice(b, y, t)
  {
    if a == [] {
      assert a + b == b;
    } else {
      var h, r := if a[0] == y then t else [a[0]], a[1..];
      SpliceConcat(r, b, y, t);
      assert (a + b)[1..] == r + b;
      assert h + (Splice(r, y, t) + Splice(b, y, t)) == (h + Splice(r, y, t)) + Splice(b, y, t);
    }
  }

  lemma {:induction false} SpliceAbsent<T>(s: seq<T>, y: T, t: seq<T>)
    requires y !in s
    ensures Splice(s, y, t) == s
  {
    if s != [] {
      SpliceAbsent(s[1..], y, t);
    }
  }

  /** The one occurrence of `y` gives way to `t`. */
  lemma SpliceOnce<T>(a: seq<T>, y: T, b: seq<T>, t: seq<T>)
    requires NoDup(a + [y] + b)
    ensures Splice(a + [y] + b, y, t) == a + t + b
  {
    NoDupAround(a, y, b);
    SpliceConcat(a + [y], b, y, t);
    SpliceConcat(a, [y], y, t);
    SpliceAbsent(a, y, t);
    SpliceAbsent(b, y, t);
    assert Splice([y], y, t) == t + Splice([y][1..], y, t) == t;
  }

  /** An element met in the middle of a sequence without repetition is met nowhere else. */
  lemma NoDupAround<T>(a: seq<T>, x: T, b: seq<T>)
    ensures NoDup(a + [x] + b) <==> x !in a && x !in b && NoDup(a + b)
    ensures Elems(a + [x] + b) == Elems(a + b) + {x}
  {
    NoDupConcat(a + [x], b);
    NoDupConcat(a, [x]);
    NoDupConcat(a, b);
    ElemsConcat(a + [x], b);
    ElemsConcat(a, [x]);
    ElemsConcat(a, b);
    ElemsAre(a);
    ElemsAre(b);
    assert [x][1..] == [] && Elems([x]) == {x} + Elems([x][1..]);
  }
}
