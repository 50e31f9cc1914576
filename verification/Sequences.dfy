/** A sequence cut into consecutive parts, and what moving the cuts does: the items of neighbouring leaves, the
    pointers of neighbouring nodes. */
module Sequences {
  function Flatten<T>(v: seq<seq<T>>): seq<T> {
    if v == [] then [] else v[0] + Flatten(v[1..])
  }

  lemma {:induction false} FlattenConcat<T>(v: seq<seq<T>>, w: seq<seq<T>>)
    ensures Flatten(v + w) == Flatten(v) + Flatten(w)
  {
    if v == [] {
      assert v + w == w;
    } else {
      assert (v + w)[1..] == v[1..] + w;
      FlattenConcat(v[1..], w);
    }
  }

  /** Replacing a run of parts by another run with the same elements changes nothing overall. */
  lemma {:induction false} FlattenReplace<T>(v: seq<seq<T>>, w: seq<seq<T>>, lo: nat, hi: nat, hi': nat)
    requires lo <= hi <= |v| && lo <= hi' <= |w|
    requires v[..lo] == w[..lo] && v[hi..] == w[hi'..] && Flatten(v[lo..hi]) == Flatten(w[lo..hi'])
    ensures Flatten(v) == Flatten(w)
  {
    hide Flatten;
    assert v == v[..lo] + (v[lo..hi] + v[hi..]) && w == w[..lo] + (w[lo..hi'] + w[hi'..]);
    FlattenConcat(v[..lo], v[lo..hi] + v[hi..]);
    FlattenConcat(v[lo..hi], v[hi..]);
    FlattenConcat(w[..lo], w[lo..hi'] + w[hi'..]);
    FlattenConcat(w[lo..hi'], w[hi'..]);
  }

  lemma {:induction false} FlattenOne<T>(x: seq<T>)
    ensures Flatten([x]) == x
  {
    assert Flatten([x]) == x + Flatten([]);
  }

  lemma {:induction false} FlattenTwo<T>(x: seq<T>, y: seq<T>)
    ensures Flatten([x, y]) == x + y
  {
    FlattenOne(y);
    assert [x, y][1..] == [y];
  }

  /** Elements moved over the border between parts i and i + 1. */
  lemma {:induction false} BorderMoved<T>(v: seq<seq<T>>, w: seq<seq<T>>, i: nat)
    requires i + 1 < |v| == |w| && v[..i] == w[..i] && v[i + 2..] == w[i + 2..]
    requires v[i] + v[i + 1] == w[i] + w[i + 1]
    ensures Flatten(v) == Flatten(w)
    ensures |Flatten(v[..i + 1])| == |Flatten(v[..i])| + |v[i]|
    ensures |Flatten(w[..i + 1])| == |Flatten(v[..i])| + |w[i]|
  {
    hide Flatten;
    assert v[i..i + 2] == [v[i], v[i + 1]] && w[i..i + 2] == [w[i], w[i + 1]];
    FlattenTwo(v[i], v[i + 1]);
    FlattenTwo(w[i], w[i + 1]);
    FlattenReplace(v, w, i, i + 2, i + 2);
    BeforeNext(v, i);
    BeforeNext(w, i);
  }

  lemma {:induction false} BeforeNext<T>(v: seq<seq<T>>, i: nat)
    requires i < |v|
    ensures |Flatten(v[..i + 1])| == |Flatten(v[..i])| + |v[i]|
  {
    assert v[..i + 1] == v[..i] + [v[i]];
    FlattenConcat(v[..i], [v[i]]);
    FlattenOne(v[i]);
  }

  lemma {:induction false} PartCut<T>(v: seq<seq<T>>, w: seq<seq<T>>, i: nat)
    requires i < |v| && |w| == |v| + 1 && v[..i] == w[..i] && v[i + 1..] == w[i + 2..]
    requires v[i] == w[i] + w[i + 1]
    ensures Flatten(v) == Flatten(w)
    ensures |Flatten(w[..i + 1])| == |Flatten(v[..i])| + |w[i]|
  {
    hide Flatten;
    assert v[i..i + 1] == [v[i]] && w[i..i + 2] == [w[i], w[i + 1]];
    FlattenOne(v[i]);
    FlattenTwo(w[i], w[i + 1]);
    FlattenReplace(v, w, i, i + 1, i + 2);
    BeforeNext(w, i);
  }

  lemma {:induction false} PartAdded<T>(v: seq<seq<T>>, w: seq<seq<T>>, at: nat)
    requires at <= |v| && |w| == |v| + 1 && v[..at] == w[..at] && v[at..] == w[at + 1..] && w[at] == []
    ensures Flatten(v) == Flatten(w)
  {
    assert v[at..at] == [] && w[at..at + 1] == [[]];
    FlattenOne<T>([]);
    FlattenReplace(v, w, at, at, at + 1);
  }

  /** The j-th element of part i, found in the whole. */
  lemma {:induction false} PartElement<T>(v: seq<seq<T>>, i: nat, j: nat)
    requires i < |v| && j < |v[i]|
    ensures |Flatten(v[..i])| + j < |Flatten(v)|
    ensures Flatten(v)[|Flatten(v[..i])| + j] == v[i][j]
  {
    hide Flatten;
    assert v == v[..i] + ([v[i]] + v[i + 1..]);
    FlattenConcat(v[..i], [v[i]] + v[i + 1..]);
    FlattenConcat([v[i]], v[i + 1..]);
    FlattenOne(v[i]);
  }

  /** A stretch of elements removed. */
  function Cut<T>(s: seq<T>, at: nat, n: nat): seq<T>
    requires at + n <= |s|
  {
    s[..at] + s[at + n..]
  }

  /** Removing elements from one part removes them from the whole. */
  lemma {:induction false} PartShrunk<T>(v: seq<seq<T>>, i: nat, at: nat, n: nat)
    requires i < |v| && at + n <= |v[i]|
    ensures |Flatten(v[..i])| + at + n <= |Flatten(v)|
    ensures Flatten(v[i := Cut(v[i], at, n)]) == Cut(Flatten(v), |Flatten(v[..i])| + at, n)
  {
    hide Flatten;
    var w := v[i := Cut(v[i], at, n)];
    assert v == v[..i] + ([v[i]] + v[i + 1..]) && w == v[..i] + ([w[i]] + v[i + 1..]);
    FlattenConcat(v[..i], [v[i]] + v[i + 1..]);
    FlattenConcat([v[i]], v[i + 1..]);
    FlattenOne(v[i]);
    FlattenConcat(v[..i], [w[i]] + v[i + 1..]);
    FlattenConcat([w[i]], v[i + 1..]);
    FlattenOne(w[i]);
  }

  /** Elements put into one part are put into the whole. */
  lemma {:induction false} PartGrown<T>(v: seq<seq<T>>, i: nat, at: nat, x: seq<T>)
    requires i < |v| && at <= |v[i]|
    ensures |Flatten(v[..i])| + at <= |Flatten(v)|
    ensures var c := |Flatten(v[..i])| + at;
            Flatten(v[i := v[i][..at] + x + v[i][at..]]) == Flatten(v)[..c] + x + Flatten(v)[c..]
  {
    hide Flatten;
    var w := v[i := v[i][..at] + x + v[i][at..]];
    assert v == v[..i] + ([v[i]] + v[i + 1..]) && w == v[..i] + ([w[i]] + v[i + 1..]);
    FlattenConcat(v[..i], [v[i]] + v[i + 1..]);
    FlattenConcat([v[i]], v[i + 1..]);
    FlattenOne(v[i]);
    FlattenConcat(v[..i], [w[i]] + v[i + 1..]);
    FlattenConcat([w[i]], v[i + 1..]);
    FlattenOne(w[i]);
  }

  // ---------- sums ----------

  function Sum<T>(s: seq<T>, f: T -> int): int {
    if s == [] then 0 else Sum(s[..|s| - 1], f) + f(s[|s| - 1])
  }

  lemma {:induction false} SumConcat<T>(a: seq<T>, b: seq<T>, f: T -> int)
    ensures Sum(a + b, f) == Sum(a, f) + Sum(b, f)
  {
    if b == [] {
      assert a + b == a;
    } else {
      SumConcat(a, b[..|b| - 1], f);
      assert (a + b)[..|a + b| - 1] == a + b[..|b| - 1];
    }
  }

  lemma {:induction false} SumOne<T>(x: T, f: T -> int)
    ensures Sum([x], f) == f(x)
  {
    assert [x][..0] == [];
  }

  lemma {:induction false} SumZero<T>(s: seq<T>, f: T -> int)
    requires forall j | 0 <= j < |s| :: f(s[j]) == 0
    ensures Sum(s, f) == 0
  {
    if s != [] {
      SumZero(s[..|s| - 1], f);
    }
  }

  /** Only one element counts. */
  lemma {:induction false} SumSingle<T>(s: seq<T>, i: nat, f: T -> int)
    requires i < |s| && forall j | 0 <= j < |s| && j != i :: f(s[j]) == 0
    ensures Sum(s, f) == f(s[i])
  {
    if i == |s| - 1 {
      SumZero(s[..|s| - 1], f);
    } else {
      SumSingle(s[..|s| - 1], i, f);
    }
  }

  lemma {:induction false} SumNegative<T>(s: seq<T>, f: T -> int)
    requires forall i | 0 <= i < |s| :: f(s[i]) <= 0
    ensures Sum(s, f) <= 0 && (Sum(s, f) == 0 ==> forall i | 0 <= i < |s| :: f(s[i]) == 0)
  {
    if s != [] {
      var t := s[..|s| - 1];
      SumNegative(t, f);
      if Sum(s, f) == 0 {
        forall i | 0 <= i < |s|
          ensures f(s[i]) == 0
        {
          assert i < |t| ==> t[i] == s[i];
        }
      }
    }
  }

  lemma {:induction false} SumUpdate<T>(s: seq<T>, i: nat, x: T, f: T -> int)
    requires i < |s|
    ensures Sum(s[i := x], f) == Sum(s, f) - f(s[i]) + f(x)
  {
    if i < |s| - 1 {
      SumUpdate(s[..|s| - 1], i, x, f);
      assert s[i := x][..|s| - 1] == s[..|s| - 1][i := x];
    } else {
      assert s[i := x][..|s| - 1] == s[..|s| - 1];
    }
  }
}
