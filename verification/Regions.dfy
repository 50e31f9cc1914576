/** Byte (or any) buffers as sequences: what sits at a position, and what a move does to it. */
module Regions {
  /** `part` sits at position i of s. */
  ghost predicate At<T>(s: seq<T>, i: int, part: seq<T>) {
    0 <= i && i + |part| <= |s| && s[i..i + |part|] == part
  }

  /** s and t are the same outside [lo, hi). */
  ghost predicate SameOutside<T>(s: seq<T>, t: seq<T>, lo: int, hi: int) {
    0 <= lo <= hi <= |s| == |t| && s[..lo] == t[..lo] && s[hi..] == t[hi..]
  }

  /** The effect of memmove within one buffer. */
  ghost function Moved<T>(s: seq<T>, dst: nat, src: nat, n: nat): (r: seq<T>)
    requires dst + n <= |s| && src + n <= |s|
    ensures SameOutside(s, r, dst, dst + n)
  {
    Written(s, dst, s[src..src + n])
  }

  /** The effect of writing `part` over s from position i on. */
  ghost function Written<T>(s: seq<T>, i: nat, part: seq<T>): (r: seq<T>)
    requires i + |part| <= |s|
    ensures SameOutside(s, r, i, i + |part|)
  {
    s[..i] + part + s[i + |part|..]
  }

  lemma {:induction false} AtJoin<T>(s: seq<T>, i: int, a: seq<T>, b: seq<T>)
    requires At(s, i, a) && At(s, i + |a|, b)
    ensures At(s, i, a + b)
  {
  }

  lemma {:induction false} AtSplit<T>(s: seq<T>, i: int, a: seq<T>, b: seq<T>)
    requires At(s, i, a + b)
    ensures At(s, i, a) && At(s, i + |a|, b)
  {
    var t := s[i..i + |a| + |b|];
    assert t[..|a|] == a && t[|a|..] == b;
  }

  /** A part that lies wholly outside a changed region stays. */
  lemma {:induction false} KeepsOutside<T>(s: seq<T>, t: seq<T>, lo: int, hi: int, i: int, part: seq<T>)
    requires SameOutside(s, t, lo, hi) && At(s, i, part)
    requires i + |part| <= lo || hi <= i
    ensures At(t, i, part)
  {
    if i + |part| <= lo {
      assert t[i..i + |part|] == t[..lo][i..i + |part|];
    } else {
      assert t[i..i + |part|] == t[hi..][i - hi..i - hi + |part|];
    }
  }

  /** Two changes, one after the other. */
  lemma {:induction false} SameOutsideTrans<T>(s: seq<T>, t: seq<T>, u: seq<T>,
                                               lo1: int, hi1: int, lo2: int, hi2: int, lo: int, hi: int)
    requires SameOutside(s, t, lo1, hi1) && SameOutside(t, u, lo2, hi2)
    requires 0 <= lo <= lo1 && lo <= lo2 && hi1 <= hi && hi2 <= hi <= |s|
    ensures SameOutside(s, u, lo, hi)
  {
    assert s[..lo] == s[..lo1][..lo] == t[..lo1][..lo] == t[..lo2][..lo] == u[..lo];
    assert s[hi..] == s[hi1..][hi - hi1..] == t[hi1..][hi - hi1..] == t[hi2..][hi - hi2..] == u[hi..];
  }

  lemma {:induction false} WrittenHas<T>(s: seq<T>, at: nat, w: seq<T>)
    requires at + |w| <= |s|
    ensures At(Written(s, at, w), at, w)
  {
  }

  /** A part inside the source of a move arrives at the same place in the destination. */
  lemma {:induction false} MovedBrings<T>(s: seq<T>, dst: nat, src: nat, n: nat, i: int, part: seq<T>)
    requires dst + n <= |s| && src + n <= |s|
    requires At(s, i, part) && src <= i && i + |part| <= src + n
    ensures At(Moved(s, dst, src, n), i - src + dst, part)
  {
    var r := Moved(s, dst, src, n);
    assert r[i - src + dst..i - src + dst + |part|] == s[i..i + |part|];
  }

  method MoveWithin<T>(a: array<T>, dst: nat, src: nat, n: nat)
    requires dst + n <= a.Length && src + n <= a.Length
    modifies a
    ensures a[..] == Moved(old(a[..]), dst, src, n)
  {
    hide Moved;
    forall k | 0 <= k < n {
      a[dst + k] := a[src + k];
    }
    forall k | 0 <= k < a.Length
      ensures a[..][k] == Moved(old(a[..]), dst, src, n)[k]
    {
      MovedElement(old(a[..]), dst, src, n, k);
    }
  }

  lemma {:induction false} MovedElement<T>(s: seq<T>, dst: nat, src: nat, n: nat, k: nat)
    requires dst + n <= |s| && src + n <= |s| && k < |s|
    ensures |Moved(s, dst, src, n)| == |s|
    ensures Moved(s, dst, src, n)[k] == if dst <= k < dst + n then s[src + k - dst] else s[k]
  {
  }

  method Write<T>(a: array<T>, at: nat, part: seq<T>)
    requires at + |part| <= a.Length
    modifies a
    ensures a[..] == Written(old(a[..]), at, part)
  {
    forall k | 0 <= k < |part| {
      a[at + k] := part[k];
    }
  }
}
