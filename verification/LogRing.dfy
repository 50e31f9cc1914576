/** The circular array of log entries, read from one position on, and what sorting does to a stretch of it. */
module LogRing {
  import opened LogEntry

  /** entry(i) */
  function Cell(s: seq<Entry>, i: int): Entry
    requires |s| == LOG_LEN
  {
    s[i % 32768]
  }

  /** entry(i) = e */
  function Stored(s: seq<Entry>, i: int, e: Entry): (t: seq<Entry>)
    requires |s| == LOG_LEN
    ensures |t| == LOG_LEN
  {
    s[i % 32768 := e]
  }

  /** The whole ring, read from index `base` on. */
  ghost function Ring(s: seq<Entry>, base: int): (r: seq<Entry>)
    requires |s| == LOG_LEN
    ensures |r| == LOG_LEN
  {
    seq(LOG_LEN, k requires 0 <= k < LOG_LEN => s[(base + k) % 32768])
  }

  lemma {:induction false} SlotsDiffer(base: int, j: int, k: int)
    requires 0 <= j < 32768 && 0 <= k < 32768
    ensures (base + j) % 32768 == (base + k) % 32768 <==> j == k
  {
    if (base + j) % 32768 == (base + k) % 32768 {
      var q := (base + j) / 32768 - (base + k) / 32768;
      assert j - k == 32768 * q;
    }
  }

  lemma {:induction false} RingUpdate(s: seq<Entry>, base: int, k: int, e: Entry)
    requires |s| == LOG_LEN && 0 <= k < LOG_LEN
    ensures Ring(s[(base + k) % 32768 := e], base) == Ring(s, base)[k := e]
  {
    var a, b := Ring(s[(base + k) % 32768 := e], base), Ring(s, base)[k := e];
    forall j | 0 <= j < |a|
      ensures a[j] == b[j]
    {
      SlotsDiffer(base, j, k);
    }
  }

  lemma {:induction false} RingStored(s: seq<Entry>, base: int, i: int, e: Entry)
    requires |s| == LOG_LEN && base <= i < base + LOG_LEN
    ensures Ring(Stored(s, i, e), base) == Ring(s, base)[i - base := e]
  {
    assert base + (i - base) == i;
    RingUpdate(s, base, i - base, e);
  }

  lemma {:induction false} RingCell(s: seq<Entry>, base: int, i: int)
    requires |s| == LOG_LEN && base <= i < base + LOG_LEN
    ensures Cell(s, i) == Ring(s, base)[i - base]
  {
    assert base + (i - base) == i;
  }

  lemma {:induction false} RingMultiple(x: int, k: int)
    ensures (x + 32768 * k) % 32768 == x % 32768
  {
  }

  lemma {:induction false} RingSame(s: seq<Entry>, a: int, b: int)
    requires |s| == LOG_LEN && a % 32768 == b % 32768
    ensures Ring(s, a) == Ring(s, b)
  {
    var x, y := Ring(s, a), Ring(s, b);
    forall k | 0 <= k < |x|
      ensures x[k] == y[k]
    {
      var q := a / 32768 - b / 32768;
      assert a + k == b + k + 32768 * q;
      RingMultiple(b + k, q);
    }
  }

  // ---------- order and permutation on a stretch ----------

  ghost predicate Sorted(r: seq<Entry>, lo: int, hi: int)
    requires 0 <= lo && hi <= |r|
  {
    forall i, j | lo <= i < j < hi :: AtMost(r[i], r[j])
  }

  /** r' is r with the stretch [lo, hi) permuted. */
  ghost predicate Shuffled(r: seq<Entry>, r': seq<Entry>, lo: int, hi: int) {
    && 0 <= lo <= hi <= |r| == |r'|
    && multiset(r[lo..hi]) == multiset(r'[lo..hi])
    && r[..lo] == r'[..lo] && r[hi..] == r'[hi..]
  }

  /** le_cmp can be trusted on the stretch. */
  ghost predicate Trusted(r: seq<Entry>, lo: int, hi: int)
    requires 0 <= lo && hi <= |r|
  {
    forall i, j | lo <= i < hi && lo <= j < hi :: Agrees(r[i], r[j])
  }

  lemma {:induction false} TrustedIn(r: seq<Entry>, lo: int, hi: int, lo': int, hi': int)
    requires 0 <= lo <= lo' && hi' <= hi <= |r| && Trusted(r, lo, hi)
    ensures Trusted(r, lo', hi')
  {
    hide Agrees;
  }

  lemma {:induction false} ShuffledTrusted(r: seq<Entry>, r': seq<Entry>, lo: int, hi: int)
    requires Shuffled(r, r', lo, hi) && Trusted(r, lo, hi)
    ensures Trusted(r', lo, hi)
  {
    hide Agrees;
    forall i, j | lo <= i < hi && lo <= j < hi
      ensures Agrees(r'[i], r'[j])
    {
      var i0 := FromShuffled(r, r', lo, hi, i);
      var j0 := FromShuffled(r, r', lo, hi, j);
    }
  }

  lemma {:induction false} FromShuffled(r: seq<Entry>, r': seq<Entry>, lo: int, hi: int, i: int) returns (k: int)
    requires Shuffled(r, r', lo, hi) && lo <= i < hi
    ensures lo <= k < hi && r[k] == r'[i]
  {
    var a, b := r[lo..hi], r'[lo..hi];
    assert b[i - lo] in multiset(b);
    assert b[i - lo] in a;
    var q :| 0 <= q < |a| && a[q] == b[i - lo];
    k := lo + q;
  }

  /** Where entry i came from: itself outside the permuted stretch, somewhere in the stretch inside it. */
  lemma {:induction false} Source(r: seq<Entry>, r': seq<Entry>, lo: int, hi: int, i: int) returns (k: int)
    requires Shuffled(r, r', lo, hi) && 0 <= i < |r|
    ensures 0 <= k < |r| == |r'| && r[k] == r'[i]
    ensures if lo <= i < hi then lo <= k < hi else k == i
  {
    if i < lo {
      assert r[i] == r[..lo][i] == r'[..lo][i];
      k := i;
    } else if i >= hi {
      assert r[i] == r[hi..][i - hi] == r'[hi..][i - hi];
      k := i;
    } else {
      k := FromShuffled(r, r', lo, hi, i);
    }
  }

  ghost function Swapped(r: seq<Entry>, i: int, j: int): (r': seq<Entry>)
    requires 0 <= i < |r| && 0 <= j < |r|
    ensures |r'| == |r|
  {
    r[i := r[j]][j := r[i]]
  }

  /** Swapping two places of a stretch is a permutation of it. */
  lemma {:induction false} SwapShuffles(r: seq<Entry>, lo: int, hi: int, i: int, j: int)
    requires 0 <= lo <= i < hi <= |r| && lo <= j < hi
    ensures Shuffled(r, Swapped(r, i, j), lo, hi)
  {
    var a := r[lo..hi];
    var b := a[i - lo := a[j - lo]][j - lo := a[i - lo]];
    assert Swapped(r, i, j)[lo..hi] == b;
    assert multiset(a[i - lo := a[j - lo]]) == multiset(a) - multiset{a[i - lo]} + multiset{a[j - lo]};
  }

  lemma {:induction false} ShuffledSame(r: seq<Entry>, lo: int, hi: int)
    requires 0 <= lo <= hi <= |r|
    ensures Shuffled(r, r, lo, hi)
  {
  }

  lemma {:induction false} ShuffledTrans(r: seq<Entry>, r': seq<Entry>, r'': seq<Entry>, lo: int, hi: int)
    requires Shuffled(r, r', lo, hi) && Shuffled(r', r'', lo, hi)
    ensures Shuffled(r, r'', lo, hi)
  {
  }

  /** A permutation of a part is a permutation of the whole stretch. */
  lemma {:induction false} ShuffledWiden(r: seq<Entry>, r': seq<Entry>, lo: int, hi: int, lo': int, hi': int)
    requires Shuffled(r, r', lo, hi) && 0 <= lo' <= lo && hi <= hi' <= |r|
    ensures Shuffled(r, r', lo', hi')
  {
    assert r[lo'..hi'] == r[lo'..lo] + r[lo..hi] + r[hi..hi'];
    assert r'[lo'..hi'] == r'[lo'..lo] + r'[lo..hi] + r'[hi..hi'];
    assert r[lo'..lo] == r[..lo][lo'..] && r'[lo'..lo] == r'[..lo][lo'..];
    assert r[hi..hi'] == r[hi..][..hi' - hi] && r'[hi..hi'] == r'[hi..][..hi' - hi];
    assert r[..lo'] == r[..lo][..lo'] && r'[..lo'] == r'[..lo][..lo'];
    assert r[hi'..] == r[hi..][hi' - hi..] && r'[hi'..] == r'[hi..][hi' - hi..];
  }

  /** A permutation of a stretch followed by one of a part of it. */
  lemma {:induction false} ShuffledChain(r: seq<Entry>, r': seq<Entry>, r'': seq<Entry>, lo: int, hi: int, lo': int,
                                         hi': int)
    requires Shuffled(r, r', lo, hi) && Shuffled(r', r'', lo', hi') && lo <= lo' && hi' <= hi
    ensures Shuffled(r, r'', lo, hi)
  {
    SameLength(r, r', lo, hi);
    assert 0 <= lo && hi <= |r'|;
    ShuffledWiden(r', r'', lo', hi', lo, hi);
    ShuffledTrans(r, r', r'', lo, hi);
  }

  lemma {:induction false} SameLength(r: seq<Entry>, r': seq<Entry>, lo: int, hi: int)
    requires Shuffled(r, r', lo, hi)
    ensures |r| == |r'|
  {
  }

  lemma {:induction false} AtMostTrans(a: Entry, b: Entry, c: Entry)
    ensures AtMost(a, b) && AtMost(b, c) ==> AtMost(a, c)
  {
  }

  lemma {:induction false} AtMostSelf(a: Entry)
    ensures AtMost(a, a)
  {
  }
}
