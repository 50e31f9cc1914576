/** What the log means: replaying its entries over the disk gives the files.  The invariant that ties log entries,
    reverse-log records, page cache and page contents together, and why writing, copying on write and flushing
    keep it. */
module LogImage {
  import opened Basics
  import opened LogEntry
  import opened MergeFlush

  function Zeros(n: nat): (s: seq<int>)
    ensures |s| == n
  {
    if n == 0 then [] else Zeros(n - 1) + [0]
  }

  type Page = s: seq<int> | |s| == 4096 witness Zeros(4096)

  /** One page of one file. */
  datatype Key = Key(ino: u64, index: u64)

  type Image = map<Key, Page>

  function KeyOf(e: Entry): Key { Key(e.ino, e.PageIndex()) }

  function PageOf(content: map<nat, Page>, p: nat): Page { if p in content then content[p] else Zeros(4096) }

  function ImagePage(m: Image, key: Key): Page { if key in m then m[key] else Zeros(4096) }

  // ---------- replaying ----------

  /** The image after the first n entries, in log order, are put over `disk`. */
  ghost function Replay(disk: Image, log: seq<Entry>, content: map<nat, Page>, n: nat): Image
    requires n <= |log|
  {
    if n == 0 then disk
    else
      var before := Replay(disk, log, content, n - 1);
      if Data(log[n - 1]) then before[KeyOf(log[n - 1]) := PageOf(content, log[n - 1].page)] else before
  }

  /** Entry k of one log means the same as entry k of another. */
  ghost predicate SameMeaning(a: Entry, content: map<nat, Page>, b: Entry, content': map<nat, Page>) {
    && (Data(a) <==> Data(b))
    && (Data(a) ==> KeyOf(a) == KeyOf(b) && PageOf(content, a.page) == PageOf(content', b.page))
  }

  lemma {:induction false} ReplaySame(disk: Image, log: seq<Entry>, content: map<nat, Page>, log': seq<Entry>,
                                      content': map<nat, Page>, n: nat)
    requires n <= |log| && n <= |log'|
    requires forall k | 0 <= k < n :: SameMeaning(log[k], content, log'[k], content')
    ensures Replay(disk, log, content, n) == Replay(disk, log', content', n)
  {
    if n > 0 {
      ReplaySame(disk, log, content, log', content', n - 1);
      assert SameMeaning(log[n - 1], content, log'[n - 1], content');
    }
  }

  /** Replaying can stop and go on. */
  lemma {:induction false} ReplaySplit(disk: Image, log: seq<Entry>, content: map<nat, Page>, a: nat, n: nat)
    requires a + n <= |log|
    ensures Replay(disk, log, content, a + n) == Replay(Replay(disk, log, content, a), log[a..], content, n)
  {
    if n > 0 {
      ReplaySplit(disk, log, content, a, n - 1);
      assert log[a..][n - 1] == log[a + n - 1];
    }
  }

  /** No entry of a key: the replay leaves it as it is on disk. */
  lemma {:induction false} ReplayMisses(disk: Image, log: seq<Entry>, content: map<nat, Page>, n: nat, key: Key)
    requires n <= |log| && forall k | 0 <= k < n && Data(log[k]) :: KeyOf(log[k]) != key
    ensures key in Replay(disk, log, content, n) <==> key in disk
    ensures key in disk ==> Replay(disk, log, content, n)[key] == disk[key]
  {
    if n > 0 {
      ReplayMisses(disk, log, content, n - 1, key);
    }
  }

  /** The last entry of a key decides. */
  lemma {:induction false} ReplayHits(disk: Image, log: seq<Entry>, content: map<nat, Page>, n: nat, k: nat)
    requires k < n <= |log| && Data(log[k])
    requires forall j | k < j < n && Data(log[j]) :: KeyOf(log[j]) != KeyOf(log[k])
    ensures KeyOf(log[k]) in Replay(disk, log, content, n)
    ensures Replay(disk, log, content, n)[KeyOf(log[k])] == PageOf(content, log[k].page)
  {
    if k < n - 1 {
      ReplayHits(disk, log, content, n - 1, k);
    }
  }

  /** Changing the page of the last entry of a key changes the image at that key only. */
  lemma {:induction false} ReplayPatched(disk: Image, log: seq<Entry>, content: map<nat, Page>, log': seq<Entry>,
                                         content': map<nat, Page>, n: nat, k: nat)
    requires k < n <= |log| == |log'| && Data(log[k]) && Data(log'[k]) && KeyOf(log'[k]) == KeyOf(log[k])
    requires forall j | 0 <= j < n && j != k :: SameMeaning(log[j], content, log'[j], content')
    requires forall j | k < j < n && Data(log[j]) :: KeyOf(log[j]) != KeyOf(log[k])
    ensures Replay(disk, log', content', n)
            == Replay(disk, log, content, n)[KeyOf(log[k]) := PageOf(content', log'[k].page)]
  {
    hide Data, KeyOf, PageOf;
    if k == n - 1 {
      ReplaySame(disk, log, content, log', content', k);
    } else {
      ReplayPatched(disk, log, content, log', content', n - 1, k);
      assert SameMeaning(log[n - 1], content, log'[n - 1], content');
      if Data(log[n - 1]) {
        Commute(Replay(disk, log, content, n - 1), KeyOf(log[k]), PageOf(content', log'[k].page),
                KeyOf(log[n - 1]), PageOf(content, log[n - 1].page));
      }
    }
  }

  lemma {:induction false} Commute(m: Image, a: Key, p: Page, b: Key, q: Page)
    requires a != b
    ensures m[a := p][b := q] == m[b := q][a := p]
  {
  }

  // ---------- sorting and merging is replaying ----------

  /** The image after the submissions reach the disk. */
  function Apply(disk: Image, submitted: seq<Entry>, content: map<nat, Page>): Image {
    if submitted == [] then disk
    else
      var e := submitted[|submitted| - 1];
      Apply(disk, submitted[..|submitted| - 1], content)[KeyOf(e) := PageOf(content, e.page)]
  }

  lemma {:induction false} ApplyMisses(disk: Image, sub: seq<Entry>, content: map<nat, Page>, key: Key)
    requires forall k | 0 <= k < |sub| :: KeyOf(sub[k]) != key
    ensures key in Apply(disk, sub, content) <==> key in disk
    ensures key in disk ==> Apply(disk, sub, content)[key] == disk[key]
  {
    if sub != [] {
      ApplyMisses(disk, sub[..|sub| - 1], content, key);
    }
  }

  lemma {:induction false} ApplyHits(disk: Image, sub: seq<Entry>, content: map<nat, Page>, m: nat)
    requires m < |sub| && forall k | m < k < |sub| :: KeyOf(sub[k]) != KeyOf(sub[m])
    ensures KeyOf(sub[m]) in Apply(disk, sub, content)
    ensures Apply(disk, sub, content)[KeyOf(sub[m])] == PageOf(content, sub[m].page)
  {
    if m < |sub| - 1 {
      ApplyHits(disk, sub[..|sub| - 1], content, m);
    }
  }

  /** Later entries of a page carry higher keys. */
  ghost predicate Ascending(log: seq<Entry>, n: nat)
    requires n <= |log|
  {
    forall i, j | 0 <= i < j < n && Data(log[i]) && Data(log[j]) && KeyOf(log[i]) == KeyOf(log[j]) ::
        log[i].pgi < log[j].pgi
  }

  /** Same entries in another order. */
  ghost predicate Reordered(log: seq<Entry>, w: seq<Entry>) {
    |log| == |w| && multiset(log) == multiset(w) && forall e :: e in log <==> e in w
  }

  /** The last entry of a page in the log is the one submitted for it. */
  lemma {:induction false} LastIsSubmitted(log: seq<Entry>, w: seq<Entry>, k: nat) returns (m: nat)
    requires Reordered(log, w) && InOrder(w) && WellFormed(w) && Ascending(log, |log|)
    requires k < |log| && Data(log[k]) && forall j | k < j < |log| && Data(log[j]) :: KeyOf(log[j]) != KeyOf(log[k])
    ensures var sub := Submitted(w, 0, |w|);
            m < |sub| && KeyOf(sub[m]) == KeyOf(log[k]) && sub[m].page == log[k].page
            && forall j | 0 <= j < |sub| && j != m :: KeyOf(sub[j]) != KeyOf(log[k])
  {
    hide Submitted, InOrder, WellFormed, Merged, Survives, MergedLength;
    var sub := Submitted(w, 0, |w|);
    assert log[k] in log;
    var i :| 0 <= i < |w| && w[i] == log[k];
    m := OneSubmissionPerPage(w, i);
    assert sub[m] in sub;
    var s := SubmittedAre(w, |w|, sub[m]);
    MergedFields(w, s);
    SurvivesData(w, s);
    assert w[s] in w;
    var j :| 0 <= j < |log| && log[j] == w[s];
    assert j <= k;
    assert w[i].pgi <= sub[m].pgi;
  }

  lemma {:induction false} LastOf(log: seq<Entry>, n: nat, key: Key) returns (k: nat)
    requires n <= |log| && exists j :: 0 <= j < n && Data(log[j]) && KeyOf(log[j]) == key
    ensures k < n && Data(log[k]) && KeyOf(log[k]) == key
    ensures forall j | k < j < n && Data(log[j]) :: KeyOf(log[j]) != key
  {
    if Data(log[n - 1]) && KeyOf(log[n - 1]) == key {
      k := n - 1;
    } else {
      k := LastOf(log, n - 1, key);
    }
  }

  /** Nothing submitted for a page without entries. */
  lemma {:induction false} NoneIsSubmitted(log: seq<Entry>, w: seq<Entry>, key: Key)
    requires Reordered(log, w) && forall k | 0 <= k < |log| && Data(log[k]) :: KeyOf(log[k]) != key
    ensures forall m | 0 <= m < |Submitted(w, 0, |w|)| :: KeyOf(Submitted(w, 0, |w|)[m]) != key
  {
    hide Submitted, Merged, Survives;
    var sub := Submitted(w, 0, |w|);
    forall m | 0 <= m < |sub|
      ensures KeyOf(sub[m]) != key
    {
      assert sub[m] in sub;
      var s := SubmittedAre(w, |w|, sub[m]);
      MergedFields(w, s);
      SurvivesData(w, s);
      assert w[s] in w;
      var j :| 0 <= j < |log| && log[j] == w[s];
    }
  }

  lemma {:induction false} SameAt(disk: Image, log: seq<Entry>, w: seq<Entry>, content: map<nat, Page>, key: Key)
    requires Reordered(log, w) && InOrder(w) && WellFormed(w) && Ascending(log, |log|)
    ensures var a, b := Apply(disk, Submitted(w, 0, |w|), content), Replay(disk, log, content, |log|);
            (key in a <==> key in b) && (key in a ==> a[key] == b[key])
  {
    hide Submitted, InOrder, WellFormed, Reordered, Ascending, Apply, Replay;
    var sub := Submitted(w, 0, |w|);
    if j :| 0 <= j < |log| && Data(log[j]) && KeyOf(log[j]) == key {
      var k := LastOf(log, |log|, key);
      var m := LastIsSubmitted(log, w, k);
      ApplyHits(disk, sub, content, m);
      ReplayHits(disk, log, content, |log|, k);
    } else {
      NoneIsSubmitted(log, w, key);
      ApplyMisses(disk, sub, content, key);
      ReplayMisses(disk, log, content, |log|, key);
    }
  }

  /** Sorting a stretch, coalescing it and submitting what is left is the same as replaying it in log order. */
  lemma {:induction false} FlushIsReplay(disk: Image, log: seq<Entry>, w: seq<Entry>, content: map<nat, Page>)
    requires Reordered(log, w) && InOrder(w) && WellFormed(w) && Ascending(log, |log|)
    ensures Apply(disk, Submitted(w, 0, |w|), content) == Replay(disk, log, content, |log|)
  {
    hide Submitted, InOrder, WellFormed, Reordered, Ascending, Apply, Replay;
    var a, b := Apply(disk, Submitted(w, 0, |w|), content), Replay(disk, log, content, |log|);
    forall key: Key
      ensures (key in a <==> key in b) && (key in a ==> a[key] == b[key])
    {
      SameAt(disk, log, w, content, key);
    }
  }

  // ---------- when a page cannot be written ----------

  /** What reaches the disk of the entries handed over. */
  function Passed(sub: seq<Entry>, fails: Entry -> bool): seq<Entry> {
    if sub == [] then []
    else Passed(sub[..|sub| - 1], fails) + if fails(sub[|sub| - 1]) then [] else [sub[|sub| - 1]]
  }

  /** The entry handed over for the page is one that fails. */
  ghost predicate Lost(sub: seq<Entry>, fails: Entry -> bool, key: Key) {
    exists m :: 0 <= m < |sub| && KeyOf(sub[m]) == key && fails(sub[m])
  }

  ghost predicate SameFor(key: Key, a: Image, b: Image) {
    (key in a <==> key in b) && (key in a ==> a[key] == b[key])
  }

  ghost predicate OnePerPage(sub: seq<Entry>) {
    forall i, j | 0 <= i < j < |sub| :: KeyOf(sub[i]) != KeyOf(sub[j])
  }

  lemma {:induction false} PassedAll(sub: seq<Entry>, fails: Entry -> bool)
    requires forall e :: !fails(e)
    ensures Passed(sub, fails) == sub
  {
    if sub != [] {
      hide Passed;
      var most, e := sub[..|sub| - 1], sub[|sub| - 1];
      assert sub == most + [e] && !fails(e);
      PassedAll(most, fails);
      PassedLast(most, e, fails);
    }
  }

  lemma {:induction false} ApplyLast(disk: Image, sub: seq<Entry>, e: Entry, content: map<nat, Page>)
    ensures Apply(disk, sub + [e], content) == Apply(disk, sub, content)[KeyOf(e) := PageOf(content, e.page)]
  {
    assert (sub + [e])[..|sub|] == sub;
  }

  /** Pages handed over once each: what fails leaves its page on the disk as it was, and only that. */
  lemma {:induction false} ApplyPassed(disk: Image, sub: seq<Entry>, content: map<nat, Page>, fails: Entry -> bool,
                                       key: Key)
    requires OnePerPage(sub)
    ensures SameFor(key, Apply(disk, Passed(sub, fails), content),
                    if Lost(sub, fails, key) then disk else Apply(disk, sub, content))
  {
    hide Apply, Passed, KeyOf, PageOf;
    if sub == [] {
      NonePassed(disk, content, fails);
    } else {
      var most, e := sub[..|sub| - 1], sub[|sub| - 1];
      assert sub == most + [e];
      ApplyPassed(disk, most, content, fails, key);
      PassedLast(most, e, fails);
      ApplyLast(disk, most, e, content);
      ApplyLast(disk, Passed(most, fails), e, content);
      LostLast(most, e, fails, key);
      if KeyOf(e) == key {
        assert forall k | 0 <= k < |most| :: KeyOf(most[k]) == KeyOf(sub[k]) != key;
        ApplyMisses(disk, most, content, key);
        assert !Lost(most, fails, key);
      }
    }
  }

  lemma {:induction false} NonePassed(disk: Image, content: map<nat, Page>, fails: Entry -> bool)
    ensures Passed([], fails) == [] && Apply(disk, [], content) == disk
  {
  }

  lemma {:induction false} PassedLast(sub: seq<Entry>, e: Entry, fails: Entry -> bool)
    ensures Passed(sub + [e], fails) == if fails(e) then Passed(sub, fails) else Passed(sub, fails) + [e]
  {
    assert (sub + [e])[..|sub|] == sub;
  }

  lemma {:induction false} LostLast(sub: seq<Entry>, e: Entry, fails: Entry -> bool, key: Key)
    ensures Lost(sub + [e], fails, key) <==> Lost(sub, fails, key) || (KeyOf(e) == key && fails(e))
  {
    hide KeyOf;
    var all := sub + [e];
    if Lost(sub, fails, key) {
      var m :| 0 <= m < |sub| && KeyOf(sub[m]) == key && fails(sub[m]);
      assert all[m] == sub[m];
    }
    assert all[|sub|] == e;
  }

  /** The submissions of a sorted stretch are such pages. */
  lemma {:induction false} SubmittedOnce(w: seq<Entry>)
    requires InOrder(w) && WellFormed(w)
    ensures OnePerPage(Submitted(w, 0, |w|))
  {
    hide Submitted, InOrder, WellFormed;
    var sub := Submitted(w, 0, |w|);
    forall i, j | 0 <= i < j < |sub|
      ensures KeyOf(sub[i]) != KeyOf(sub[j])
    {
      SubmittedDistinct(w, |w|, i, j);
    }
  }
}
