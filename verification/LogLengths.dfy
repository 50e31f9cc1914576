/** How much of each page a flush hands over: the greatest length any of the page's entries was written with. */
module LogLengths {
  import opened Basics
  import opened LogEntry
  import opened MergeFlush
  import opened LogImage
  import opened LogKinds

  /** The pages among the entries, each with the greatest length. */
  function Greatest(kinds: seq<Kind>, lens: seq<int>): map<Key, int>
    requires |kinds| == |lens|
  {
    if kinds == [] then map[]
    else
      var n := |kinds| - 1;
      var m := Greatest(kinds[..n], lens[..n]);
      if kinds[n].OfInode? then m
      else if kinds[n].key in m && m[kinds[n].key] >= lens[n] then m
      else m[kinds[n].key := lens[n]]
  }

  lemma {:induction false} GreatestHas(kinds: seq<Kind>, lens: seq<int>, j: nat, key: Key)
    requires j < |kinds| == |lens| && kinds[j] == OfPage(key)
    ensures key in Greatest(kinds, lens) && lens[j] <= Greatest(kinds, lens)[key]
  {
    var n := |kinds| - 1;
    if j < n {
      GreatestHas(kinds[..n], lens[..n], j, key);
    }
  }

  lemma {:induction false} GreatestFrom(kinds: seq<Kind>, lens: seq<int>, key: Key) returns (j: nat)
    requires |kinds| == |lens| && key in Greatest(kinds, lens)
    ensures j < |kinds| && kinds[j] == OfPage(key) && lens[j] == Greatest(kinds, lens)[key]
  {
    var n := |kinds| - 1;
    var m := Greatest(kinds[..n], lens[..n]);
    if key in m && Greatest(kinds, lens)[key] == m[key] {
      j := GreatestFrom(kinds[..n], lens[..n], key);
    } else {
      j := n;
    }
  }

  /** What is handed over for each page. */
  function Lengths(sub: seq<Entry>): map<Key, int> {
    if sub == [] then map[]
    else Lengths(sub[..|sub| - 1])[KeyOf(sub[|sub| - 1]) := sub[|sub| - 1].Length()]
  }

  lemma {:induction false} LengthsHas(sub: seq<Entry>, m: nat)
    requires OnePerPage(sub) && m < |sub|
    ensures KeyOf(sub[m]) in Lengths(sub) && Lengths(sub)[KeyOf(sub[m])] == sub[m].Length()
  {
    hide KeyOf;
    if m < |sub| - 1 {
      LengthsHas(sub[..|sub| - 1], m);
    }
  }

  lemma {:induction false} LengthsFrom(sub: seq<Entry>, key: Key) returns (m: nat)
    requires key in Lengths(sub)
    ensures m < |sub| && KeyOf(sub[m]) == key
  {
    if KeyOf(sub[|sub| - 1]) == key {
      m := |sub| - 1;
    } else {
      m := LengthsFrom(sub[..|sub| - 1], key);
    }
  }

  /** Every page of the stretch is handed over with the greatest length of its entries, and no other page is. */
  lemma {:induction false} HandedLengths(log: seq<Entry>, w: seq<Entry>)
    requires Reordered(log, w) && InOrder(w) && WellFormed(w) && forall k | 0 <= k < |log| :: log[k].Valid()
    ensures Lengths(Submitted(w, 0, |w|)) == Greatest(Kinds(log), Lens(log))
  {
    hide Submitted, InOrder, WellFormed, Lengths, Greatest, Reordered, Kinds, Lens;
    var a, b := Lengths(Submitted(w, 0, |w|)), Greatest(Kinds(log), Lens(log));
    forall key: Key
      ensures (key in a <==> key in b) && (key in a ==> a[key] == b[key])
    {
      if key in b {
        PageHanded(log, w, key);
      }
      if key in a {
        OnlyPagesHanded(log, w, key);
      }
    }
  }

  lemma {:induction false} PageHanded(log: seq<Entry>, w: seq<Entry>, key: Key)
    requires Reordered(log, w) && InOrder(w) && WellFormed(w) && forall k | 0 <= k < |log| :: log[k].Valid()
    requires key in Greatest(Kinds(log), Lens(log))
    ensures key in Lengths(Submitted(w, 0, |w|))
    ensures Lengths(Submitted(w, 0, |w|))[key] == Greatest(Kinds(log), Lens(log))[key]
  {
    hide Submitted, InOrder, WellFormed, Lengths, Greatest;
    var sub, kinds, lens := Submitted(w, 0, |w|), Kinds(log), Lens(log);
    var k := GreatestFrom(kinds, lens, key);
    assert log[k] in w;
    var i :| 0 <= i < |w| && w[i] == log[k];
    var m := OneSubmissionPerPage(w, i);
    SubmittedOnce(w);
    LengthsHas(sub, m);
    var j :| 0 <= j < |w| && Data(w[j]) && SamePage(w[j], w[i]) && w[j].Length() == sub[m].Length();
    assert w[j] in log;
    var l :| 0 <= l < |log| && log[l] == w[j];
    GreatestHas(kinds, lens, l, key);
  }

  lemma {:induction false} OnlyPagesHanded(log: seq<Entry>, w: seq<Entry>, key: Key)
    requires Reordered(log, w) && key in Lengths(Submitted(w, 0, |w|))
    ensures key in Greatest(Kinds(log), Lens(log))
  {
    hide Submitted, Lengths, Greatest, Merged, Survives;
    var sub := Submitted(w, 0, |w|);
    var m := LengthsFrom(sub, key);
    assert sub[m] in sub;
    var k := SubmittedAre(w, |w|, sub[m]);
    MergedFields(w, k);
    SurvivesData(w, k);
    assert w[k] in log;
    var l :| 0 <= l < |log| && log[l] == w[k];
    GreatestHas(Kinds(log), Lens(log), l, key);
  }
}
