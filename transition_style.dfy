/** The arithmetic and list handling behind a frame's transition
    declaration: duration scaling by the playback speed (`_computeDuration`)
    and the merge of the element's earlier `transition-*` lists with the new
    entries (`_setTransitionStyle`). */
module TransitionStyle {
  import opened Js

  /** Whether a duration text carries `ms`; anything else counts as
      seconds. */
  datatype Unit = Seconds | Milliseconds

  function ToMilliseconds(amount: real, unit: Unit): real
  {
    if unit == Seconds then amount * 1000.0 else amount
  }

  /** `_computeDuration`: the duration in milliseconds (the `ms` suffix is
      implied), divided by a positive speed and multiplied by the magnitude
      of a negative one. */
  function ComputeDuration(amount: real, unit: Unit, speed: real): (ms: real)
    requires speed != 0.0
    ensures speed > 0.0 ==> ms * speed == ToMilliseconds(amount, unit)
    ensures speed < 0.0 ==> ms == ToMilliseconds(amount, unit) * -speed
  {
    var base := ToMilliseconds(amount, unit);
    if speed < 0.0 then base * speed * -1.0 else base / speed
  }

  /** `1s` at speed 2 is `500ms`; at speed -2 it is `2000ms`. */
  lemma SpeedExamples()
    ensures ComputeDuration(1.0, Seconds, 2.0) == 500.0
    ensures ComputeDuration(1.0, Seconds, -2.0) == 2000.0
    ensures ComputeDuration(250.0, Milliseconds, 1.0) == 250.0
  {
  }

  /** The two signs are not mirror images: at speed `-s` a duration comes
      out `s * s` times longer than at speed `s`. */
  lemma NegativeSpeedAsymmetry(amount: real, unit: Unit, s: real)
    requires s > 0.0
    ensures ComputeDuration(amount, unit, -s) == ComputeDuration(amount, unit, s) * s * s
  {
    var base := ToMilliseconds(amount, unit);
    assert ComputeDuration(amount, unit, s) * s == base;
  }

  /** A faster positive speed never lengthens a non-negative duration. */
  lemma FasterIsShorter(amount: real, unit: Unit, s1: real, s2: real)
    requires amount >= 0.0 && 0.0 < s1 <= s2
    ensures ComputeDuration(amount, unit, s2) <= ComputeDuration(amount, unit, s1)
  {
    var base := ToMilliseconds(amount, unit);
    var d1 := ComputeDuration(amount, unit, s1);
    var d2 := ComputeDuration(amount, unit, s2);
    assert d1 * s1 == base && d2 * s2 == base;
    assert d2 >= 0.0;
    assert d2 * (s2 - s1) >= 0.0;
    assert (d1 - d2) * s1 == d2 * (s2 - s1);
  }

  function Reverse(s: seq<string>): (r: seq<string>)
    ensures |r| == |s|
  {
    if s == [] then [] else Reverse(s[1..]) + [s[0]]
  }

  /** The entries of an earlier declaration; an empty one has none. */
  function OldEntries(earlier: string): seq<string>
  {
    if earlier == "" then [] else Split(earlier, ',')
  }

  /** The index of the first literal `all`, or the length. */
  function AllIndex(parts: seq<string>): (j: nat)
    ensures j <= |parts|
    ensures j < |parts| ==> parts[j] == "all"
    ensures forall m :: 0 <= m < j ==> parts[m] != "all"
    ensures j < |parts| <==> "all" in parts
  {
    if parts == [] then 0 else if parts[0] == "all" then 0 else 1 + AllIndex(parts[1..])
  }

  /** The entries of each earlier declaration. */
  function AllEntries(olds: seq<string>): (r: seq<seq<string>>)
    ensures |r| == |olds|
    ensures forall i :: 0 <= i < |olds| ==> r[i] == OldEntries(olds[i])
  {
    if olds == [] then [] else [OldEntries(olds[0])] + AllEntries(olds[1..])
  }

  /** One merged list, and whether an `all` entry ended the merge. */
  datatype Merged = Merged(list: seq<string>, stop: bool)

  /** The earlier entries before any `all`, in reverse order (each one was
      put at the front), ahead of the new entries. */
  function MergeOne(parts: seq<string>, added: seq<string>): Merged
  {
    var j := AllIndex(parts);
    Merged(Reverse(parts[..j]) + added, j < |parts|)
  }

  /** A merged list ends with exactly its new entries, and the merge stops
      exactly when the earlier entries hold `all`. */
  lemma MergeOneShape(parts: seq<string>, added: seq<string>)
    ensures var m := MergeOne(parts, added);
      |m.list| >= |added| && m.list[|m.list| - |added|..] == added &&
      (m.stop <==> "all" in parts)
  {
    var r := Reverse(parts[..AllIndex(parts)]);
    assert (r + added)[|r|..] == added;
  }

  /** The four lists of a declaration (property, duration, timing, delay),
      given the earlier entries of each, merged in order from list `i` on;
      an `all` entry leaves every later list new-only. */
  function MergeFrom(entries: seq<seq<string>>, news: seq<seq<string>>, i: nat): seq<seq<string>>
    requires |entries| == |news| && i <= |news|
    decreases |news| - i
  {
    if i == |news| then []
    else
      var m := MergeOne(entries[i], news[i]);
      [m.list] + (if m.stop then news[i + 1..] else MergeFrom(entries, news, i + 1))
  }

  /** What `_setTransitionStyle` writes, list by list, given the earlier
      value of each `transition-*` style ("" where it has none). */
  function Merge(olds: seq<string>, news: seq<seq<string>>): seq<seq<string>>
    requires |olds| == |news|
  {
    MergeFrom(AllEntries(olds), news, 0)
  }

  /** The inner loop of `_setTransitionStyle`: each earlier entry, up to
      the first `all`, is put at the front of the new entries. */
  method PrependEarlier(earlier: string, added: seq<string>) returns (list: seq<string>, stop: bool)
    ensures Merged(list, stop) == MergeOne(OldEntries(earlier), added)
  {
    list := added;
    stop := false;
    var parts := OldEntries(earlier);
    var k := 0;
    while k < |parts|
      invariant 0 <= k <= |parts|
      invariant list == Reverse(parts[..k]) + added
      invariant forall m :: 0 <= m < k ==> parts[m] != "all"
    {
      if parts[k] == "all" {
        stop := true;
        return;
      }
      ReverseSnoc(parts[..k], parts[k]);
      assert parts[..k + 1] == parts[..k] + [parts[k]];
      list := [parts[k]] + list;
      k := k + 1;
    }
    assert parts[..k] == parts;
  }

  /** The merging loops of `_setTransitionStyle`, given the earlier value of
      each `transition-*` style ("" where it has none) and the new
      entries; the result is what it writes, list by list, joined with
      `, `. */
  method MergeTransitionLists(olds: seq<string>, news: seq<seq<string>>) returns (lists: seq<seq<string>>)
    requires |olds| == |news|
    ensures lists == Merge(olds, news)
  {
    ghost var entries := AllEntries(olds);
    lists := [];
    var i := 0;
    while i < |news|
      invariant 0 <= i <= |news|
      invariant lists + MergeFrom(entries, news, i) == Merge(olds, news)
    {
      var list, stop := PrependEarlier(olds[i], news[i]);
      MergeFromStep(entries, news, i, list, stop);
      if stop {
        lists := lists + [list] + news[i + 1..];
        return;
      }
      lists := lists + [list];
      i := i + 1;
    }
  }

  lemma MergeFromStep(entries: seq<seq<string>>, news: seq<seq<string>>, i: nat, list: seq<string>, stop: bool)
    requires |entries| == |news| && i < |news|
    requires Merged(list, stop) == MergeOne(entries[i], news[i])
    ensures MergeFrom(entries, news, i) == [list] + (if stop then news[i + 1..] else MergeFrom(entries, news, i + 1))
  {
  }

  lemma {:induction false} ReverseSnoc(s: seq<string>, x: string)
    ensures Reverse(s + [x]) == [x] + Reverse(s)
  {
    if s != [] {
      assert (s + [x])[1..] == s[1..] + [x];
      ReverseSnoc(s[1..], x);
    } else {
      assert [x][1..] == [];
    }
  }

  /** The index of the first list, from `from` on, whose earlier entries
      hold `all`, or the number of lists. */
  function FirstAll(entries: seq<seq<string>>, from: nat): (j: nat)
    requires from <= |entries|
    ensures from <= j <= |entries|
    ensures j < |entries| ==> "all" in entries[j]
    ensures forall m :: from <= m < j ==> "all" !in entries[m]
    decreases |entries| - from
  {
    if from == |entries| then from
    else if "all" in entries[from] then from
    else FirstAll(entries, from + 1)
  }

  lemma {:induction false} FirstAllIs(entries: seq<seq<string>>, from: nat, k: nat)
    requires from <= k <= |entries|
    requires forall m :: from <= m < k ==> "all" !in entries[m]
    requires k < |entries| ==> "all" in entries[k]
    ensures FirstAll(entries, from) == k
    decreases k - from
  {
    if from < k {
      FirstAllIs(entries, from + 1, k);
    }
  }

  /** List `l` of a merge from `from` on is the merge of that list up to
      the first list holding `all`, and its new entries alone after it. */
  lemma {:induction false} MergeAt(entries: seq<seq<string>>, news: seq<seq<string>>, from: nat, l: nat)
    requires |entries| == |news| && from <= l < |news|
    ensures |MergeFrom(entries, news, from)| == |news| - from
    ensures MergeFrom(entries, news, from)[l - from] ==
      if l <= FirstAll(entries, from) then MergeOne(entries[l], news[l]).list else news[l]
    decreases |news| - from
  {
    var m := MergeOne(entries[from], news[from]);
    MergeOneShape(entries[from], news[from]);
    if "all" in entries[from] {
      assert FirstAll(entries, from) == from;
      assert MergeFrom(entries, news, from) == [m.list] + news[from + 1..];
    } else {
      assert FirstAll(entries, from) == FirstAll(entries, from + 1);
      assert MergeFrom(entries, news, from) == [m.list] + MergeFrom(entries, news, from + 1);
      if from + 1 < |news| {
        MergeAt(entries, news, from + 1, if l == from then from + 1 else l);
      }
    }
  }

  /** There are as many lists as before, and every merged list ends with
      exactly its new entries. */
  lemma MergeKeepsNewEntries(olds: seq<string>, news: seq<seq<string>>, i: nat)
    requires |olds| == |news| && i < |news|
    ensures |Merge(olds, news)| == |news|
    ensures var l := Merge(olds, news)[i];
      |l| >= |news[i]| && l[|l| - |news[i]|..] == news[i]
  {
    var entries := AllEntries(olds);
    MergeAt(entries, news, 0, i);
    var l := MergeFrom(entries, news, 0)[i];
    if i <= FirstAll(entries, 0) {
      MergeOneShape(entries[i], news[i]);
      assert l == MergeOne(entries[i], news[i]).list;
    } else {
      assert l == news[i];
      assert news[i][0..] == news[i];
    }
  }

  /** Without any `all` entry, every list is its earlier entries reversed
      ahead of its new ones. */
  lemma MergeWithoutAll(olds: seq<string>, news: seq<seq<string>>, i: nat)
    requires |olds| == |news| && i < |news|
    requires forall l :: 0 <= l < |olds| ==> "all" !in OldEntries(olds[l])
    ensures |Merge(olds, news)| == |news|
    ensures Merge(olds, news)[i] == Reverse(OldEntries(olds[i])) + news[i]
  {
    var entries := AllEntries(olds);
    forall m | 0 <= m < |entries| ensures "all" !in entries[m] {
      assert entries[m] == OldEntries(olds[m]);
    }
    FirstAllIs(entries, 0, |entries|);
    MergeAt(entries, news, 0, i);
    var parts := entries[i];
    assert parts == OldEntries(olds[i]);
    assert parts[..AllIndex(parts)] == parts;
    assert MergeFrom(entries, news, 0)[i] == MergeOne(parts, news[i]).list;
  }

  /** The first `all` entry, in the list at index `i`, stops the merge: that
      list keeps only the earlier entries before it, and every later list is
      left with its new entries alone. */
  lemma MergeStopsAtAll(olds: seq<string>, news: seq<seq<string>>, i: nat, l: nat)
    requires |olds| == |news| && i <= l < |news|
    requires forall m :: 0 <= m < i ==> "all" !in OldEntries(olds[m])
    requires "all" in OldEntries(olds[i])
    ensures |Merge(olds, news)| == |news|
    ensures var parts := OldEntries(olds[i]);
      Merge(olds, news)[l] == if l == i then Reverse(parts[..AllIndex(parts)]) + news[i] else news[l]
  {
    var entries := AllEntries(olds);
    forall m | 0 <= m < i ensures "all" !in entries[m] {
      assert entries[m] == OldEntries(olds[m]);
    }
    FirstAllIs(entries, 0, i);
    MergeAt(entries, news, 0, l);
    var parts := entries[i];
    assert parts == OldEntries(olds[i]);
    if l == i {
      assert MergeFrom(entries, news, 0)[l] == MergeOne(parts, news[i]).list;
    }
  }
}
