/**
  A list whose entries are polled one after the other: the ready ones are taken out and leave an empty
  entry behind, and a second pass erases the empty entries.  The CPU executor's scheduler
  (src/Teide/CpuExecutor.cpp:25-35) and the queue's Flush (src/Teide/Queue.cpp:72-86) both work this way.
 */
module Polling {
  import opened Wrappers

  /** std::erase of the empty entries. */
  function Compact<T>(list: seq<Option<T>>): seq<Option<T>> {
    if list == [] then [] else (if list[0].None? then [] else [list[0]]) + Compact(list[1..])
  }

  /** The list after the pass has taken out every entry whose future was ready when it was polled. */
  function Emptied<T>(list: seq<Option<T>>, ready: seq<bool>): (r: seq<Option<T>>)
    requires |ready| == |list|
  {
    seq(|list|, i requires 0 <= i < |list| => if ready[i] then None else list[i])
  }

  /** What the pass takes out, in list order. */
  function Taken<T>(list: seq<Option<T>>, ready: seq<bool>): seq<T>
    requires |ready| == |list| && forall i :: 0 <= i < |list| ==> list[i].Some?
  {
    if list == [] then []
    else (if ready[0] then [list[0].value] else []) + Taken(list[1..], ready[1..])
  }

  /** What a list still holds. */
  function Values<T>(list: seq<Option<T>>): seq<T> {
    if list == [] then [] else (if list[0].Some? then [list[0].value] else []) + Values(list[1..])
  }

  lemma {:induction false} TakenExtends<T>(list: seq<Option<T>>, ready: seq<bool>, k: nat)
    requires |ready| == |list| && k < |list| && forall i :: 0 <= i < |list| ==> list[i].Some?
    ensures Taken(list[..k + 1], ready[..k + 1]) ==
            Taken(list[..k], ready[..k]) + if ready[k] then [list[k].value] else []
  {
    var l, r := list[..k + 1], ready[..k + 1];
    if k > 0 {
      assert l[1..] == list[1..][..k] && r[1..] == ready[1..][..k];
      assert list[..k][1..] == list[1..][..k - 1] && ready[..k][1..] == ready[1..][..k - 1];
      TakenExtends(list[1..], ready[1..], k - 1);
    } else {
      assert l[1..] == [] && list[..k] == [] && ready[..k] == [];
    }
  }

  lemma {:induction false} CompactExtends<T>(list: seq<Option<T>>, k: nat)
    requires k < |list|
    ensures Compact(list[..k + 1]) == Compact(list[..k]) + if list[k].Some? then [list[k]] else []
  {
    if k > 0 {
      assert list[..k + 1][1..] == list[1..][..k] && list[..k][1..] == list[1..][..k - 1];
      CompactExtends(list[1..], k - 1);
    } else {
      assert list[..1][1..] == [] && list[..0] == [];
    }
  }

  /** A pass loses no entry and copies none: each is either taken out or still in the list. */
  lemma {:induction false} ScanConserves<T>(list: seq<Option<T>>, ready: seq<bool>)
    requires |ready| == |list| && forall i :: 0 <= i < |list| ==> list[i].Some?
    ensures multiset(Taken(list, ready)) + multiset(Values(Compact(Emptied(list, ready)))) == multiset(Values(list))
  {
    if list != [] {
      ScanConserves(list[1..], ready[1..]);
      var kept := Compact(Emptied(list[1..], ready[1..]));
      var head, left := [list[0].value], Compact(Emptied(list, ready));
      assert Values(left) == if ready[0] then Values(kept) else head + Values(kept) by {
        CompactEmptied(list, ready);
        ValuesHead(list[0], kept);
        assert [] + kept == kept;
      }
      assert Values(list) == head + Values(list[1..]);
      Conserved(head, ready[0], Taken(list[1..], ready[1..]), Values(kept), Values(list[1..]));
    } else {
      assert Emptied(list, ready) == [];
    }
  }

  lemma {:induction false} CompactEmptied<T>(list: seq<Option<T>>, ready: seq<bool>)
    requires |ready| == |list| > 0 && list[0].Some?
    ensures Compact(Emptied(list, ready)) ==
            (if ready[0] then [] else [list[0]]) + Compact(Emptied(list[1..], ready[1..]))
  {
    assert Emptied(list, ready)[1..] == Emptied(list[1..], ready[1..]);
  }

  lemma {:induction false} Conserved<T>(head: seq<T>, first: bool, a: seq<T>, b: seq<T>, c: seq<T>)
    requires multiset(a) + multiset(b) == multiset(c)
    ensures multiset((if first then head else []) + a) + multiset(if first then b else head + b) == multiset(head + c)
  {
    if first {
      assert multiset(head + a) == multiset(head) + multiset(a);
    } else {
      assert [] + a == a;
    }
    assert multiset(head + c) == multiset(head) + multiset(c);
  }

  lemma {:induction false} ValuesHead<T>(entry: Option<T>, list: seq<Option<T>>)
    requires entry.Some?
    ensures Values([entry] + list) == [entry.value] + Values(list)
  {
    assert ([entry] + list)[1..] == list;
  }

  lemma {:induction false} CompactMembers<T>(list: seq<Option<T>>)
    ensures forall e :: e in Compact(list) <==> e in list && e.Some?
    ensures (forall i, j :: 0 <= i < j < |list| && list[i].Some? ==> list[i] != list[j]) ==>
              forall i, j :: 0 <= i < j < |Compact(list)| ==> Compact(list)[i] != Compact(list)[j]
  {
    if list != [] {
      CompactMembers(list[1..]);
      var rest := Compact(list[1..]);
      if list[0].Some? {
        assert Compact(list) == [list[0]] + rest;
        if forall i, j :: 0 <= i < j < |list| && list[i].Some? ==> list[i] != list[j] {
          assert list[0] !in list[1..];
          assert forall i, j :: 0 <= i < j < |list[1..]| && list[1..][i].Some? ==> list[1..][i] != list[1..][j];
        }
      } else {
        assert Compact(list) == rest;
        assert (forall i, j :: 0 <= i < j < |list| && list[i].Some? ==> list[i] != list[j]) ==>
          (forall i, j :: 0 <= i < j < |list[1..]| && list[1..][i].Some? ==> list[1..][i] != list[1..][j]);
      }
    }
  }

  // ---------------------------------------------------------------- order

  /** How many of the first `k` are marked. */
  function Rank(marked: seq<bool>, k: nat): nat
    requires k <= |marked|
  {
    if k == 0 then 0 else Rank(marked, k - 1) + if marked[k - 1] then 1 else 0
  }

  ghost predicate MarksFull<T>(list: seq<Option<T>>, marked: seq<bool>) {
    |marked| == |list| && forall i :: 0 <= i < |list| ==> marked[i] == list[i].Some?
  }

  lemma {:induction false} CompactPrefix<T>(list: seq<Option<T>>, marked: seq<bool>, n: nat)
    requires MarksFull(list, marked) && n <= |list|
    ensures |Compact(list[..n])| == Rank(marked, n) && Compact(list[..n]) <= Compact(list)
    decreases |list| - n
  {
    CompactLength(list, marked, n);
    if n < |list| {
      CompactPrefix(list, marked, n + 1);
      CompactExtends(list, n);
    } else {
      assert list[..n] == list;
    }
  }

  lemma {:induction false} CompactLength<T>(list: seq<Option<T>>, marked: seq<bool>, n: nat)
    requires MarksFull(list, marked) && n <= |list|
    ensures |Compact(list[..n])| == Rank(marked, n)
  {
    if n > 0 {
      CompactLength(list, marked, n - 1);
      CompactExtends(list, n - 1);
    }
  }

  /** Erasing puts each entry that is there behind exactly the earlier ones that are there, and adds nothing. */
  lemma {:induction false} CompactKeepsOrder<T>(list: seq<Option<T>>, marked: seq<bool>, k: nat)
    requires MarksFull(list, marked) && k < |list|
    ensures |Compact(list)| == Rank(marked, |list|)
    ensures marked[k] ==> Rank(marked, k) < |Compact(list)| && Compact(list)[Rank(marked, k)] == list[k]
  {
    CompactLength(list, marked, |list|);
    assert list[..|list|] == list;
    CompactPrefix(list, marked, k + 1);
    CompactLength(list, marked, k);
    CompactExtends(list, k);
  }

  lemma {:induction false} TakenPrefix<T>(list: seq<Option<T>>, ready: seq<bool>, n: nat)
    requires |ready| == |list| && (forall i :: 0 <= i < |list| ==> list[i].Some?) && n <= |list|
    ensures |Taken(list[..n], ready[..n])| == Rank(ready, n)
  {
    if n > 0 {
      TakenPrefix(list, ready, n - 1);
      TakenExtends(list, ready, n - 1);
    }
  }

  lemma {:induction false} TakenIsPrefix<T>(list: seq<Option<T>>, ready: seq<bool>, n: nat)
    requires |ready| == |list| && (forall i :: 0 <= i < |list| ==> list[i].Some?) && n <= |list|
    ensures Taken(list[..n], ready[..n]) <= Taken(list, ready)
    decreases |list| - n
  {
    if n < |list| {
      TakenIsPrefix(list, ready, n + 1);
      TakenExtends(list, ready, n);
    } else {
      assert list[..n] == list && ready[..n] == ready;
    }
  }

  /** A pass takes each ready entry behind exactly the ready ones ahead of it, and takes nothing else. */
  lemma {:induction false} TakenInOrder<T>(list: seq<Option<T>>, ready: seq<bool>, k: nat)
    requires |ready| == |list| && (forall i :: 0 <= i < |list| ==> list[i].Some?) && k < |list|
    ensures |Taken(list, ready)| == Rank(ready, |list|)
    ensures ready[k] ==> Rank(ready, k) < |Taken(list, ready)| && Taken(list, ready)[Rank(ready, k)] == list[k].value
  {
    TakenPrefix(list, ready, |list|);
    assert list[..|list|] == list && ready[..|list|] == ready;
    TakenPrefix(list, ready, k);
    TakenIsPrefix(list, ready, k + 1);
    TakenExtends(list, ready, k);
  }

  /** The erasing pass. */
  method EraseEmpty<T>(list: seq<Option<T>>) returns (kept: seq<Option<T>>)
    ensures kept == Compact(list)
    ensures forall j :: 0 <= j < |kept| ==> kept[j].Some?
  {
    kept := [];
    var i := 0;
    while i < |list|
      invariant 0 <= i <= |list| && kept == Compact(list[..i])
      invariant forall j :: 0 <= j < |kept| ==> kept[j].Some?
    {
      CompactExtends(list, i);
      if list[i].Some? {
        kept := kept + [list[i]];
      }
      i := i + 1;
    }
    assert list[..i] == list;
  }
}
