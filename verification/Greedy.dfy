/** Keeping, one after the other, the items that still fit into a budget: a text in braces, one character
    between two items. */
module Greedy {
  function Total<T>(len: T -> nat, items: seq<T>): nat {
    if items == [] then 0 else Total(len, items[..|items| - 1]) + len(items[|items| - 1])
  }

  /** What is charged for the items: the braces, the items, one character between two. */
  function Used<T>(len: T -> nat, items: seq<T>): nat {
    2 + Total(len, items) + (if items == [] then 0 else |items| - 1)
  }

  /** What one more item costs. */
  function Cost<T>(len: T -> nat, items: seq<T>, item: T): nat {
    len(item) + (if items == [] then 0 else 1)
  }

  /** Of the first n items, one by one, what still fits beside what was kept before it. */
  function KeptOf<T>(len: T -> nat, items: seq<T>, n: nat, limit: nat): seq<T>
    requires n <= |items|
  {
    if n == 0 then []
    else
      var kept := KeptOf(len, items, n - 1, limit);
      if Used(len, kept) + Cost(len, kept, items[n - 1]) <= limit then kept + [items[n - 1]] else kept
  }

  function Kept<T>(len: T -> nat, items: seq<T>, limit: nat): seq<T> {
    KeptOf(len, items, |items|, limit)
  }

  lemma TotalWith<T>(len: T -> nat, items: seq<T>, item: T)
    ensures Total(len, items + [item]) == Total(len, items) + len(item)
  {
    var all := items + [item];
    assert all[..|all| - 1] == items && all[|all| - 1] == item;
  }

  lemma UsedWith<T>(len: T -> nat, items: seq<T>, item: T)
    ensures Used(len, items + [item]) == Used(len, items) + Cost(len, items, item)
  {
    TotalWith(len, items, item);
  }

  function Mapped<T>(write: T -> T, items: seq<T>): seq<T> {
    seq(|items|, i requires 0 <= i < |items| => write(items[i]))
  }

  lemma MappedWith<T>(write: T -> T, items: seq<T>, item: T)
    ensures Mapped(write, items + [item]) == Mapped(write, items) + [write(item)]
  {
  }

  /** The loop: keep an item, as write gives it, if it still fits, or else note that something was dropped. */
  method KeepWhatFits<T>(len: T -> nat, write: T -> T, items: seq<T>, limit: nat)
    returns (result: seq<T>, truncated: bool)
    ensures result == Mapped(write, Kept(len, items, limit))
    ensures truncated <==> |Kept(len, items, limit)| < |items|
  {
    result, truncated := [], false;
    var used := 2;
    ghost var kept: seq<T> := [];
    for i := 0 to |items|
      invariant kept == KeptOf(len, items, i, limit)
      invariant result == Mapped(write, kept)
      invariant used == Used(len, kept)
      invariant |kept| <= i && (truncated <==> |kept| < i)
    {
      var cost := len(items[i]) + if |result| > 0 then 1 else 0;
      UsedWith(len, kept, items[i]);
      MappedWith(write, kept, items[i]);
      if used + cost > limit {
        truncated := true;
      } else {
        result := result + [write(items[i])];
        used := used + cost;
        kept := kept + [items[i]];
      }
    }
  }

  lemma {:induction false} KeptOfFits<T>(len: T -> nat, items: seq<T>, n: nat, limit: nat)
    requires n <= |items|
    ensures KeptOf(len, items, n, limit) != [] ==> Used(len, KeptOf(len, items, n, limit)) <= limit
    ensures |KeptOf(len, items, n, limit)| <= n
    ensures |KeptOf(len, items, n, limit)| == n ==> KeptOf(len, items, n, limit) == items[..n]
    ensures forall e :: e in KeptOf(len, items, n, limit) ==> e in items
  {
    if n > 0 {
      KeptOfFits(len, items, n - 1, limit);
      UsedWith(len, KeptOf(len, items, n - 1, limit), items[n - 1]);
      assert items[..n] == items[..n - 1] + [items[n - 1]];
    }
  }

  /** What is kept fits, and is everything exactly if it is as many. */
  lemma KeptFits<T>(len: T -> nat, items: seq<T>, limit: nat)
    ensures Kept(len, items, limit) != [] ==> Used(len, Kept(len, items, limit)) <= limit
    ensures |Kept(len, items, limit)| <= |items|
    ensures |Kept(len, items, limit)| == |items| <==> Kept(len, items, limit) == items
    ensures forall e :: e in Kept(len, items, limit) ==> e in items
  {
    KeptOfFits(len, items, |items|, limit);
    assert items[..|items|] == items;
  }

  lemma {:induction false} KeptOnlyGrows<T>(len: T -> nat, items: seq<T>, i: nat, n: nat, limit: nat)
    requires i <= n <= |items|
    ensures forall e :: e in KeptOf(len, items, i, limit) ==> e in KeptOf(len, items, n, limit)
    ensures Used(len, KeptOf(len, items, i, limit)) <= Used(len, KeptOf(len, items, n, limit))
    decreases n
  {
    if i < n {
      UsedWith(len, KeptOf(len, items, n - 1, limit), items[n - 1]);
      KeptOnlyGrows(len, items, i, n - 1, limit);
    }
  }

  /** The items are kept greedily, in their order: whatever was dropped was too long for what was left when
      its turn came, and would be too long for what is left at the end. */
  lemma KeptIsMaximal<T>(len: T -> nat, items: seq<T>, limit: nat, i: nat)
    requires i < |items| && items[i] !in Kept(len, items, limit)
    ensures Used(len, KeptOf(len, items, i, limit) + [items[i]]) > limit
    ensures Used(len, Kept(len, items, limit) + [items[i]]) > limit
  {
    var before, kept := KeptOf(len, items, i, limit), Kept(len, items, limit);
    KeptOnlyGrows(len, items, i, |items|, limit);
    KeptOnlyGrows(len, items, i + 1, |items|, limit);
    assert items[i] in before + [items[i]];
    assert KeptOf(len, items, i + 1, limit) == before;
    UsedWith(len, before, items[i]);
    UsedWith(len, kept, items[i]);
    assert Cost(len, before, items[i]) <= Cost(len, kept, items[i]) by {
      if before != [] {
        assert before[0] in kept;
      }
    }
  }

  lemma SubsetIsSmaller<T>(a: set<T>, b: set<T>)
    requires a <= b
    ensures |a| <= |b|
  {
    assert b == a + (b - a);
  }

  lemma {:induction false} SetOfDistinct<T>(all: seq<T>)
    requires forall i, j | 0 <= i < j < |all| :: all[i] != all[j]
    ensures |set e | e in all| == |all|
  {
    if all != [] {
      SetOfDistinct(all[1..]);
      assert (set e | e in all) == {all[0]} + (set e | e in all[1..]);
    }
  }

  lemma {:induction false} SetOfAny<T>(all: seq<T>)
    ensures |set e | e in all| <= |all|
  {
    if all != [] {
      SetOfAny(all[1..]);
      assert (set e | e in all) == {all[0]} + (set e | e in all[1..]);
    }
  }

  /** Something was dropped exactly if what was kept is not as many. */
  lemma DroppedIffFewer<T>(len: T -> nat, items: seq<T>, limit: nat)
    requires forall i, j | 0 <= i < j < |items| :: items[i] != items[j]
    ensures (exists e :: e in items && e !in Kept(len, items, limit)) <==> |Kept(len, items, limit)| < |items|
  {
    var kept := Kept(len, items, limit);
    KeptFits(len, items, limit);
    var a, k := (set e | e in items), (set e | e in kept);
    SetOfDistinct(items);
    SetOfAny(kept);
    if |kept| < |items| {
      if a <= k {
        SubsetIsSmaller(a, k);
      }
      var e :| e in a && e !in k;
      assert e in items && e !in kept;
    }
  }
}
