/** A queue in a ring of slots: n elements from slot k on. */
module Rings {
  import opened Modular

  function From<T>(items: seq<T>, k: nat, n: nat): (r: seq<T>)
    requires items != []
    ensures |r| == n && forall i | 0 <= i < n :: r[i] == items[(k + i) % |items|]
    decreases n
  {
    if n == 0 then [] else [items[k % |items|]] + From(items, k + 1, n - 1)
  }

  /** Storing behind the last element appends. */
  lemma StoreAppends<T>(items: seq<T>, k: nat, n: nat, item: T)
    requires n < |items|
    ensures From(items[(k + n) % |items| := item], k, n + 1) == From(items, k, n) + [item]
  {
    var after := items[(k + n) % |items| := item];
    forall i | 0 <= i < n ensures From(after, k, n + 1)[i] == From(items, k, n)[i] {
      ModApart(k + i, k + n, |items|);
    }
  }

  lemma SameStart<T>(items: seq<T>, k: nat, n: nat)
    requires items != []
    ensures From(items, k % |items|, n) == From(items, k, n)
  {
    forall i | 0 <= i < n ensures From(items, k % |items|, n)[i] == From(items, k, n)[i] {
      ModAdd(k, i, |items|);
    }
  }

  /** The slots as indices: the one behind f, and the one behind the last element. */
  lemma NextSlot(f: nat, n: nat, size: nat)
    requires 0 < n <= size && f < size
    ensures f % size == f && (f + 1) % size == if f + 1 == size then 0 else f + 1
    ensures ((f + 1) % size + (n - 1)) % size == (f + n) % size
  {
    ModUnique(f, size, 0, f);
    ModNext(f, size);
    ModAdd(f + 1, n - 1, size);
  }

  lemma HeadTaken<T>(items: seq<T>, f: nat, n: nat)
    requires 0 < n <= |items| && f < |items| && f % |items| == f
    ensures [items[f]] + From(items, (f + 1) % |items|, n - 1) == From(items, f, n)
  {
    SameStart(items, f + 1, n - 1);
    assert From(items, f, n) == [items[f % |items|]] + From(items, f + 1, n - 1);
  }
}
