/**
  A Python `dict[str, str]` as the list of its items in insertion order:
  assigning to a present key keeps its position, a new key goes last, and
  `del` removes the entry. `Dict` is the object the Flask middleware
  mutates; the functions are its specification.
*/
module PyDict {
  import opened Wrappers

  type Pairs = seq<(string, string)>

  function Keys(p: Pairs): (ks: seq<string>)
    ensures |ks| == |p|
    ensures forall i :: 0 <= i < |p| ==> ks[i] == p[i].0
  {
    seq(|p|, i requires 0 <= i < |p| => p[i].0)
  }

  predicate UniqueKeys(p: Pairs)
  {
    forall i, j :: 0 <= i < j < |p| ==> p[i].0 != p[j].0
  }

  /** The index of the first entry for `k`, or `|p|` when there is none. */
  function Find(p: Pairs, k: string): (i: nat)
    ensures i <= |p|
    ensures i < |p| ==> p[i].0 == k
    ensures forall j :: 0 <= j < i ==> p[j].0 != k
  {
    if |p| == 0 then 0
    else if p[0].0 == k then 0
    else 1 + Find(p[1..], k)
  }

  /** `d.get(k)`. */
  function Lookup(p: Pairs, k: string): Option<string>
  {
    var i := Find(p, k);
    if i < |p| then Some(p[i].1) else None
  }

  /** A key has a value exactly when it is one of the keys. */
  lemma LookupPresent(p: Pairs, k: string)
    ensures Lookup(p, k).Some? <==> k in Keys(p)
  {
    if k in Keys(p) {
      var x :| 0 <= x < |p| && Keys(p)[x] == k;
      assert Find(p, k) <= x;
    }
  }

  /** `d[k] = v`. */
  function Put(p: Pairs, k: string, v: string): Pairs
  {
    var i := Find(p, k);
    if i < |p| then p[i := (k, v)] else p + [(k, v)]
  }

  /** `del d[k]` (a no-op when `k` is absent, which the caller rules out). */
  function Remove(p: Pairs, k: string): Pairs
  {
    var i := Find(p, k);
    if i < |p| then p[..i] + p[i + 1..] else p
  }

  /** `dict(items)`: each pair is assigned in turn. */
  function FromItems(items: Pairs): Pairs
  {
    if |items| == 0 then []
    else Put(FromItems(items[..|items| - 1]), items[|items| - 1].0, items[|items| - 1].1)
  }

  /** The value of the last pair for `k`, the reference meaning of `dict(items)[k]`. */
  function LastValue(items: Pairs, k: string): Option<string>
  {
    if |items| == 0 then None
    else if items[|items| - 1].0 == k then Some(items[|items| - 1].1)
    else LastValue(items[..|items| - 1], k)
  }

  /** The keys in order of first occurrence. */
  function Dedup(ks: seq<string>): seq<string>
  {
    if |ks| == 0 then []
    else if ks[|ks| - 1] in ks[..|ks| - 1] then Dedup(ks[..|ks| - 1])
    else Dedup(ks[..|ks| - 1]) + [ks[|ks| - 1]]
  }

  /** The keys with every `k` taken out. */
  function Without(ks: seq<string>, k: string): seq<string>
  {
    if |ks| == 0 then []
    else if ks[|ks| - 1] == k then Without(ks[..|ks| - 1], k)
    else Without(ks[..|ks| - 1], k) + [ks[|ks| - 1]]
  }

  lemma {:induction false} DedupMembers(ks: seq<string>)
    ensures forall x :: x in Dedup(ks) <==> x in ks
  {
    if |ks| > 0 {
      DedupMembers(ks[..|ks| - 1]);
      assert ks == ks[..|ks| - 1] + [ks[|ks| - 1]];
    }
  }

  lemma {:induction false} WithoutMembers(ks: seq<string>, k: string)
    ensures forall x :: x in Without(ks, k) <==> x in ks && x != k
  {
    if |ks| > 0 {
      WithoutMembers(ks[..|ks| - 1], k);
      assert ks == ks[..|ks| - 1] + [ks[|ks| - 1]];
    }
  }

  /** Assigning a key keeps keys unique, gives `k` its new value, changes no
      other key, and puts a new key last. */
  lemma PutSpec(p: Pairs, k: string, v: string)
    requires UniqueKeys(p)
    ensures UniqueKeys(Put(p, k, v))
    ensures Lookup(Put(p, k, v), k) == Some(v)
    ensures forall k' :: k' != k ==> Lookup(Put(p, k, v), k') == Lookup(p, k')
    ensures Keys(Put(p, k, v)) == if k in Keys(p) then Keys(p) else Keys(p) + [k]
  {
    var q := Put(p, k, v);
    var i := Find(p, k);
    forall k' | k' != k
      ensures Lookup(q, k') == Lookup(p, k')
    {
      var j := Find(p, k');
      if j < |p| {
        assert Find(q, k') == j by { FindAt(q, k', j); }
      } else if i < |p| {
        assert Find(q, k') == |q| by { FindAt(q, k', |q|); }
      } else {
        assert Find(q, k') == |q| by { FindAt(q, k', |q|); }
      }
    }
    FindAt(q, k, i);
    if i == |p| {
      assert k !in Keys(p);
      assert Keys(q) == Keys(p) + [k];
    } else {
      assert k in Keys(p);
    }
  }

  /** `Find` is pinned down by its position and what precedes it. */
  lemma FindAt(p: Pairs, k: string, j: nat)
    requires j <= |p|
    requires j < |p| ==> p[j].0 == k
    requires j == |p| ==> forall x :: 0 <= x < |p| ==> p[x].0 != k
    requires forall x :: 0 <= x < j ==> p[x].0 != k
    ensures Find(p, k) == j
  {
  }

  /** Deleting a key keeps keys unique, makes `k` absent, changes no other
      key and keeps the order of the rest. */
  lemma RemoveSpec(p: Pairs, k: string)
    requires UniqueKeys(p)
    ensures UniqueKeys(Remove(p, k))
    ensures Lookup(Remove(p, k), k) == None
    ensures forall k' :: k' != k ==> Lookup(Remove(p, k), k') == Lookup(p, k')
    ensures Keys(Remove(p, k)) == Without(Keys(p), k)
  {
    var i := Find(p, k);
    if i < |p| {
      RemoveAt(p, k, i);
      RemoveKeys(p, k, i);
    } else {
      WithoutAbsent(Keys(p), k);
    }
  }

  lemma RemoveAt(p: Pairs, k: string, i: nat)
    requires UniqueKeys(p) && i == Find(p, k) && i < |p|
    ensures UniqueKeys(Remove(p, k))
    ensures Lookup(Remove(p, k), k) == None
    ensures forall k' :: k' != k ==> Lookup(Remove(p, k), k') == Lookup(p, k')
  {
    RemoveIndex(p, k, i);
    FindAt(Remove(p, k), k, |Remove(p, k)|);
    forall k' | k' != k
      ensures Lookup(Remove(p, k), k') == Lookup(p, k')
    {
      RemoveOther(p, k, i, k');
    }
  }

  lemma RemoveIndex(p: Pairs, k: string, i: nat)
    requires i == Find(p, k) && i < |p|
    ensures |Remove(p, k)| == |p| - 1
    ensures forall x :: 0 <= x < |p| - 1 ==> Remove(p, k)[x] == if x < i then p[x] else p[x + 1]
  {
    var r := p[..i] + p[i + 1..];
    assert Remove(p, k) == r;
    forall x | 0 <= x < |p| - 1
      ensures r[x] == if x < i then p[x] else p[x + 1]
    {
      if x >= i {
        assert r[x] == p[i + 1..][x - i];
      }
    }
  }

  lemma RemoveOther(p: Pairs, k: string, i: nat, k': string)
    requires UniqueKeys(p) && i == Find(p, k) && i < |p| && k' != k
    ensures Lookup(Remove(p, k), k') == Lookup(p, k')
  {
    var q := Remove(p, k);
    RemoveIndex(p, k, i);
    var j := Find(p, k');
    if j < i {
      FindAt(q, k', j);
    } else if j < |p| {
      FindAt(q, k', j - 1);
    } else {
      FindAt(q, k', |q|);
    }
  }

  lemma RemoveKeys(p: Pairs, k: string, i: nat)
    requires UniqueKeys(p) && i == Find(p, k) && i < |p|
    ensures Keys(Remove(p, k)) == Without(Keys(p), k)
  {
    WithoutUnique(Keys(p), k, i);
    assert Keys(Remove(p, k)) == Keys(p)[..i] + Keys(p)[i + 1..];
  }

  lemma {:induction false} WithoutAbsent(ks: seq<string>, k: string)
    requires k !in ks
    ensures Without(ks, k) == ks
  {
    if |ks| > 0 {
      WithoutAbsent(ks[..|ks| - 1], k);
      assert ks == ks[..|ks| - 1] + [ks[|ks| - 1]];
    }
  }

  /** Taking out a key that occurs once, at `i`, is cutting position `i`. */
  lemma {:induction false} WithoutUnique(ks: seq<string>, k: string, i: nat)
    requires i < |ks| && ks[i] == k
    requires forall x :: 0 <= x < |ks| && x != i ==> ks[x] != k
    ensures Without(ks, k) == ks[..i] + ks[i + 1..]
  {
    var n := |ks|;
    if i == n - 1 {
      WithoutAbsent(ks[..n - 1], k);
    } else {
      WithoutUnique(ks[..n - 1], k, i);
      assert ks[..n - 1][..i] + ks[..n - 1][i + 1..] + [ks[n - 1]] == ks[..i] + ks[i + 1..];
    }
  }

  /** `dict(items)` has unique keys in order of first occurrence, and each
      key holds the value of its last pair. */
  lemma {:induction false} FromItemsSpec(items: Pairs)
    ensures UniqueKeys(FromItems(items))
    ensures forall k :: Lookup(FromItems(items), k) == LastValue(items, k)
    ensures Keys(FromItems(items)) == Dedup(Keys(items))
  {
    if |items| > 0 {
      var n := |items|;
      var init := items[..n - 1];
      FromItemsSpec(init);
      var p := FromItems(init);
      PutSpec(p, items[n - 1].0, items[n - 1].1);
      assert Keys(items) == Keys(init) + [items[n - 1].0];
      assert Keys(items)[..n - 1] == Keys(init);
      DedupMembers(Keys(init));
    }
  }

  /** The mutable dict. Its invariant: each key appears once. */
  class Dict {
    var entries: Pairs

    ghost predicate Valid()
      reads this
    {
      UniqueKeys(entries)
    }

    /** `dict(items)`. */
    constructor FromPairs(items: Pairs)
      ensures Valid() && entries == FromItems(items)
    {
      entries := [];
      new;
      for n := 0 to |items|
        invariant entries == FromItems(items[..n]) && Valid()
      {
        assert items[..n + 1][..n] == items[..n];
        Set(items[n].0, items[n].1);
      }
      assert items[..|items|] == items;
    }

    /** `k in d`. */
    function Contains(k: string): (b: bool)
      reads this
      ensures b <==> k in Keys(entries)
    {
      Find(entries, k) < |entries|
    }

    /** `d[k] = v`. */
    method Set(k: string, v: string)
      requires Valid()
      modifies this
      ensures Valid() && entries == Put(old(entries), k, v)
    {
      PutSpec(entries, k, v);
      var i := Find(entries, k);
      if i < |entries| {
        entries := entries[i := (k, v)];
      } else {
        entries := entries + [(k, v)];
      }
    }

    /** `del d[k]`; Python raises KeyError when `k` is absent. */
    method Delete(k: string)
      requires Valid() && Contains(k)
      modifies this
      ensures Valid() && entries == Remove(old(entries), k)
    {
      RemoveSpec(entries, k);
      var i := Find(entries, k);
      entries := entries[..i] + entries[i + 1..];
    }

    /** `d[k]`; Python raises KeyError when `k` is absent. */
    function Get(k: string): (v: string)
      reads this
      requires Valid() && Contains(k)
      ensures Lookup(entries, k) == Some(v)
    {
      entries[Find(entries, k)].1
    }
  }
}
