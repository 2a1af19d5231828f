// The two index-threaded lists of src/bufferpool, seen as values: the free list threaded
// through an int vector, and the playout list threaded through `prev`/`next` indices.
// Each predicate relates the raw vectors to the sequence of slots they encode; each lemma
// says what one group of assignments of the C code does to that sequence.
module Chains {
  datatype PoItem = PoItem(pktlen: int, prev: int, next: int)

  ghost predicate NoDup(l: seq<nat>) {
    forall i, j :: 0 <= i < j < |l| ==> l[i] != l[j]
  }

  // Element k of l, or the list delimiter -1 outside it.
  function At(l: seq<nat>, k: int): int {
    if 0 <= k < |l| then l[k] else -1
  }

  function InsertAt(l: seq<nat>, p: nat, s: nat): (m: seq<nat>)
    requires p <= |l|
    ensures |m| == |l| + 1
  {
    l[..p] + [s] + l[p..]
  }

  function RemoveAt(l: seq<nat>, p: nat): (m: seq<nat>)
    requires p < |l|
    ensures |m| == |l| - 1
  {
    l[..p] + l[p + 1..]
  }

  // ---- free list ----

  ghost predicate FreeChain(freelist: seq<int>, head: int, free: seq<nat>) {
    && NoDup(free)
    && head == At(free, 0)
    && (forall k :: 0 <= k < |free| ==> free[k] < |freelist| && freelist[free[k]] == At(free, k + 1))
  }

  lemma PopFree(freelist: seq<int>, head: int, free: seq<nat>)
    requires FreeChain(freelist, head, free) && free != []
    ensures 0 <= head < |freelist| && head == free[0]
    ensures FreeChain(freelist, freelist[head], free[1..])
  {
    var rest := free[1..];
    forall k | 0 <= k < |rest|
      ensures rest[k] < |freelist| && freelist[rest[k]] == At(rest, k + 1)
    {
      assert rest[k] == free[k + 1];
    }
  }

  lemma PushFree(freelist: seq<int>, head: int, free: seq<nat>, s: nat)
    requires FreeChain(freelist, head, free) && s < |freelist| && s !in free
    ensures FreeChain(freelist[s := head], s, [s] + free)
  {
    var more := [s] + free;
    forall k | 0 <= k < |more|
      ensures more[k] < |freelist| && freelist[s := head][more[k]] == At(more, k + 1)
    {
      if k > 0 { assert more[k] == free[k - 1]; }
    }
  }

  // ---- playout list ----

  // Position k of l is encoded by its slot's two links.
  ghost predicate LinkedAt(items: seq<PoItem>, l: seq<nat>, k: nat)
    requires k < |l|
  {
    l[k] < |items| && items[l[k]].next == At(l, k + 1) && items[l[k]].prev == At(l, k - 1)
  }

  ghost predicate Linked(items: seq<PoItem>, head: int, tail: int, l: seq<nat>) {
    && NoDup(l)
    && head == At(l, 0)
    && tail == At(l, |l| - 1)
    && (forall k :: 0 <= k < |l| ==> LinkedAt(items, l, k))
  }

  lemma LinkedInside(items: seq<PoItem>, head: int, tail: int, l: seq<nat>)
    requires Linked(items, head, tail, l)
    ensures forall k :: 0 <= k < |l| ==> l[k] < |items|
  {
    forall k | 0 <= k < |l| ensures l[k] < |items| { assert LinkedAt(items, l, k); }
  }

  lemma InsertFacts(l: seq<nat>, p: nat, s: nat)
    requires p <= |l| && s !in l && NoDup(l)
    ensures var m := InsertAt(l, p, s);
            && NoDup(m) && |m| == |l| + 1
            && forall k {:trigger At(m, k)} :: -1 <= k <= |m| ==>
                 At(m, k) == if k < p then At(l, k) else if k == p then s else At(l, k - 1)
  {
  }

  lemma RemoveFacts(l: seq<nat>, p: nat)
    requires p < |l| && NoDup(l)
    ensures var m := RemoveAt(l, p);
            && NoDup(m) && |m| == |l| - 1 && l[p] !in m
            && forall k {:trigger At(m, k)} :: -1 <= k <= |m| ==>
                 At(m, k) == if k < p then At(l, k) else At(l, k + 1)
  {
  }

  // `b` is `a` with slot s linked in at position p of l.
  ghost predicate Spliced(a: seq<PoItem>, b: seq<PoItem>, l: seq<nat>, p: nat, s: nat)
    requires p <= |l|
  {
    && |a| == |b| && s < |a|
    && b[s].prev == At(l, p - 1) && b[s].next == At(l, p)
    && forall k :: 0 <= k < |l| && l[k] < |a| ==>
         && b[l[k]].next == (if k == p - 1 then s else a[l[k]].next)
         && b[l[k]].prev == (if k == p then s else a[l[k]].prev)
  }

  lemma SpliceLinks(a: seq<PoItem>, b: seq<PoItem>, head: int, tail: int, l: seq<nat>, p: nat, s: nat)
    requires Linked(a, head, tail, l) && p <= |l| && s !in l
    requires Spliced(a, b, l, p, s)
    ensures Linked(b, if p == 0 then s else head, if p == |l| then s else tail, InsertAt(l, p, s))
  {
    var m := InsertAt(l, p, s);
    InsertFacts(l, p, s);
    forall k: nat | k < |m| ensures LinkedAt(b, m, k) { SpliceLinkAt(a, b, l, p, s, k); }
    assert At(m, 0) == if p == 0 then s else At(l, 0);
    assert At(m, |l|) == if p == |l| then s else At(l, |l| - 1);
  }

  lemma SpliceLinkAt(a: seq<PoItem>, b: seq<PoItem>, l: seq<nat>, p: nat, s: nat, k: nat)
    requires NoDup(l) && p <= |l| && s !in l && k <= |l|
    requires forall j :: 0 <= j < |l| ==> LinkedAt(a, l, j)
    requires Spliced(a, b, l, p, s)
    ensures LinkedAt(b, InsertAt(l, p, s), k)
  {
    var m := InsertAt(l, p, s);
    InsertFacts(l, p, s);
    assert m[k] == At(m, k);
    var j := if k < p then k else k - 1;
    if k != p { assert LinkedAt(a, l, j) && m[k] == l[j]; }
    assert At(m, k + 1) == if k + 1 < p then At(l, k + 1) else if k + 1 == p then s else At(l, k);
    assert At(m, k - 1) == if k - 1 < p then At(l, k - 1) else if k - 1 == p then s else At(l, k - 2);
  }

  // `b` is `a` with the neighbours of position p of l joined over it.
  ghost predicate Bridged(a: seq<PoItem>, b: seq<PoItem>, l: seq<nat>, p: nat)
    requires p < |l|
  {
    && |a| == |b|
    && forall k :: 0 <= k < |l| && l[k] < |a| && k != p ==>
         && b[l[k]].next == (if k == p - 1 then At(l, p + 1) else a[l[k]].next)
         && b[l[k]].prev == (if k == p + 1 then At(l, p - 1) else a[l[k]].prev)
  }

  lemma BridgeLinks(a: seq<PoItem>, b: seq<PoItem>, head: int, tail: int, l: seq<nat>, p: nat)
    requires Linked(a, head, tail, l) && p < |l|
    requires Bridged(a, b, l, p)
    ensures Linked(b, if p == 0 then At(l, 1) else head,
                   if p == |l| - 1 then At(l, p - 1) else tail, RemoveAt(l, p))
  {
    var m := RemoveAt(l, p);
    RemoveFacts(l, p);
    forall k: nat | k < |m| ensures LinkedAt(b, m, k) { BridgeLinkAt(a, b, l, p, k); }
    assert At(m, 0) == if p == 0 then At(l, 1) else At(l, 0);
    assert At(m, |l| - 2) == if |l| - 2 < p then At(l, |l| - 2) else At(l, |l| - 1);
  }

  lemma BridgeLinkAt(a: seq<PoItem>, b: seq<PoItem>, l: seq<nat>, p: nat, k: nat)
    requires NoDup(l) && p < |l| && k < |l| - 1
    requires forall j :: 0 <= j < |l| ==> LinkedAt(a, l, j)
    requires Bridged(a, b, l, p)
    ensures LinkedAt(b, RemoveAt(l, p), k)
  {
    var m := RemoveAt(l, p);
    RemoveFacts(l, p);
    var j := if k < p then k else k + 1;
    assert m[k] == At(m, k);
    assert LinkedAt(a, l, j) && m[k] == l[j];
    assert At(m, k + 1) == if k + 1 < p then At(l, k + 1) else At(l, k + 2);
    assert At(m, k - 1) == if k - 1 < p then At(l, k - 1) else At(l, k);
  }
}
