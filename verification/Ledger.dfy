// Where every slot of a pool is, as a state machine over the pool's operations: on the free
// list, in one source's playout list, or held by the receive loop between bpget and
// poadd/bpfree.
module Ledger {
  import opened Chains
  import opened Bufferpool

  datatype Ledger = Ledger(size: nat, flcount: int, free: seq<nat>, lists: seq<seq<nat>>, held: set<nat>)

  datatype Op =
    | Get                                      // bpget
    | Free(slot: nat)                          // bpfree of a held slot
    | Add(source: nat, slot: nat, at: nat)     // poadd of a held slot
    | Remove(source: nat, at: nat)             // bprmv
    | Clear(source: nat)                       // rtp_rm_all_pkts
    | NewSource                                // poinit for a new synchronization source

  // bpinit
  function Start(): Ledger {
    Ledger(BP_SLOT_NUM, 0, Range(0, BP_SLOT_NUM), [], {})
  }

  // The slots an operation may name: only a held one is freed or added, only a linked one
  // is removed.
  predicate Enabled(l: Ledger, op: Op) {
    match op
    case Get => true
    case Free(s) => s in l.held
    case Add(k, s, p) => s in l.held && k < |l.lists| && p <= |l.lists[k]|
    case Remove(k, p) => k < |l.lists| && p < |l.lists[k]|
    case Clear(k) => k < |l.lists|
    case NewSource => true
  }

  function Step(l: Ledger, op: Op): Ledger
    requires Enabled(l, op)
  {
    match op
    case Get =>
      if l.free != [] then
        l.(free := l.free[1..], held := l.held + {l.free[0]}, flcount := l.flcount + 1)
      else if l.size >= BP_MAX_SIZE then l
      else
        var grown := l.size + BP_SLOT_NUM;
        l.(size := grown, free := Range(l.size, grown)[1..], held := l.held + {l.size}, flcount := l.flcount + 1)
    case Free(s) =>
      l.(free := [s] + l.free, held := l.held - {s}, flcount := l.flcount - 1)
    case Add(k, s, p) =>
      l.(lists := l.lists[k := InsertAt(l.lists[k], p, s)], held := l.held - {s})
    case Remove(k, p) =>
      l.(lists := l.lists[k := RemoveAt(l.lists[k], p)], free := [l.lists[k][p]] + l.free, flcount := l.flcount - 1)
    case Clear(k) =>
      l.(lists := l.lists[k := []], free := l.lists[k] + l.free, flcount := l.flcount - |l.lists[k]|)
    case NewSource =>
      l.(lists := l.lists + [[]])
  }

  // ---- every slot counted with the number of places it is in ----

  function Linked(lists: seq<seq<nat>>): multiset<nat> {
    if lists == [] then multiset{} else multiset(lists[0]) + Linked(lists[1..])
  }

  function Places(l: Ledger): multiset<nat> {
    multiset(l.free) + Linked(l.lists) + multiset(l.held)
  }

  // Each slot below `size` is in exactly one place, nothing else is anywhere, and flcount
  // counts the slots that are not free.
  ghost predicate Conserved(l: Ledger) {
    && (forall s: nat :: Places(l)[s] == if s < l.size then 1 else 0)
    && l.flcount == l.size - |l.free|
  }

  lemma {:induction false} LinkedUpdate(lists: seq<seq<nat>>, k: nat, x: seq<nat>, s: nat)
    requires k < |lists|
    ensures Linked(lists[k := x])[s] + multiset(lists[k])[s] == Linked(lists)[s] + multiset(x)[s]
  {
    if k == 0 {
      assert lists[0 := x][1..] == lists[1..];
    } else {
      LinkedUpdate(lists[1..], k - 1, x, s);
      assert lists[k := x][1..] == lists[1..][k - 1 := x];
    }
  }

  lemma PlacesUpdate(l: Ledger, k: nat, x: seq<nat>, free: seq<nat>, held: set<nat>)
    requires k < |l.lists|
    requires multiset(x) + multiset(free) + multiset(held) == multiset(l.lists[k]) + multiset(l.free) + multiset(l.held)
    ensures multiset(free) + Linked(l.lists[k := x]) + multiset(held) == Places(l)
  {
    forall s: nat ensures (multiset(free) + Linked(l.lists[k := x]) + multiset(held))[s] == Places(l)[s] {
      LinkedUpdate(l.lists, k, x, s);
      var given := multiset(x) + multiset(free) + multiset(held);
      assert given[s] == multiset(x)[s] + multiset(free)[s] + multiset(held)[s];
      assert given[s] == multiset(l.lists[k])[s] + multiset(l.free)[s] + multiset(l.held)[s];
    }
  }

  lemma {:induction false} LinkedAppend(lists: seq<seq<nat>>, x: seq<nat>)
    ensures Linked(lists + [x]) == Linked(lists) + multiset(x)
  {
    if lists == [] {
      assert lists + [x] == [x] && [x][1..] == [];
    } else {
      LinkedAppend(lists[1..], x);
      assert (lists + [x])[1..] == lists[1..] + [x];
    }
  }

  lemma RangeCounts(start: nat, end: nat)
    requires start <= end
    ensures forall s: nat :: multiset(Range(start, end))[s] == if start <= s < end then 1 else 0
    decreases end
  {
    if start < end {
      RangeCounts(start, end - 1);
      assert Range(start, end) == Range(start, end - 1) + [end - 1];
    } else {
      assert Range(start, end) == [];
    }
  }

  lemma SplitHead(s: seq<nat>)
    requires s != []
    ensures multiset(s) == multiset{s[0]} + multiset(s[1..])
  {
    assert s == [s[0]] + s[1..];
  }

  lemma SplitAt(l: seq<nat>, p: nat)
    requires p <= |l|
    ensures multiset(l) == multiset(l[..p]) + multiset(l[p..])
  {
    assert l == l[..p] + l[p..];
  }

  // What each operation does to the places of the slots.
  lemma GetPlaces(l: Ledger)
    requires Conserved(l) && l.free != []
    ensures Places(Step(l, Get)) == Places(l)
  {
    SplitHead(l.free);
    assert Places(l)[l.free[0]] == 1;
    assert multiset(l.held + {l.free[0]}) == multiset(l.held) + multiset{l.free[0]};
  }

  lemma GrowPlaces(l: Ledger)
    requires Conserved(l) && l.free == [] && l.size < BP_MAX_SIZE
    ensures Places(Step(l, Get)) == Places(l) + multiset(Range(l.size, l.size + BP_SLOT_NUM))
  {
    assert Places(l)[l.size] == 0;
    SplitHead(Range(l.size, l.size + BP_SLOT_NUM));
    assert multiset(l.held + {l.size}) == multiset(l.held) + multiset{l.size};
  }

  lemma GetConserves(l: Ledger)
    requires Conserved(l)
    ensures Conserved(Step(l, Get))
  {
    if l.free != [] {
      GetPlaces(l);
    } else if l.size < BP_MAX_SIZE {
      GrowPlaces(l);
      RangeCounts(l.size, l.size + BP_SLOT_NUM);
      forall s: nat ensures Places(Step(l, Get))[s] == if s < l.size + BP_SLOT_NUM then 1 else 0 {
        assert Places(l)[s] == if s < l.size then 1 else 0;
      }
    }
  }

  lemma FreePlaces(l: Ledger, s: nat)
    requires s in l.held
    ensures Places(Step(l, Free(s))) == Places(l)
  {
    assert multiset(l.held) == multiset(l.held - {s}) + multiset{s};
  }

  lemma AddPlaces(l: Ledger, k: nat, s: nat, p: nat)
    requires s in l.held && k < |l.lists| && p <= |l.lists[k]|
    ensures Places(Step(l, Add(k, s, p))) == Places(l)
  {
    var list := l.lists[k];
    assert multiset(l.held) == multiset(l.held - {s}) + multiset{s};
    SplitAt(list, p);
    assert multiset(InsertAt(list, p, s)) == multiset(list) + multiset{s};
    PlacesUpdate(l, k, InsertAt(list, p, s), l.free, l.held - {s});
  }

  lemma RemovePlaces(l: Ledger, k: nat, p: nat)
    requires k < |l.lists| && p < |l.lists[k]|
    ensures Places(Step(l, Remove(k, p))) == Places(l)
  {
    var list := l.lists[k];
    SplitAt(list, p);
    SplitHead(list[p..]);
    assert list[p..][1..] == list[p + 1..];
    PlacesUpdate(l, k, RemoveAt(list, p), [list[p]] + l.free, l.held);
  }

  lemma ClearPlaces(l: Ledger, k: nat)
    requires k < |l.lists|
    ensures Places(Step(l, Clear(k))) == Places(l)
  {
    PlacesUpdate(l, k, [], l.lists[k] + l.free, l.held);
  }

  lemma StepConserves(l: Ledger, op: Op)
    requires Conserved(l) && Enabled(l, op)
    ensures Conserved(Step(l, op))
  {
    match op
    case Get => GetConserves(l);
    case Free(s) => FreePlaces(l, s);
    case Add(k, s, p) => AddPlaces(l, k, s, p);
    case Remove(k, p) => RemovePlaces(l, k, p);
    case Clear(k) => ClearPlaces(l, k);
    case NewSource =>
      LinkedAppend(l.lists, []);
      assert Places(Step(l, op)) == Places(l);
  }

  // The state when rtp_rm_all_pkts has emptied source k down to its first n slots.
  function Cleared(l: Ledger, k: nat, n: nat): Ledger
    requires k < |l.lists| && n <= |l.lists[k]|
  {
    var list := l.lists[k];
    l.(lists := l.lists[k := list[..n]], free := list[n..] + l.free, flcount := l.flcount - (|list| - n))
  }

  lemma ClearedEnds(l: Ledger, k: nat)
    requires k < |l.lists|
    ensures Cleared(l, k, |l.lists[k]|) == l && Cleared(l, k, 0) == Step(l, Clear(k))
  {
    var list := l.lists[k];
    assert list[..|list|] == list == list[0..] && list[|list|..] + l.free == l.free;
  }

  // Each round of its loop is one removal at the tail.
  lemma ClearedStep(l: Ledger, k: nat, n: nat)
    requires k < |l.lists| && n < |l.lists[k]|
    ensures Step(Cleared(l, k, n + 1), Remove(k, n)) == Cleared(l, k, n)
  {
    var list := l.lists[k];
    assert RemoveAt(list[..n + 1], n) == list[..n];
    assert [list[n]] + (list[n + 1..] + l.free) == list[n..] + l.free;
  }

  // ---- whole runs ----

  // The state after a run, if every operation was enabled when it was taken.
  function Run(l: Ledger, ops: seq<Op>): (r: (bool, Ledger))
    decreases |ops|
  {
    if ops == [] then (true, l)
    else if !Enabled(l, ops[0]) then (false, l)
    else Run(Step(l, ops[0]), ops[1..])
  }

  lemma StartConserved()
    ensures Conserved(Start())
  {
    RangeCounts(0, BP_SLOT_NUM);
  }

  lemma {:induction false} RunConserves(l: Ledger, ops: seq<Op>)
    requires Conserved(l) && Run(l, ops).0
    ensures Conserved(Run(l, ops).1)
    decreases |ops|
  {
    if ops != [] {
      StepConserves(l, ops[0]);
      RunConserves(Step(l, ops[0]), ops[1..]);
    }
  }

  // ---- what conservation says about one slot, and about the counters ----

  lemma {:induction false} LinkedMember(lists: seq<seq<nat>>, s: nat)
    ensures s in Linked(lists) <==> exists k :: 0 <= k < |lists| && s in lists[k]
    ensures Linked(lists)[s] <= 1 ==>
              && (forall k :: 0 <= k < |lists| ==> multiset(lists[k])[s] <= 1)
              && (forall j, k :: 0 <= j < k < |lists| ==> !(s in lists[j] && s in lists[k]))
  {
    if lists != [] {
      LinkedMember(lists[1..], s);
      assert forall k :: 1 <= k < |lists| ==> lists[k] == lists[1..][k - 1];
      if s in Linked(lists) && s !in lists[0] {
        var k :| 0 <= k < |lists[1..]| && s in lists[1..][k];
        assert s in lists[k + 1];
      }
    }
  }

  lemma OneOccurrence(l: seq<nat>, i: nat, j: nat)
    requires i < j < |l| && l[i] == l[j]
    ensures multiset(l)[l[i]] >= 2
  {
    SplitAt(l, j);
    assert l[i] in l[..j] && l[j] in l[j..];
  }

  // A slot is free, linked or held, and only one of these; it is in one list at most, once.
  lemma ExactlyOnePlace(l: Ledger, s: nat)
    requires Conserved(l)
    ensures s < l.size <==> s in l.free || s in l.held || exists k :: 0 <= k < |l.lists| && s in l.lists[k]
    ensures !(s in l.free && s in l.held)
    ensures forall k :: 0 <= k < |l.lists| && s in l.lists[k] ==> s !in l.free && s !in l.held
    ensures forall j, k :: 0 <= j < k < |l.lists| ==> !(s in l.lists[j] && s in l.lists[k])
  {
    LinkedMember(l.lists, s);
    assert Places(l)[s] == multiset(l.free)[s] + Linked(l.lists)[s] + multiset(l.held)[s];
    assert s in Places(l) <==> s < l.size;
  }

  lemma ListsHaveNoDuplicates(l: Ledger)
    requires Conserved(l)
    ensures NoDup(l.free) && forall k :: 0 <= k < |l.lists| ==> NoDup(l.lists[k])
  {
    forall i: nat, j: nat | i < j < |l.free| ensures l.free[i] != l.free[j] {
      assert Places(l)[l.free[i]] <= 1;
      if l.free[i] == l.free[j] { OneOccurrence(l.free, i, j); }
    }
    forall k: nat | k < |l.lists| ensures NoDup(l.lists[k]) {
      forall i: nat, j: nat | i < j < |l.lists[k]| ensures l.lists[k][i] != l.lists[k][j] {
        assert Places(l)[l.lists[k][i]] <= 1;
        LinkedMember(l.lists, l.lists[k][i]);
        if l.lists[k][i] == l.lists[k][j] { OneOccurrence(l.lists[k], i, j); }
      }
    }
  }

  function TotalLinked(lists: seq<seq<nat>>): nat {
    if lists == [] then 0 else |lists[0]| + TotalLinked(lists[1..])
  }

  lemma {:induction false} LinkedSize(lists: seq<seq<nat>>)
    ensures |Linked(lists)| == TotalLinked(lists)
  {
    if lists != [] { LinkedSize(lists[1..]); }
  }

  // Conservation in numbers: the used-slot counter is the sum of the list lengths (each
  // list's pocount) plus the slots held by the receiver.
  lemma CountersAgree(l: Ledger)
    requires Conserved(l)
    ensures l.flcount == TotalLinked(l.lists) + |l.held|
  {
    RangeCounts(0, l.size);
    assert Places(l) == multiset(Range(0, l.size));
    LinkedSize(l.lists);
    assert |multiset(l.free)| == |l.free| && |multiset(l.held)| == |l.held|;
  }
}
