/** The expert cache of the host MoE provider: an LRU cache of expert weight pairs with
    an entry and a byte capacity, pins, keys protected during one prewarm call, and the
    identity of the tensor source the entries were read from. */
module ExpertCache {
  import opened Options
  import opened Sequences

  const EXPERTS: nat := 256
  const ROUTES: nat := 8
  const GATE_UP_BYTES: nat := 4194304
  const DOWN_BYTES: nat := 2097152
  const PAIR_BYTES: nat := 6291456
  const WORD: nat := 0x1_0000_0000_0000_0000
  const NEVER: nat := WORD - 1 // the largest tick, which evict_one starts its minimum at

  datatype Mode = FileMapping | ResidentDevice

  /** `TensorSourceIdentity`: `key` stands for the paths of a mapped source, or for the
      generation and callbacks of a resident one. Sources match when all fields agree. */
  datatype Source = Source(mode: Mode, key: nat, gateBegin: nat, downBegin: nat, layer: nat)

  /** `data` stands for the bytes that the entry's view or copy holds. */
  datatype Entry = Entry(generation: nat, layer: nat, expert: nat, lastUse: nat, pins: nat,
                         mode: Mode, key: nat, gateBegin: nat, downBegin: nat, data: int)

  /** The expert's slices start inside the 64-bit address range. */
  predicate Addressable(source: Source, expert: nat) {
    && source.gateBegin + expert * GATE_UP_BYTES < WORD
    && source.downBegin + expert * DOWN_BYTES < WORD
  }

  /** Expert ids that a prewarm can admit at all. */
  predicate Admissible(source: Source, expert: nat) {
    expert < EXPERTS && Addressable(source, expert)
  }

  /** `source_matches` and `resident_source_matches`. */
  predicate SourceMatches(entry: Entry, source: Source) {
    && entry.mode == source.mode
    && (source.mode.FileMapping? ==> entry.key == source.key)
    && entry.gateBegin == source.gateBegin + entry.expert * GATE_UP_BYTES
    && entry.downBegin == source.downBegin + entry.expert * DOWN_BYTES
  }

  predicate Holds(entries: seq<Entry>, expert: nat) {
    exists i :: 0 <= i < |entries| && entries[i].expert == expert
  }

  /** `is_protected`: all protected keys of one call share the request's layer. */
  predicate IsProtected(entry: Entry, layer: nat, protected: seq<nat>) {
    entry.layer == layer && entry.expert in protected
  }

  /** Unpinned, unprotected, and older than the largest tick. */
  predicate Evictable(entry: Entry, layer: nat, protected: seq<nat>) {
    entry.pins == 0 && !IsProtected(entry, layer, protected) && entry.lastUse < NEVER
  }

  function Remove<T>(s: seq<T>, i: nat): seq<T>
    requires i < |s|
  {
    s[..i] + s[i + 1..]
  }

  /** `v` is a least recently used evictable entry. */
  predicate IsVictim(entries: seq<Entry>, layer: nat, protected: seq<nat>, v: nat) {
    && v < |entries| && Evictable(entries[v], layer, protected)
    && forall i :: 0 <= i < |entries| && Evictable(entries[i], layer, protected) ==> entries[v].lastUse <= entries[i].lastUse
  }

  /** The distinct admissible experts of a request, in priority order. */
  function Priorities(source: Source, experts: seq<nat>): seq<nat> {
    if |experts| == 0 then []
    else
      var before, last := Priorities(source, experts[..|experts| - 1]), experts[|experts| - 1];
      if Admissible(source, last) && last !in before then before + [last] else before
  }

  function Take(s: seq<nat>, n: nat): seq<nat> {
    if |s| <= n then s else s[..n]
  }

  /** The priorities are the requested experts whose number is below 256 and whose slices start below
      2^64, each once. */
  lemma {:induction false} PrioritiesAre(source: Source, experts: seq<nat>, e: nat)
    ensures e in Priorities(source, experts) <==>
              && e in experts && e < 256
              && source.gateBegin + e * 4194304 < 0x1_0000_0000_0000_0000 && source.downBegin + e * 2097152 < 0x1_0000_0000_0000_0000
    ensures Distinct(Priorities(source, experts))
  {
    if |experts| > 0 {
      var n := |experts| - 1;
      PrioritiesAre(source, experts[..n], e);
      assert experts == experts[..n] + [experts[n]];
    }
  }

  /** They keep the order in which the request names them first. */
  lemma {:induction false} PrioritiesInOrder(source: Source, experts: seq<nat>, n: nat)
    requires n <= |experts|
    ensures Priorities(source, experts[..n]) <= Priorities(source, experts)
    decreases |experts|
  {
    if n < |experts| {
      var m := |experts| - 1;
      PrioritiesInOrder(source, experts[..m], n);
      assert experts[..m][..n] == experts[..n];
    } else {
      assert experts[..n] == experts;
    }
  }

  /** The protected keys after one more priority: append it if it is new, admissible and
      there is room, and otherwise leave the keys alone. */
  lemma TakeDistinctStep(source: Source, experts: seq<nat>, i: nat, capacity: nat)
    requires i < |experts|
    ensures var before, after := Take(Priorities(source, experts[..i]), capacity), Take(Priorities(source, experts[..i + 1]), capacity);
            after == if Admissible(source, experts[i]) && experts[i] !in before && |before| < capacity
                     then before + [experts[i]] else before
  {
    assert experts[..i + 1][..i] == experts[..i];
  }

  /** Entries that fit both capacities. */
  function Capacity(entryCapacity: nat, byteCapacity: nat): nat {
    var pairs := byteCapacity / PAIR_BYTES;
    if entryCapacity <= pairs then entryCapacity else pairs
  }

  /** `n` pairs of 6 MiB fit both capacities. */
  lemma CapacityMeans(entryCapacity: nat, byteCapacity: nat, n: nat)
    ensures n <= Capacity(entryCapacity, byteCapacity) <==> n <= entryCapacity && n * 6291456 <= byteCapacity
  {
    assert PAIR_BYTES == 6291456;
  }

  predicate AllIn(s: seq<nat>, t: seq<nat>) {
    forall x :: x in s ==> x in t
  }

  function ExpertsOf(entries: seq<Entry>): (s: seq<nat>)
    ensures |s| == |entries|
  {
    seq(|entries|, i requires 0 <= i < |entries| => entries[i].expert)
  }

  /** Distinct values that all occur in `t` are no more than `t` has elements. */
  lemma DistinctWithin(s: seq<nat>, t: seq<nat>)
    requires Distinct(s) && forall x :: x in s ==> x in t
    ensures |s| <= |t|
  {
    DistinctElements(s);
    ElementsAtMost(t);
    assert Elements(t) == Elements(s) + (Elements(t) - Elements(s));
  }

  /** More entries than protected keys leaves an unprotected entry. */
  lemma UnprotectedExists(entries: seq<Entry>, protected: seq<nat>)
    requires Distinct(ExpertsOf(entries)) && |protected| < |entries|
    ensures exists i :: 0 <= i < |entries| && entries[i].expert !in protected
  {
    if forall i :: 0 <= i < |entries| ==> entries[i].expert in protected {
      forall x | x in ExpertsOf(entries)
        ensures x in protected
      {
        var k :| 0 <= k < |entries| && ExpertsOf(entries)[k] == x;
      }
      DistinctWithin(ExpertsOf(entries), protected);
    }
  }

  /** The entry is an unpinned copy of its own slice of `source`. */
  predicate Fresh(entry: Entry, source: Source, generation: nat, content: (Source, nat) -> int) {
    && entry.pins == 0
    && entry.generation == generation
    && entry.layer == source.layer
    && Admissible(source, entry.expert)
    && SourceMatches(entry, source)
    && entry.data == content(source, entry.expert)
  }

  /** What holds of the cached entries between any two public calls. */
  ghost predicate Consistent(entries: seq<Entry>, source: Source, generation: nat, content: (Source, nat) -> int) {
    && Distinct(ExpertsOf(entries))
    && forall i :: 0 <= i < |entries| ==> Fresh(entries[i], source, generation, content)
  }

  lemma RemoveKeeps(entries: seq<Entry>, v: nat, source: Source, generation: nat, content: (Source, nat) -> int)
    requires Consistent(entries, source, generation, content) && v < |entries|
    ensures Consistent(Remove(entries, v), source, generation, content)
    ensures forall e :: Holds(Remove(entries, v), e) <==> Holds(entries, e) && e != entries[v].expert
  {
    var rest := Remove(entries, v);
    assert forall i :: 0 <= i < |rest| ==> rest[i] == entries[if i < v then i else i + 1];
    forall i, j | 0 <= i < j < |rest|
      ensures ExpertsOf(rest)[i] != ExpertsOf(rest)[j]
    {
      assert ExpertsOf(entries)[if i < v then i else i + 1] != ExpertsOf(entries)[if j < v then j else j + 1];
    }
    forall e
      ensures Holds(rest, e) <==> Holds(entries, e) && e != entries[v].expert
    {
      if Holds(rest, e) {
        var i :| 0 <= i < |rest| && rest[i].expert == e;
        var k := if i < v then i else i + 1;
        assert entries[k].expert == e && ExpertsOf(entries)[k] == e;
        assert if k < v then ExpertsOf(entries)[k] != ExpertsOf(entries)[v] else ExpertsOf(entries)[v] != ExpertsOf(entries)[k];
      }
      if Holds(entries, e) && e != entries[v].expert {
        var k :| 0 <= k < |entries| && entries[k].expert == e;
        assert rest[if k < v then k else k - 1].expert == e;
      }
    }
  }

  lemma AddKeeps(entries: seq<Entry>, entry: Entry, source: Source, generation: nat, content: (Source, nat) -> int)
    requires Consistent(entries, source, generation, content)
    requires Fresh(entry, source, generation, content) && !Holds(entries, entry.expert)
    ensures Consistent(entries + [entry], source, generation, content)
    ensures forall e :: Holds(entries + [entry], e) <==> Holds(entries, e) || e == entry.expert
  {
    var more := entries + [entry];
    forall i, j | 0 <= i < j < |more|
      ensures ExpertsOf(more)[i] != ExpertsOf(more)[j]
    {
      if j < |entries| {
        assert ExpertsOf(entries)[i] != ExpertsOf(entries)[j];
      }
    }
    forall e
      ensures Holds(more, e) <==> Holds(entries, e) || e == entry.expert
    {
      if Holds(entries, e) {
        var k :| 0 <= k < |entries| && entries[k].expert == e;
        assert more[k].expert == e;
      }
      if e == entry.expert {
        assert more[|entries|].expert == e;
      }
    }
  }

  /** Refreshing the tick of an entry changes nothing else. */
  lemma TouchKeeps(entries: seq<Entry>, i: nat, tick: nat, source: Source, generation: nat, content: (Source, nat) -> int)
    requires Consistent(entries, source, generation, content) && i < |entries|
    ensures Consistent(entries[i := entries[i].(lastUse := tick)], source, generation, content)
    ensures ExpertsOf(entries[i := entries[i].(lastUse := tick)]) == ExpertsOf(entries)
    ensures forall e :: Holds(entries[i := entries[i].(lastUse := tick)], e) <==> Holds(entries, e)
  {
    var touched := entries[i := entries[i].(lastUse := tick)];
    assert ExpertsOf(touched) == ExpertsOf(entries);
    forall e
      ensures Holds(touched, e) <==> Holds(entries, e)
    {
      if Holds(entries, e) {
        var k :| 0 <= k < |entries| && entries[k].expert == e;
        assert touched[k].expert == e;
      }
      if Holds(touched, e) {
        var k :| 0 <= k < |touched| && touched[k].expert == e;
        assert entries[k].expert == e;
      }
    }
  }

  /** Distinct keys that are all cached are at most as many as the entries. */
  lemma ProtectedWithin(entries: seq<Entry>, keys: seq<nat>)
    requires Distinct(keys) && forall e :: e in keys ==> Holds(entries, e)
    ensures |keys| <= |entries|
  {
    forall e | e in keys
      ensures e in ExpertsOf(entries)
    {
      var i :| 0 <= i < |entries| && entries[i].expert == e;
      assert ExpertsOf(entries)[i] == e;
    }
    DistinctWithin(keys, ExpertsOf(entries));
  }

  // ------------------------------------------------------------- history of one prewarm

  /** One eviction: the victim's place among the entries the call started from, how many keys
      were protected at that moment, and how many pairs the call had added. */
  datatype Eviction = Eviction(index: nat, shielded: nat, added: nat)

  /** What became of the entries a call started from: the places that are still cached, the
      evictions in order, and the experts of the pairs that were added. */
  datatype History = History(kept: seq<nat>, evictions: seq<Eviction>, added: seq<nat>)

  /** Place `i` was evicted among the first `k` evictions. */
  ghost predicate Gone(evictions: seq<Eviction>, k: nat, i: nat)
    requires k <= |evictions|
  {
    exists j :: 0 <= j < k && evictions[j].index == i
  }

  /** Every place is either kept, in order, or evicted, once. */
  ghost predicate Partitioned(n: nat, h: History) {
    && |h.kept| + |h.evictions| == n
    && (forall a, b :: 0 <= a < b < |h.kept| ==> h.kept[a] < h.kept[b])
    && (forall a :: 0 <= a < |h.kept| ==> h.kept[a] < n)
    && (forall j, k :: 0 <= j < k < |h.evictions| ==> h.evictions[j].index != h.evictions[k].index)
    && (forall k :: 0 <= k < |h.evictions| ==> h.evictions[k].index < n)
    && (forall i: nat :: i < n ==> (i in h.kept <==> !Gone(h.evictions, |h.evictions|, i)))
  }

  /** An entry that stayed: only a protected one has a new tick. */
  predicate Survivor(old': Entry, new': Entry, protected: seq<nat>) {
    new' == old'.(lastUse := new'.lastUse) && (old'.expert !in protected ==> new' == old')
  }

  /** The cache is the kept entries, in order, followed by the added pairs, which are protected. */
  ghost predicate Lineage(before: seq<Entry>, h: History, entries: seq<Entry>, protected: seq<nat>) {
    && |entries| == |h.kept| + |h.added|
    && (forall a :: 0 <= a < |h.kept| ==> h.kept[a] < |before| && Survivor(before[h.kept[a]], entries[a], protected))
    && forall b :: 0 <= b < |h.added| ==> entries[|h.kept| + b].expert == h.added[b] && h.added[b] in protected
  }

  /** When the `k`-th eviction happened the cache was full, and its victim was unpinned,
      unprotected, and least recently used among all such entries that were still there. */
  ghost predicate Justified(before: seq<Entry>, evictions: seq<Eviction>, k: nat, layer: nat, protected: seq<nat>, capacity: nat)
    requires k < |evictions|
  {
    var e := evictions[k];
    && e.index < |before| && e.shielded <= |protected|
    && |before| - k + e.added == capacity
    && Evictable(before[e.index], layer, protected[..e.shielded])
    && forall i: nat :: i < |before| && !Gone(evictions, k, i) && Evictable(before[i], layer, protected[..e.shielded]) ==>
         before[e.index].lastUse <= before[i].lastUse
  }

  ghost predicate Evolved(before: seq<Entry>, h: History, entries: seq<Entry>, layer: nat, protected: seq<nat>, capacity: nat) {
    && Partitioned(|before|, h) && Lineage(before, h, entries, protected)
    && (forall k :: 0 <= k < |h.evictions| ==> h.evictions[k].added <= |h.added|)
    && forall k :: 0 <= k < |h.evictions| ==> Justified(before, h.evictions, k, layer, protected, capacity)
  }

  /** Nothing has happened yet. */
  ghost function Untouched(before: seq<Entry>): History {
    History(seq(|before|, i requires 0 <= i < |before| => i), [], [])
  }

  lemma EvolvedStart(before: seq<Entry>, layer: nat, capacity: nat)
    ensures Evolved(before, Untouched(before), before, layer, [], capacity)
  {
    var h := Untouched(before);
    forall i: nat | i < |before| ensures i in h.kept && !Gone(h.evictions, 0, i) {
      assert h.kept[i] == i;
    }
  }

  ghost function Evicted(h: History, v: nat, shielded: nat): History
    requires v < |h.kept|
  {
    History(Remove(h.kept, v), h.evictions + [Eviction(h.kept[v], shielded, |h.added|)], h.added)
  }

  lemma GoneGrows(evictions: seq<Eviction>, e: Eviction, k: nat, i: nat)
    requires k <= |evictions|
    ensures Gone(evictions + [e], k, i) <==> Gone(evictions, k, i)
    ensures Gone(evictions + [e], |evictions| + 1, i) <==> Gone(evictions, |evictions|, i) || e.index == i
  {
    var more := evictions + [e];
    if Gone(evictions, k, i) {
      var j :| 0 <= j < k && evictions[j].index == i;
      assert more[j].index == i;
    }
    if Gone(evictions, |evictions|, i) {
      var j :| 0 <= j < |evictions| && evictions[j].index == i;
      assert more[j].index == i;
    }
    if e.index == i {
      assert more[|evictions|].index == i;
    }
  }

  lemma RemoveMembers(s: seq<nat>, v: nat, x: nat)
    requires v < |s| && forall a, b :: 0 <= a < b < |s| ==> s[a] < s[b]
    ensures x in Remove(s, v) <==> x in s && x != s[v]
  {
    var rest := Remove(s, v);
    if x in s && x != s[v] {
      var a :| 0 <= a < |s| && s[a] == x;
      assert rest[if a < v then a else a - 1] == x;
    }
    if x in rest {
      var a :| 0 <= a < |rest| && rest[a] == x;
      assert s[if a < v then a else a + 1] == x;
    }
  }

  lemma PartitionStep(n: nat, h: History, v: nat, shielded: nat)
    requires Partitioned(n, h) && v < |h.kept|
    ensures Partitioned(n, Evicted(h, v, shielded))
  {
    var h', e := Evicted(h, v, shielded), Eviction(h.kept[v], shielded, |h.added|);
    assert forall a :: 0 <= a < |h'.kept| ==> h'.kept[a] == h.kept[if a < v then a else a + 1];
    assert h.kept[v] in h.kept;
    forall i: nat | i < n
      ensures i in h'.kept <==> !Gone(h'.evictions, |h'.evictions|, i)
    {
      RemoveMembers(h.kept, v, i);
      GoneGrows(h.evictions, e, |h.evictions|, i);
    }
    forall j | 0 <= j < |h.evictions|
      ensures h.evictions[j].index != h.kept[v]
    {
      assert Gone(h.evictions, |h.evictions|, h.evictions[j].index);
    }
  }

  lemma LineageStep(before: seq<Entry>, h: History, entries: seq<Entry>, protected: seq<nat>, v: nat, shielded: nat)
    requires Lineage(before, h, entries, protected) && v < |h.kept|
    ensures Lineage(before, Evicted(h, v, shielded), Remove(entries, v), protected)
  {
    var h', rest := Evicted(h, v, shielded), Remove(entries, v);
    forall a | 0 <= a < |h'.kept|
      ensures h'.kept[a] < |before| && Survivor(before[h'.kept[a]], rest[a], protected)
    {
      var a' := if a < v then a else a + 1;
      assert h'.kept[a] == h.kept[a'] && rest[a] == entries[a'];
    }
    forall b | 0 <= b < |h'.added|
      ensures rest[|h'.kept| + b].expert == h'.added[b]
    {
      assert rest[|h'.kept| + b] == entries[|h.kept| + b];
    }
  }

  lemma JustifiedStays(before: seq<Entry>, evictions: seq<Eviction>, e: Eviction, k: nat, layer: nat, protected: seq<nat>, capacity: nat)
    requires k < |evictions| && Justified(before, evictions, k, layer, protected, capacity)
    ensures Justified(before, evictions + [e], k, layer, protected, capacity)
  {
    assert (evictions + [e])[k] == evictions[k];
    forall i: nat | i < |before| && !Gone(evictions + [e], k, i)
      ensures !Gone(evictions, k, i)
    {
      GoneGrows(evictions, e, k, i);
    }
  }

  lemma AddedProtected(before: seq<Entry>, h: History, entries: seq<Entry>, protected: seq<nat>, b: nat)
    requires Lineage(before, h, entries, protected) && b < |h.added|
    ensures entries[|h.kept| + b].expert in protected
  {
    assert entries[|h.kept| + b].expert == h.added[b];
  }

  /** The victim of an eviction is a kept entry, as added pairs are protected. */
  lemma VictimIsKept(before: seq<Entry>, h: History, entries: seq<Entry>, layer: nat, protected: seq<nat>, v: nat)
    requires Lineage(before, h, entries, protected) && v < |entries|
    requires entries[v].layer == layer && Evictable(entries[v], layer, protected)
    ensures v < |h.kept| && entries[v] == before[h.kept[v]]
  {
    if v >= |h.kept| {
      AddedProtected(before, h, entries, protected, v - |h.kept|);
    } else {
      assert Survivor(before[h.kept[v]], entries[v], protected);
    }
  }

  lemma NewlyJustified(before: seq<Entry>, h: History, entries: seq<Entry>, layer: nat, protected: seq<nat>, capacity: nat, v: nat)
    requires Partitioned(|before|, h) && Lineage(before, h, entries, protected)
    requires forall i :: 0 <= i < |entries| ==> entries[i].layer == layer
    requires forall i :: 0 <= i < |before| ==> before[i].layer == layer
    requires IsVictim(entries, layer, protected, v) && |entries| == capacity && v < |h.kept|
    ensures Justified(before, Evicted(h, v, |protected|).evictions, |h.evictions|, layer, protected, capacity)
  {
    var k, e := |h.evictions|, Eviction(h.kept[v], |protected|, |h.added|);
    assert (h.evictions + [e])[k] == e && protected[..|protected|] == protected;
    VictimIsKept(before, h, entries, layer, protected, v);
    forall i: nat | i < |before| && !Gone(h.evictions + [e], k, i) && Evictable(before[i], layer, protected)
      ensures before[e.index].lastUse <= before[i].lastUse
    {
      GoneGrows(h.evictions, e, k, i);
      var a :| 0 <= a < |h.kept| && h.kept[a] == i;
      assert Survivor(before[i], entries[a], protected);
    }
  }

  /** One eviction extends the history. */
  lemma EvictStep(before: seq<Entry>, h: History, entries: seq<Entry>, layer: nat, protected: seq<nat>, capacity: nat, v: nat)
    requires Evolved(before, h, entries, layer, protected, capacity)
    requires forall i :: 0 <= i < |entries| ==> entries[i].layer == layer
    requires forall i :: 0 <= i < |before| ==> before[i].layer == layer
    requires IsVictim(entries, layer, protected, v) && |entries| == capacity
    ensures v < |h.kept| && Evolved(before, Evicted(h, v, |protected|), Remove(entries, v), layer, protected, capacity)
  {
    VictimIsKept(before, h, entries, layer, protected, v);
    PartitionStep(|before|, h, v, |protected|);
    LineageStep(before, h, entries, protected, v, |protected|);
    NewlyJustified(before, h, entries, layer, protected, capacity, v);
    var e := Eviction(h.kept[v], |protected|, |h.added|);
    forall k | 0 <= k < |h.evictions|
      ensures Justified(before, h.evictions + [e], k, layer, protected, capacity)
    {
      JustifiedStays(before, h.evictions, e, k, layer, protected, capacity);
    }
  }

  lemma JustifiedPrefix(before: seq<Entry>, evictions: seq<Eviction>, k: nat, layer: nat, protected: seq<nat>, expert: nat, capacity: nat)
    requires k < |evictions| && Justified(before, evictions, k, layer, protected, capacity)
    ensures Justified(before, evictions, k, layer, protected + [expert], capacity)
  {
    var shielded := evictions[k].shielded;
    assert (protected + [expert])[..shielded] == protected[..shielded];
  }

  /** Refreshing the entry of a newly protected expert extends the history. */
  lemma ProtectStep(before: seq<Entry>, h: History, entries: seq<Entry>, after: seq<Entry>, layer: nat, protected: seq<nat>,
                    expert: nat, capacity: nat, index: nat)
    requires Evolved(before, h, entries, layer, protected, capacity)
    requires |after| == |entries| && index < |entries| && entries[index].expert == expert
    requires forall i :: 0 <= i < |entries| && i != index ==> after[i] == entries[i]
    requires after[index] == entries[index].(lastUse := after[index].lastUse)
    ensures Evolved(before, h, after, layer, protected + [expert], capacity)
  {
    forall a | 0 <= a < |h.kept|
      ensures Survivor(before[h.kept[a]], after[a], protected + [expert])
    {
      assert Survivor(before[h.kept[a]], entries[a], protected);
    }
    forall k | 0 <= k < |h.evictions|
      ensures Justified(before, h.evictions, k, layer, protected + [expert], capacity)
    {
      JustifiedPrefix(before, h.evictions, k, layer, protected, expert, capacity);
    }
  }

  /** So does appending the pair of a newly protected expert. */
  lemma AppendStep(before: seq<Entry>, h: History, entries: seq<Entry>, entry: Entry, layer: nat, protected: seq<nat>, capacity: nat)
    requires Evolved(before, h, entries, layer, protected, capacity)
    ensures Evolved(before, h.(added := h.added + [entry.expert]), entries + [entry], layer, protected + [entry.expert], capacity)
  {
    var h' := h.(added := h.added + [entry.expert]);
    forall a | 0 <= a < |h'.kept|
      ensures Survivor(before[h'.kept[a]], (entries + [entry])[a], protected + [entry.expert])
    {
      assert Survivor(before[h.kept[a]], entries[a], protected);
    }
    forall k | 0 <= k < |h.evictions|
      ensures Justified(before, h.evictions, k, layer, protected + [entry.expert], capacity)
    {
      JustifiedPrefix(before, h.evictions, k, layer, protected, entry.expert, capacity);
    }
  }

  lemma GoneStays(evictions: seq<Eviction>, k: nat, i: nat)
    requires k <= |evictions|
    ensures Gone(evictions, k, i) ==> Gone(evictions, |evictions|, i)
  {
  }

  /** No victim is younger than an entry that the call left alone. */
  lemma VictimsAreOldest(before: seq<Entry>, h: History, entries: seq<Entry>, layer: nat, protected: seq<nat>, capacity: nat, k: nat, a: nat)
    requires Evolved(before, h, entries, layer, protected, capacity)
    requires k < |h.evictions| && a < |h.kept| && Evictable(before[h.kept[a]], layer, protected)
    ensures before[h.evictions[k].index].lastUse <= before[h.kept[a]].lastUse
  {
    var i, e := h.kept[a], h.evictions[k];
    assert i in h.kept && Justified(before, h.evictions, k, layer, protected, capacity);
    GoneStays(h.evictions, k, i);
    assert forall x :: x in protected[..e.shielded] ==> x in protected;
  }

  datatype Outcome = Mapped | Present | Failed

  /** Counters of one prewarm call. */
  datatype Tally = Tally(mapped: nat, present: nat, failed: nat, evictions: nat)

  function Counted(tally: Tally, outcome: Outcome, evictions: nat): Tally {
    var evicted := tally.evictions + evictions;
    match outcome
    case Mapped => tally.(mapped := tally.mapped + 1, evictions := evicted)
    case Present => tally.(present := tally.present + 1, evictions := evicted)
    case Failed => tally.(failed := tally.failed + 1, evictions := evicted)
  }

  /** Some request for the expert could be filled. */
  ghost predicate Filled(experts: seq<nat>, fills: seq<bool>, e: nat)
    requires |fills| == |experts|
  {
    exists i :: 0 <= i < |experts| && experts[i] == e && fills[i]
  }

  lemma AllInStep(experts: seq<nat>, i: nat, s: seq<nat>, t: seq<nat>)
    requires i < |experts| && AllIn(s, t)
    ensures AllIn(experts[..i], s) && experts[i] in t ==> AllIn(experts[..i + 1], t)
  {
    assert experts[..i + 1] == experts[..i] + [experts[i]];
  }

  /** The route validation of `run`: expert ids in range and pairwise distinct. */
  predicate RoutesValid(experts: seq<nat>) {
    Distinct(experts) && forall q :: 0 <= q < |experts| ==> experts[q] < EXPERTS
  }

  lemma RoutesValidMeans(experts: seq<nat>)
    ensures RoutesValid(experts) <==> Distinct(experts) && forall e :: e in experts ==> e < 256
  {
    if forall e :: e in experts ==> e < 256 {
      assert forall q :: 0 <= q < |experts| ==> experts[q] in experts;
    }
  }

  /** `weights[q]` are the bytes of expert `experts[q]` in `source`. */
  predicate ReadsFrom(content: (Source, nat) -> int, source: Source, experts: seq<nat>, weights: seq<int>) {
    |weights| == |experts| && forall q :: 0 <= q < |experts| ==> weights[q] == content(source, experts[q])
  }

  datatype RunStatus = Success | FallbackCacheMiss | Error

  /** The entry is `before` up to its tick and the given number of pins. */
  predicate PinnedCopy(entry: Entry, before: Entry, pins: nat) {
    entry == before.(lastUse := entry.lastUse, pins := pins)
  }

  /** Only ticks differ, as long as nothing is pinned. */
  ghost predicate SameButTicks(before: seq<Entry>, after: seq<Entry>) {
    |after| == |before| && forall i :: 0 <= i < |before| ==> after[i] == before[i].(lastUse := after[i].lastUse, pins := 0)
  }

  /** `slots[q]` is the entry that route `q` found, or -1. */
  ghost predicate Lookups(before: seq<Entry>, layer: nat, generation: nat, experts: seq<nat>, slots: seq<int>) {
    && |slots| <= |experts|
    && forall q :: 0 <= q < |slots| ==>
         && -1 <= slots[q] < |before|
         && (slots[q] >= 0 ==> before[slots[q]].expert == experts[q] && before[slots[q]].layer == layer
                               && before[slots[q]].generation == generation)
         && (slots[q] == -1 ==> forall i :: 0 <= i < |before| ==>
               !(before[i].generation == generation && before[i].layer == layer && before[i].expert == experts[q]))
  }

  /** Every entry carries one pin for each of the routes `slots[from..]` that found it. */
  ghost predicate PinsMatch(before: seq<Entry>, entries: seq<Entry>, slots: seq<int>, from: nat) {
    && |entries| == |before| && from <= |slots|
    && forall i :: 0 <= i < |entries| ==> PinnedCopy(entries[i], before[i], if i in slots[from..] then 1 else 0)
  }

  /** The next value of the 64-bit clock, which skips zero. */
  function Tick(clock: nat): nat {
    if clock + 1 >= WORD then 1 else clock + 1
  }

  function Ticks(clock: nat, n: nat): nat {
    if n == 0 then clock else Tick(Ticks(clock, n - 1))
  }

  lemma {:induction false} TicksUnwrapped(clock: nat, n: nat)
    requires clock + n < WORD
    ensures Ticks(clock, n) == clock + n
  {
    if n > 0 {
      TicksUnwrapped(clock, n - 1);
    }
  }

  /** Each protected key took one tick after `start`, in order, and nothing else did. */
  ghost predicate Dated(entries: seq<Entry>, protected: seq<nat>, start: nat, clock: nat) {
    && clock == Ticks(start, |protected|)
    && forall i, q :: 0 <= i < |entries| && 0 <= q < |protected| && entries[i].expert == protected[q] ==>
         entries[i].lastUse == Ticks(start, q + 1)
  }

  lemma DatedSubset(entries: seq<Entry>, after: seq<Entry>, protected: seq<nat>, start: nat, clock: nat)
    requires Dated(entries, protected, start, clock) && forall i :: 0 <= i < |after| ==> after[i] in entries
    ensures Dated(after, protected, start, clock)
  {
    forall i, q | 0 <= i < |after| && 0 <= q < |protected| && after[i].expert == protected[q]
      ensures after[i].lastUse == Ticks(start, q + 1)
    {
      assert after[i] in entries;
      var j :| 0 <= j < |entries| && entries[j] == after[i];
    }
  }

  lemma KeysElsewhere(entries: seq<Entry>, index: nat)
    requires Distinct(ExpertsOf(entries)) && index < |entries|
    ensures forall i :: 0 <= i < |entries| && i != index ==> entries[i].expert != entries[index].expert
  {
    forall i | 0 <= i < |entries| && i != index ensures entries[i].expert != entries[index].expert {
      assert ExpertsOf(entries)[i] == entries[i].expert && ExpertsOf(entries)[index] == entries[index].expert;
    }
  }

  /** A newly protected entry takes the next tick. */
  lemma DatedNext(entries: seq<Entry>, after: seq<Entry>, protected: seq<nat>, expert: nat, start: nat, clock: nat, index: nat)
    requires Dated(entries, protected, start, clock) && expert !in protected && index < |after|
    requires after[index].expert == expert && after[index].lastUse == Tick(clock)
    requires forall i :: 0 <= i < |after| && i != index ==> after[i] in entries && after[i].expert != expert
    ensures Dated(after, protected + [expert], start, Tick(clock))
  {
    var more := protected + [expert];
    assert forall q :: 0 <= q < |protected| ==> protected[q] in protected;
    forall i, q | 0 <= i < |after| && 0 <= q < |more| && after[i].expert == more[q]
      ensures after[i].lastUse == Ticks(start, q + 1)
    {
      if i != index {
        assert after[i] in entries && q < |protected| && more[q] == protected[q];
        var j :| 0 <= j < |entries| && entries[j] == after[i];
      }
    }
  }

  /** How many of the lookups found an entry. */
  function Hits(slots: seq<int>): nat {
    if |slots| == 0 then 0 else Hits(slots[..|slots| - 1]) + if slots[|slots| - 1] >= 0 then 1 else 0
  }

  /** Each hit takes the next tick after `start`, in route order; an entry that no route hit keeps
      its tick. */
  ghost predicate Used(before: seq<Entry>, entries: seq<Entry>, slots: seq<int>, start: nat, clock: nat) {
    && |entries| == |before| && clock == Ticks(start, Hits(slots))
    && (forall q :: 0 <= q < |slots| && 0 <= slots[q] < |entries| ==> entries[slots[q]].lastUse == Ticks(start, Hits(slots[..q + 1])))
    && forall i :: 0 <= i < |entries| && i !in slots ==> entries[i].lastUse == before[i].lastUse
  }

  lemma UsedSame(before: seq<Entry>, entries: seq<Entry>, after: seq<Entry>, slots: seq<int>, start: nat, clock: nat)
    requires Used(before, entries, slots, start, clock)
    requires |after| == |entries| && forall i :: 0 <= i < |after| ==> after[i].lastUse == entries[i].lastUse
    ensures Used(before, after, slots, start, clock)
  {
  }

  /** Distinct experts find distinct entries. */
  lemma SlotsDistinct(before: seq<Entry>, layer: nat, generation: nat, experts: seq<nat>, slots: seq<int>)
    requires Distinct(experts) && Lookups(before, layer, generation, experts, slots)
    ensures forall p, q :: 0 <= p < q < |slots| && slots[p] >= 0 ==> slots[p] != slots[q]
  {
  }

  lemma UsedNext(before: seq<Entry>, entries: seq<Entry>, after: seq<Entry>, slots: seq<int>, index: int, start: nat, clock: nat)
    requires Used(before, entries, slots, start, clock) && -1 <= index < |entries| && (index >= 0 ==> index !in slots)
    requires |after| == |entries| && forall i :: 0 <= i < |after| && i != index ==> after[i].lastUse == entries[i].lastUse
    requires index >= 0 ==> after[index].lastUse == Tick(clock)
    ensures Used(before, after, slots + [index], start, if index >= 0 then Tick(clock) else clock)
  {
    var more := slots + [index];
    assert more[..|slots|] == slots;
    forall q | 0 <= q < |more| && 0 <= more[q] < |after|
      ensures after[more[q]].lastUse == Ticks(start, Hits(more[..q + 1]))
    {
      if q < |slots| {
        assert more[..q + 1] == slots[..q + 1] && more[q] == slots[q] && slots[q] in slots;
      } else {
        assert more[..q + 1] == more;
      }
    }
    forall i | 0 <= i < |after| && i !in more ensures after[i].lastUse == before[i].lastUse {
      assert i !in slots && more[|slots|] == index;
    }
  }

  /** The entry that a route found is pinned once more, at `tick`. */
  function Pinned(entries: seq<Entry>, index: int, tick: nat): seq<Entry>
    requires -1 <= index < |entries|
  {
    if index < 0 then entries
    else entries[index := entries[index].(pins := entries[index].pins + 1, lastUse := tick)]
  }

  /** One lookup extends the pins by the entry it found, which no earlier route found. */
  lemma PinOne(before: seq<Entry>, entries: seq<Entry>, layer: nat, generation: nat, experts: seq<nat>, slots: seq<int>,
               index: int, tick: nat)
    requires |slots| < |experts| && Distinct(experts)
    requires Lookups(before, layer, generation, experts, slots)
    requires PinsMatch(before, entries, slots, 0)
    requires -1 <= index < |entries|
    requires index >= 0 ==> entries[index].generation == generation && entries[index].layer == layer
                            && entries[index].expert == experts[|slots|]
    requires index == -1 ==> forall i :: 0 <= i < |entries| ==>
               !(entries[i].generation == generation && entries[i].layer == layer && entries[i].expert == experts[|slots|])
    ensures Lookups(before, layer, generation, experts, slots + [index])
    ensures PinsMatch(before, Pinned(entries, index, tick), slots + [index], 0)
    ensures index >= 0 ==> index !in slots
  {
    var slots' := slots + [index];
    assert slots[0..] == slots && slots'[0..] == slots';
    forall i | 0 <= i < |entries|
      ensures entries[i].generation == before[i].generation && entries[i].layer == before[i].layer && entries[i].expert == before[i].expert
    {
      assert PinnedCopy(entries[i], before[i], if i in slots[0..] then 1 else 0);
    }
    if index >= 0 {
      NotFoundBefore(before, layer, generation, experts, slots, index);
    }
  }

  /** Distinct routes find distinct entries. */
  lemma NotFoundBefore(before: seq<Entry>, layer: nat, generation: nat, experts: seq<nat>, slots: seq<int>, index: nat)
    requires |slots| < |experts| && Distinct(experts) && Lookups(before, layer, generation, experts, slots)
    requires index < |before| && before[index].expert == experts[|slots|]
    ensures index !in slots
  {
    forall q | 0 <= q < |slots| ensures slots[q] != index {
      assert experts[q] != experts[|slots|];
    }
  }

  class Provider {
    const entryCapacity: nat
    const byteCapacity: nat
    const content: (Source, nat) -> int // the bytes of an expert's slices of a source
    var entries: seq<Entry>
    var source: Option<Source>
    var generation: nat
    var clock: nat
    var cacheBytes: nat

    /** What holds between any two public calls. */
    ghost predicate Valid()
      reads this
    {
      && 0 < entryCapacity < 0x1_0000_0000 && PAIR_BYTES <= byteCapacity
      && clock < WORD
      && cacheBytes == |entries| * PAIR_BYTES
      && |entries| <= Capacity(entryCapacity, byteCapacity)
      && (source.None? ==> entries == [])
      && (source.Some? ==> Consistent(entries, source.value, generation, content))
    }

    /** No tick has wrapped around: every entry's tick is at most the clock. */
    ghost predicate Unwrapped()
      reads this
    {
      clock < NEVER && forall i :: 0 <= i < |entries| ==> entries[i].lastUse <= clock
    }

    constructor (entryCapacity: nat, byteCapacity: nat, content: (Source, nat) -> int)
      requires 0 < entryCapacity < 0x1_0000_0000 && PAIR_BYTES <= byteCapacity
      ensures Valid() && Unwrapped() && entries == [] && source == None
      ensures this.entryCapacity == entryCapacity && this.byteCapacity == byteCapacity && this.content == content
    {
      this.entryCapacity, this.byteCapacity, this.content := entryCapacity, byteCapacity, content;
      entries, source, generation, clock, cacheBytes := [], None, 0, 0, 0;
    }

    /** `find_entry`: the first entry with this key and the current generation. */
    method FindEntry(layer: nat, expert: nat) returns (index: int)
      ensures -1 <= index < |entries|
      ensures index >= 0 ==> entries[index].generation == generation && entries[index].layer == layer && entries[index].expert == expert
      ensures index == -1 ==> forall i :: 0 <= i < |entries| ==>
                !(entries[i].generation == generation && entries[i].layer == layer && entries[i].expert == expert)
    {
      index := 0;
      while index < |entries|
        invariant 0 <= index <= |entries|
        invariant forall i :: 0 <= i < index ==>
                    !(entries[i].generation == generation && entries[i].layer == layer && entries[i].expert == expert)
      {
        if entries[index].generation == generation && entries[index].layer == layer && entries[index].expert == expert {
          return;
        }
        index := index + 1;
      }
      index := -1;
    }

    /** `evict_one`: erase the least recently used evictable entry. */
    method EvictOne(layer: nat, protected: seq<nat>) returns (evicted: bool, ghost victim: nat)
      requires cacheBytes == |entries| * PAIR_BYTES
      modifies this`entries, this`cacheBytes
      ensures evicted <==> exists i :: 0 <= i < |old(entries)| && Evictable(old(entries)[i], layer, protected)
      ensures evicted ==> IsVictim(old(entries), layer, protected, victim) && entries == Remove(old(entries), victim)
      ensures !evicted ==> entries == old(entries)
      ensures cacheBytes == |entries| * PAIR_BYTES
    {
      var v: nat, oldest, index := |entries|, NEVER, 0;
      while index < |entries|
        invariant 0 <= index <= |entries|
        invariant v == |entries| ==> oldest == NEVER && forall i :: 0 <= i < index ==> !Evictable(entries[i], layer, protected)
        invariant v != |entries| ==> v < index && Evictable(entries[v], layer, protected) && oldest == entries[v].lastUse
        invariant forall i :: 0 <= i < index && Evictable(entries[i], layer, protected) ==> oldest <= entries[i].lastUse
      {
        var entry := entries[index];
        if entry.pins == 0 && !IsProtected(entry, layer, protected) && entry.lastUse < oldest {
          oldest, v := entry.lastUse, index;
        }
        index := index + 1;
      }
      evicted, victim := v != |entries|, v;
      if evicted {
        cacheBytes := cacheBytes - PAIR_BYTES;
        entries := Remove(entries, v);
      }
    }

    /** The history of a prewarm call that started from `before`. */
    ghost predicate Traced(before: seq<Entry>, h: History, layer: nat, protected: seq<nat>)
      reads this
    {
      && Evolved(before, h, entries, layer, protected, Capacity(entryCapacity, byteCapacity))
      && forall i :: 0 <= i < |before| ==> before[i].layer == layer
    }

    /** The eviction loop of a prewarm: make room for one more pair, or fail when only
        protected entries are left. */
    method MakeRoom(layer: nat, protected: seq<nat>, ghost before: seq<Entry>, ghost h: History)
      returns (room: bool, evictions: nat, ghost h': History)
      requires Valid() && source.Some? && source.value.layer == layer && Traced(before, h, layer, protected)
      modifies this`entries, this`cacheBytes
      ensures Valid() && Traced(before, h', layer, protected)
      ensures |h'.evictions| == |h.evictions| + evictions && h'.added == h.added
      ensures room ==> |entries| < Capacity(entryCapacity, byteCapacity)
      ensures !room ==> |entries| >= Capacity(entryCapacity, byteCapacity)
                        && forall i :: 0 <= i < |entries| ==> !Evictable(entries[i], layer, protected)
      ensures forall e :: Holds(entries, e) ==> Holds(old(entries), e)
      ensures forall e :: e in protected && Holds(old(entries), e) ==> Holds(entries, e)
      ensures forall i :: 0 <= i < |entries| ==> entries[i] in old(entries)
    {
      evictions, h' := 0, h;
      while |entries| >= entryCapacity || cacheBytes + PAIR_BYTES > byteCapacity
        invariant Valid() && Traced(before, h', layer, protected)
        invariant |h'.evictions| == |h.evictions| + evictions && h'.added == h.added
        invariant forall e :: Holds(entries, e) ==> Holds(old(entries), e)
        invariant forall e :: e in protected && Holds(old(entries), e) ==> Holds(entries, e)
        invariant forall i :: 0 <= i < |entries| ==> entries[i] in old(entries)
        decreases |entries|
      {
        var evicted;
        evicted, h' := EvictNext(layer, protected, before, h');
        if !evicted {
          room := false;
          return;
        }
        evictions := evictions + 1;
      }
      room := true;
    }

    /** One iteration of the eviction loop, entered only when the cache is full. */
    method EvictNext(layer: nat, protected: seq<nat>, ghost before: seq<Entry>, ghost h: History)
      returns (evicted: bool, ghost h': History)
      requires Valid() && source.Some? && source.value.layer == layer && Traced(before, h, layer, protected)
      requires |entries| >= entryCapacity || cacheBytes + PAIR_BYTES > byteCapacity
      modifies this`entries, this`cacheBytes
      ensures Valid() && Traced(before, h', layer, protected)
      ensures |h'.evictions| == |h.evictions| + (if evicted then 1 else 0) && h'.added == h.added
      ensures evicted ==> |entries| < |old(entries)|
      ensures !evicted ==> entries == old(entries) && |entries| >= Capacity(entryCapacity, byteCapacity)
                           && forall i :: 0 <= i < |entries| ==> !Evictable(entries[i], layer, protected)
      ensures forall e :: Holds(entries, e) ==> Holds(old(entries), e)
      ensures forall e :: e in protected && Holds(old(entries), e) ==> Holds(entries, e)
      ensures forall i :: 0 <= i < |entries| ==> entries[i] in old(entries)
    {
      ghost var full := entries;
      h' := h;
      assert |full| == Capacity(entryCapacity, byteCapacity);
      assert forall i :: 0 <= i < |full| ==> full[i].layer == layer by {
        assert forall i :: 0 <= i < |full| ==> Fresh(full[i], source.value, generation, content);
      }
      ghost var victim;
      evicted, victim := EvictOne(layer, protected);
      if evicted {
        RemoveKeeps(full, victim, source.value, generation, content);
        EvictStep(before, h, full, layer, protected, Capacity(entryCapacity, byteCapacity), victim);
        h' := Evicted(h, victim, |protected|);
      }
    }

    /** A prewarm hit: refresh the entry's tick. */
    method Refresh(index: nat)
      requires Valid() && index < |entries|
      modifies this`entries, this`clock
      ensures Valid() && ExpertsOf(entries) == ExpertsOf(old(entries))
      ensures forall e :: Holds(entries, e) <==> Holds(old(entries), e)
      ensures |entries| == |old(entries)|
      ensures forall i :: 0 <= i < |entries| && i != index ==> entries[i] == old(entries)[i]
      ensures entries[index] == old(entries)[index].(lastUse := clock)
      ensures clock == Tick(old(clock)) == if old(clock) + 1 < 0x1_0000_0000_0000_0000 then old(clock) + 1 else 1
    {
      TouchKeeps(entries, index, Tick(clock), source.value, generation, content);
      clock := Tick(clock);
      entries := entries[index := entries[index].(lastUse := clock)];
    }

    /** A prewarm miss with room: append the pair that was mapped or copied. */
    method Append(expert: nat)
      requires Valid() && source.Some? && Admissible(source.value, expert)
      requires |entries| < Capacity(entryCapacity, byteCapacity) && !Holds(entries, expert)
      modifies this`entries, this`clock, this`cacheBytes
      ensures Valid() && |entries| == |old(entries)| + 1
      ensures forall e :: Holds(entries, e) <==> Holds(old(entries), e) || e == expert
      ensures forall i :: 0 <= i < |old(entries)| ==> entries[i] == old(entries)[i]
      ensures entries[|old(entries)|].expert == expert && entries[|old(entries)|].lastUse == clock
      ensures clock == Tick(old(clock))
    {
      clock := Tick(clock);
      var entry := Entry(generation, source.value.layer, expert, clock, 0, source.value.mode, source.value.key,
                         source.value.gateBegin + expert * GATE_UP_BYTES,
                         source.value.downBegin + expert * DOWN_BYTES, content(source.value, expert));
      AddKeeps(entries, entry, source.value, generation, content);
      entries := entries + [entry];
      cacheBytes := cacheBytes + PAIR_BYTES;
    }

    /** Room was made before the fill was tried, unless no entry may go. */
    ghost predicate RoomOrStuck(protected: seq<nat>)
      reads this
    {
      || |entries| < Capacity(entryCapacity, byteCapacity)
      || (source.Some? && forall i :: 0 <= i < |entries| ==> !Evictable(entries[i], source.value.layer, protected))
    }

    /** One priority of a prewarm loop; `fill` says whether mapping or copying succeeds. A
        cached entry always matches the source, so replacing a stale one cannot happen. */
    method Admit(expert: nat, fill: bool, protected: seq<nat>, ghost before: seq<Entry>, ghost h: History, ghost start: nat)
      returns (outcome: Outcome, protected': seq<nat>, evictions: nat, ghost h': History)
      requires Valid() && source.Some? && Traced(before, h, source.value.layer, protected) && Dated(entries, protected, start, clock)
      requires Distinct(protected) && forall e :: e in protected ==> Holds(entries, e)
      modifies this`entries, this`cacheBytes, this`clock
      ensures Valid() && Traced(before, h', source.value.layer, protected') && Dated(entries, protected', start, clock)
      ensures |h'.evictions| == |h.evictions| + evictions && (outcome == Present ==> evictions == 0)
      ensures h'.added == if outcome == Mapped then h.added + [expert] else h.added
      ensures Distinct(protected') && forall e :: e in protected' ==> Holds(entries, e)
      ensures old(Unwrapped()) && old(clock) + 1 < NEVER ==> Unwrapped() && clock <= old(clock) + 1
      ensures protected' == if outcome != Failed && expert !in protected then protected + [expert] else protected
      ensures outcome != Failed ==> expert in protected'
      ensures forall e :: e in protected ==> e in protected'
      ensures expert in protected ==> outcome == Present
      ensures !Admissible(source.value, expert) && expert !in protected ==> outcome == Failed
      ensures outcome == Mapped ==> fill
      ensures outcome == Present <==> expert in protected || (Admissible(source.value, expert) && old(Holds(entries, expert)))
      ensures outcome == Failed && Admissible(source.value, expert) ==> RoomOrStuck(protected)
      ensures fill && old(Unwrapped()) && Admissible(source.value, expert) && expert !in protected ==>
                (outcome == Failed <==> |protected| >= Capacity(entryCapacity, byteCapacity))
    {
      protected', evictions, h', outcome := protected, 0, h, Failed;
      if expert >= EXPERTS {
        return;
      }
      if expert in protected {
        outcome := Present;
        return;
      }
      if !Addressable(source.value, expert) {
        return;
      }
      var index := FindEntry(source.value.layer, expert);
      if index >= 0 {
        if !SourceMatches(entries[index], source.value) {
          assert false;
        }
        assert Holds(entries, expert);
        ProtectedWithin(entries, protected + [expert]);
        RefreshHit(index, expert, protected, before, h, start);
        outcome, protected' := Present, protected + [expert];
      } else {
        assert !Holds(entries, expert);
        outcome, evictions, h' := FillMiss(expert, fill, protected, before, h, start);
        protected' := if outcome == Mapped then protected + [expert] else protected;
      }
    }

    /** A prewarm hit: the entry is used now, and protected. */
    method RefreshHit(index: nat, expert: nat, ghost protected: seq<nat>, ghost before: seq<Entry>, ghost h: History, ghost start: nat)
      requires Valid() && source.Some? && index < |entries| && entries[index].expert == expert && expert !in protected
      requires Traced(before, h, source.value.layer, protected) && Dated(entries, protected, start, clock)
      modifies this`entries, this`clock
      ensures Valid() && forall e :: Holds(entries, e) <==> Holds(old(entries), e)
      ensures Traced(before, h, source.value.layer, protected + [expert]) && Dated(entries, protected + [expert], start, clock)
      ensures old(Unwrapped()) && old(clock) + 1 < NEVER ==> Unwrapped() && clock <= old(clock) + 1
    {
      ghost var cached, now := entries, clock;
      Refresh(index);
      KeysElsewhere(cached, index);
      DatedNext(cached, entries, protected, expert, start, now, index);
      ProtectStep(before, h, cached, entries, source.value.layer, protected, expert, Capacity(entryCapacity, byteCapacity), index);
    }

    /** A prewarm miss: make room, then fill unless mapping or copying fails. */
    method FillMiss(expert: nat, fill: bool, protected: seq<nat>, ghost before: seq<Entry>, ghost h: History, ghost start: nat)
      returns (outcome: Outcome, evictions: nat, ghost h': History)
      requires Dated(entries, protected, start, clock)
      requires Valid() && source.Some? && Admissible(source.value, expert) && Traced(before, h, source.value.layer, protected)
      requires !Holds(entries, expert) && expert !in protected
      requires Distinct(protected) && forall e :: e in protected ==> Holds(entries, e)
      modifies this`entries, this`cacheBytes, this`clock
      ensures Valid() && outcome != Present
      ensures Traced(before, h', source.value.layer, if outcome == Mapped then protected + [expert] else protected)
      ensures Dated(entries, if outcome == Mapped then protected + [expert] else protected, start, clock)
      ensures |h'.evictions| == |h.evictions| + evictions
      ensures h'.added == if outcome == Mapped then h.added + [expert] else h.added
      ensures forall e :: e in protected ==> Holds(entries, e)
      ensures outcome == Mapped ==> Holds(entries, expert)
      ensures old(Unwrapped()) && old(clock) + 1 < NEVER ==> Unwrapped() && clock <= old(clock) + 1
      ensures outcome == Mapped ==> fill
      ensures outcome == Failed ==> RoomOrStuck(protected)
      ensures fill && old(Unwrapped()) ==> (outcome == Failed <==> |protected| >= Capacity(entryCapacity, byteCapacity))
    {
      var room;
      outcome := Failed;
      ghost var all := entries;
      room, evictions, h' := MakeRoom(source.value.layer, protected, before, h);
      DatedSubset(all, entries, protected, start, clock);
      ProtectedWithin(entries, protected);
      if !room {
        if |protected| < |entries| {
          UnprotectedExists(entries, protected);
        }
        return;
      }
      if fill {
        h' := FillRoom(expert, protected, before, h', start);
        outcome := Mapped;
      }
    }

    /** The room is filled: the new entry is the last one, used now, and protected. */
    method FillRoom(expert: nat, ghost protected: seq<nat>, ghost before: seq<Entry>, ghost h: History, ghost start: nat)
      returns (ghost h': History)
      requires Valid() && source.Some? && Admissible(source.value, expert) && Traced(before, h, source.value.layer, protected)
      requires Dated(entries, protected, start, clock) && !Holds(entries, expert) && expert !in protected
      requires |entries| < Capacity(entryCapacity, byteCapacity)
      modifies this`entries, this`cacheBytes, this`clock
      ensures Valid() && Traced(before, h', source.value.layer, protected + [expert])
      ensures Dated(entries, protected + [expert], start, clock)
      ensures h' == h.(added := h.added + [expert])
      ensures forall e :: Holds(entries, e) <==> old(Holds(entries, e)) || e == expert
      ensures old(Unwrapped()) && old(clock) + 1 < NEVER ==> Unwrapped() && clock <= old(clock) + 1
    {
      ghost var cached, now := entries, clock;
      Append(expert);
      AppendStep(before, h, cached, entries[|cached|], source.value.layer, protected, Capacity(entryCapacity, byteCapacity));
      assert entries == cached + [entries[|cached|]];
      DatedNext(cached, entries, protected, expert, start, now, |cached|);
      h' := h.(added := h.added + [expert]);
    }

    /** A prewarm call: adopt the source, then admit the experts in priority order.
        `fills[i]` says whether mapping or copying expert `i` would succeed. */
    method Prewarm(request: Source, experts: seq<nat>, fills: seq<bool>)
      returns (tally: Tally, protected: seq<nat>, ghost h: History)
      requires Valid() && |fills| == |experts|
      modifies this
      ensures Valid() && source == Some(request)
      ensures tally.mapped + tally.present + tally.failed == |experts|
      ensures tally.evictions == |h.evictions| && tally.mapped == |h.added|
      ensures Evolved(if old(source) == Some(request) then old(entries) else [], h, entries, request.layer, protected,
                      Capacity(entryCapacity, byteCapacity))
      ensures old(source) != Some(request) ==> tally.evictions == 0
      ensures generation == if old(source) == Some(request) then old(generation) else Tick(old(generation))
      ensures forall e :: e in h.added ==> Filled(experts, fills, e)
      ensures Dated(entries, protected, old(clock), clock)
      ensures Distinct(protected) && forall e :: e in protected ==> Holds(entries, e)
      ensures tally.failed == 0 ==> forall e :: e in experts ==> Holds(entries, e)
      ensures (forall i :: 0 <= i < |fills| ==> fills[i]) && old(Unwrapped()) && old(clock) + |experts| < NEVER ==>
                Unwrapped() && protected == Take(Priorities(request, experts), Capacity(entryCapacity, byteCapacity))
    {
      if source != Some(request) {
        ReplaceSource(request);
      }
      tally, protected, h := AdmitAll(request, experts, fills);
    }

    /** The priority loop of a prewarm whose source is in place. */
    method AdmitAll(request: Source, experts: seq<nat>, fills: seq<bool>)
      returns (tally: Tally, protected: seq<nat>, ghost h: History)
      requires Valid() && source == Some(request) && |fills| == |experts|
      modifies this`entries, this`cacheBytes, this`clock
      ensures Prewarming(request, experts, tally, protected, old(entries), h, old(clock))
      ensures forall e :: e in h.added ==> Filled(experts, fills, e)
      ensures (forall i :: 0 <= i < |fills| ==> fills[i]) && old(Unwrapped()) && old(clock) + |experts| < NEVER ==>
                Undisturbed(request, experts, protected, old(clock))
    {
      tally, protected := Tally(0, 0, 0, 0), [];
      ghost var before, start := entries, clock;
      h := Untouched(before);
      PrewarmStart(request);
      assert experts[..0] == [];
      ghost var smooth := (forall i :: 0 <= i < |fills| ==> fills[i]) && Unwrapped() && clock + |experts| < NEVER;
      for i := 0 to |experts|
        invariant Prewarming(request, experts[..i], tally, protected, before, h, start)
        invariant smooth ==> Undisturbed(request, experts[..i], protected, start)
        invariant forall e :: e in h.added ==> Filled(experts, fills, e)
      {
        assert fills[i] ==> Filled(experts, fills, experts[i]);
        tally, protected, h := PrewarmNext(request, experts, i, fills[i], tally, protected, before, h, start);
      }
      assert experts[..|experts|] == experts;
    }

    lemma PrewarmStart(request: Source)
      requires Valid() && source == Some(request)
      ensures Prewarming(request, [], Tally(0, 0, 0, 0), [], entries, Untouched(entries), clock)
    {
      EvolvedStart(entries, request.layer, Capacity(entryCapacity, byteCapacity));
      assert forall i :: 0 <= i < |entries| ==> Fresh(entries[i], request, generation, content);
    }

    /** The state of a prewarm that has admitted `done`. */
    ghost predicate Prewarming(request: Source, done: seq<nat>, tally: Tally, protected: seq<nat>, before: seq<Entry>, h: History, start: nat)
      reads this
    {
      && Valid() && source == Some(request) && Traced(before, h, request.layer, protected) && Dated(entries, protected, start, clock)
      && tally.mapped + tally.present + tally.failed == |done|
      && tally.evictions == |h.evictions| && tally.mapped == |h.added|
      && Distinct(protected) && (forall e :: e in protected ==> Holds(entries, e))
      && (tally.failed == 0 ==> AllIn(done, protected))
    }

    /** So far every fill has succeeded and no tick has wrapped. */
    ghost predicate Undisturbed(request: Source, done: seq<nat>, protected: seq<nat>, start: nat)
      reads this
    {
      && Unwrapped() && clock <= start + |done|
      && protected == Take(Priorities(request, done), Capacity(entryCapacity, byteCapacity))
    }

    /** One iteration of the prewarm loop with its counters. */
    method PrewarmNext(request: Source, experts: seq<nat>, i: nat, fill: bool, tally: Tally, protected: seq<nat>,
                       ghost before: seq<Entry>, ghost h: History, ghost start: nat)
      returns (tally': Tally, protected': seq<nat>, ghost h': History)
      requires i < |experts| && Prewarming(request, experts[..i], tally, protected, before, h, start)
      modifies this`entries, this`cacheBytes, this`clock
      ensures Prewarming(request, experts[..i + 1], tally', protected', before, h', start)
      ensures h'.added == h.added || (fill && h'.added == h.added + [experts[i]])
      ensures fill && old(Undisturbed(request, experts[..i], protected, start)) && start + |experts| < NEVER ==>
                Undisturbed(request, experts[..i + 1], protected', start)
    {
      var outcome, evictions;
      TakeDistinctStep(request, experts, i, Capacity(entryCapacity, byteCapacity));
      outcome, protected', evictions, h' := Admit(experts[i], fill, protected, before, h, start);
      tally' := Counted(tally, outcome, evictions);
      AllInStep(experts, i, protected, protected');
    }

    /** A new source clears the cache; no entry is ever pinned between calls, so the
        cache-busy refusal cannot happen. */
    method ReplaceSource(request: Source)
      requires Valid()
      modifies this`entries, this`cacheBytes, this`source, this`generation
      ensures Valid() && source == Some(request) && entries == [] && generation == Tick(old(generation))
    {
      for i := 0 to |entries| {
        if entries[i].pins != 0 {
          assert false;
        }
      }
      entries, cacheBytes, source := [], 0, Some(request);
      generation := Tick(generation);
    }

    /** The lookup loop of `run`: pin and touch the entry of every route that hits. */
    method PinRoutes(layer: nat, experts: seq<nat>) returns (slots: seq<int>, misses: nat)
      requires Valid() && Distinct(experts)
      modifies this`entries, this`clock
      ensures clock < WORD
      ensures misses == 0 <==> -1 !in slots
      ensures |slots| == |experts| && Lookups(old(entries), layer, generation, experts, slots)
      ensures PinsMatch(old(entries), entries, slots, 0)
      ensures Used(old(entries), entries, slots, old(clock), clock)
    {
      slots, misses := [], 0;
      ghost var before, start := entries, clock;
      for q := 0 to |experts|
        invariant clock < WORD && Used(before, entries, slots, start, clock)
        invariant misses == 0 <==> -1 !in slots
        invariant |slots| == q && Lookups(before, layer, generation, experts, slots)
        invariant PinsMatch(before, entries, slots, 0)
      {
        var index := PinNext(layer, experts, slots, before, start);
        slots := slots + [index];
        misses := misses + (if index == -1 then 1 else 0);
      }
    }

    /** One iteration of the lookup loop. */
    method PinNext(layer: nat, experts: seq<nat>, slots: seq<int>, ghost before: seq<Entry>, ghost start: nat) returns (index: int)
      requires clock < WORD && |slots| < |experts| && Distinct(experts)
      requires Lookups(before, layer, generation, experts, slots)
      requires PinsMatch(before, entries, slots, 0) && Used(before, entries, slots, start, clock)
      modifies this`entries, this`clock
      ensures clock < WORD
      ensures Lookups(before, layer, generation, experts, slots + [index])
      ensures PinsMatch(before, entries, slots + [index], 0) && Used(before, entries, slots + [index], start, clock)
    {
      index := FindEntry(layer, experts[|slots|]);
      PinOne(before, entries, layer, generation, experts, slots, index, Tick(clock));
      UsedNext(before, entries, Pinned(entries, index, Tick(clock)), slots, index, start, clock);
      if index >= 0 {
        clock := Tick(clock);
        entries := entries[index := entries[index].(pins := entries[index].pins + 1, lastUse := clock)];
      }
    }

    /** Release the pins of a run. */
    method UnpinRoutes(slots: seq<int>, ghost before: seq<Entry>)
      requires forall q :: 0 <= q < |slots| ==> -1 <= slots[q] < |before|
      requires forall p, q :: 0 <= p < q < |slots| && slots[p] >= 0 ==> slots[p] != slots[q]
      requires PinsMatch(before, entries, slots, 0)
      modifies this`entries
      ensures PinsMatch(before, entries, slots, |slots|)
      ensures |entries| == |old(entries)| && forall i :: 0 <= i < |entries| ==> entries[i].lastUse == old(entries)[i].lastUse
    {
      for q := 0 to |slots|
        invariant PinsMatch(before, entries, slots, q)
        invariant |entries| == |old(entries)| && forall i :: 0 <= i < |entries| ==> entries[i].lastUse == old(entries)[i].lastUse
      {
        assert slots[q..] == [slots[q]] + slots[q + 1..];
        if slots[q] >= 0 {
          var i := slots[q];
          assert PinnedCopy(entries[i], before[i], 1);
          entries := entries[i := entries[i].(pins := entries[i].pins - 1)];
        }
      }
    }

    /** `run`: pin the routes' entries, use them if all hit, and always release the pins.
        `finite` says whether the computed output is finite. */
    method Run(layer: nat, experts: seq<nat>, inputsValid: bool, finite: bool)
      returns (status: RunStatus, weights: seq<int>, ghost slots: seq<int>)
      requires Valid() && |experts| == ROUTES
      modifies this`entries, this`clock
      ensures Valid() && SameButTicks(old(entries), entries)
      ensures forall e :: Holds(entries, e) <==> Holds(old(entries), e)
      ensures var valid := inputsValid && Distinct(experts) && forall e :: e in experts ==> e < 256;
              if valid then
                && |slots| == ROUTES && Lookups(old(entries), layer, generation, experts, slots)
                && Used(old(entries), entries, slots, old(clock), clock)
                && (status == FallbackCacheMiss <==> !AllHit(layer, experts))
                && (AllHit(layer, experts) ==>
                      status == (if finite then Success else Error) && ReadsFrom(content, source.value, experts, weights))
              else status == Error && entries == old(entries) && clock == old(clock)
    {
      RoutesValidMeans(experts);
      weights, slots := [], [];
      if !inputsValid || !RoutesValid(experts) {
        status := Error;
        UnpinnedSame();
        return;
      }
      var misses;
      misses, weights, slots := RunRoutes(layer, experts);
      status := if misses != 0 then FallbackCacheMiss else if finite then Success else Error;
    }

    /** Pin, read if all routes hit, and release. */
    method RunRoutes(layer: nat, experts: seq<nat>) returns (misses: nat, weights: seq<int>, ghost slots: seq<int>)
      requires Valid() && |experts| == ROUTES && Distinct(experts)
      modifies this`entries, this`clock
      ensures Valid() && SameButTicks(old(entries), entries)
      ensures forall e :: Holds(entries, e) <==> Holds(old(entries), e)
      ensures |slots| == ROUTES && Lookups(old(entries), layer, generation, experts, slots)
      ensures Used(old(entries), entries, slots, old(clock), clock)
      ensures misses == 0 <==> AllHit(layer, experts)
      ensures misses == 0 ==> ReadsFrom(content, source.value, experts, weights)
    {
      weights := [];
      ghost var before := entries;
      var found;
      found, misses := PinRoutes(layer, experts);
      slots := found;
      AllHitSlots(before, layer, experts, slots);
      if misses == 0 {
        weights := ReadWeights(found, experts, before);
      }
      ghost var pinned := entries;
      SlotsDistinct(before, layer, generation, experts, slots);
      UnpinRoutes(found, before);
      UsedSame(before, pinned, entries, slots, old(clock), clock);
      ReleasedKeeps(before, entries, slots);
    }

    lemma UnpinnedSame()
      requires Valid()
      ensures SameButTicks(entries, entries)
    {
      if source.Some? {
        assert forall i :: 0 <= i < |entries| ==> Fresh(entries[i], source.value, generation, content);
      }
    }

    /** The weights that the pinned entries hold. */
    method ReadWeights(slots: seq<int>, experts: seq<nat>, ghost before: seq<Entry>) returns (weights: seq<int>)
      requires source.Some? && Consistent(before, source.value, generation, content)
      requires |slots| == |experts| == ROUTES && -1 !in slots && PinsMatch(before, entries, slots, 0)
      requires Lookups(before, source.value.layer, generation, experts, slots)
      ensures ReadsFrom(content, source.value, experts, weights)
    {
      assert forall q :: 0 <= q < ROUTES ==> slots[q] in slots;
      weights := seq(ROUTES, q requires 0 <= q < ROUTES => 0);
      for q := 0 to ROUTES
        invariant |weights| == ROUTES
        invariant forall p :: 0 <= p < q ==> weights[p] == content(source.value, experts[p])
      {
        assert PinnedCopy(entries[slots[q]], before[slots[q]], 1);
        assert Fresh(before[slots[q]], source.value, generation, content);
        weights := weights[q := entries[slots[q]].data];
      }
    }

    /** Every route's expert is cached for the layer. */
    ghost predicate AllHit(layer: nat, experts: seq<nat>)
      reads this
    {
      source.Some? && source.value.layer == layer && forall e :: e in experts ==> Holds(entries, e)
    }

    lemma AllHitSlots(before: seq<Entry>, layer: nat, experts: seq<nat>, slots: seq<int>)
      requires source.None? ==> before == []
      requires source.Some? ==> Consistent(before, source.value, generation, content)
      requires |slots| == |experts| == ROUTES && Lookups(before, layer, generation, experts, slots)
      ensures -1 !in slots
              <==> source.Some? && source.value.layer == layer && forall e :: e in experts ==> Holds(before, e)
    {
      if source.Some? && source.value.layer == layer && forall e :: e in experts ==> Holds(before, e) {
        forall q | 0 <= q < |slots|
          ensures slots[q] != -1
        {
          assert experts[q] in experts;
          var i :| 0 <= i < |before| && before[i].expert == experts[q];
          assert Fresh(before[i], source.value, generation, content);
        }
      }
      if -1 !in slots {
        assert slots[0] in slots && slots[0] >= 0;
        assert Fresh(before[slots[0]], source.value, generation, content);
        forall e | e in experts
          ensures Holds(before, e)
        {
          var q :| 0 <= q < |experts| && experts[q] == e;
          assert slots[q] in slots && before[slots[q]].expert == e;
        }
      }
    }

    /** With all pins released, only ticks have changed. */
    lemma ReleasedKeeps(before: seq<Entry>, after: seq<Entry>, slots: seq<int>)
      requires PinsMatch(before, after, slots, |slots|)
      requires source.None? ==> before == []
      requires source.Some? ==> Consistent(before, source.value, generation, content)
      ensures source.None? ==> after == []
      ensures source.Some? ==> Consistent(after, source.value, generation, content)
      ensures forall e :: Holds(after, e) <==> Holds(before, e)
      ensures SameButTicks(before, after)
    {
      assert slots[|slots|..] == [];
      forall i | 0 <= i < |before|
        ensures after[i] == before[i].(lastUse := after[i].lastUse, pins := 0)
      {
        assert PinnedCopy(after[i], before[i], 0);
      }
      assert ExpertsOf(after) == ExpertsOf(before);
      forall e
        ensures Holds(after, e) <==> Holds(before, e)
      {
        if Holds(before, e) {
          var i :| 0 <= i < |before| && before[i].expert == e;
          assert after[i].expert == e;
        }
        if Holds(after, e) {
          var i :| 0 <= i < |after| && after[i].expert == e;
          assert before[i].expert == e;
        }
      }
      if source.Some? {
        forall i | 0 <= i < |after|
          ensures Fresh(after[i], source.value, generation, content)
        {
          assert Fresh(before[i], source.value, generation, content);
        }
      }
    }

    /** After a prewarm that failed on no expert, any number of runs over those experts hit
        on all routes and read the prewarmed source's own bytes. */
    method ServeRuns(request: Source, experts: seq<nat>, fills: seq<bool>, runs: seq<seq<nat>>)
      returns (tally: Tally, served: seq<seq<int>>)
      requires Valid() && |fills| == |experts|
      requires forall k :: 0 <= k < |runs| ==> |runs[k]| == ROUTES && RoutesValid(runs[k]) && AllIn(runs[k], experts)
      modifies this
      ensures Valid()
      ensures tally.failed == 0 ==>
                && |served| == |runs|
                && forall k :: 0 <= k < |runs| ==> ReadsFrom(content, request, runs[k], served[k])
    {
      var protected;
      ghost var h;
      tally, protected, h := Prewarm(request, experts, fills);
      served := [];
      if tally.failed == 0 {
        for k := 0 to |runs|
          invariant Valid() && source == Some(request) && |served| == k
          invariant forall e :: e in experts ==> Holds(entries, e)
          invariant forall j :: 0 <= j < k ==> ReadsFrom(content, request, runs[j], served[j])
        {
          var weights := ServeNext(request, runs[k]);
          served := served + [weights];
        }
      }
    }

    /** One run over cached experts. */
    method ServeNext(request: Source, experts: seq<nat>) returns (weights: seq<int>)
      requires Valid() && source == Some(request) && |experts| == ROUTES && RoutesValid(experts)
      requires forall e :: e in experts ==> Holds(entries, e)
      modifies this`entries, this`clock
      ensures Valid() && forall e :: Holds(entries, e) <==> Holds(old(entries), e)
      ensures ReadsFrom(content, request, experts, weights)
    {
      RoutesValidMeans(experts);
      var status, read, _ := Run(request.layer, experts, true, true);
      weights := read;
    }

    /** A run, then a prewarm from the same source: while the clock does not wrap, no entry that the
        run hit is evicted as long as one that it did not hit could go. `used[i]` says whether the
        run hit entry `i`. */
    method RunThenPrewarm(request: Source, routes: seq<nat>, experts: seq<nat>, fills: seq<bool>)
      returns (tally: Tally, ghost used: seq<bool>, ghost before: seq<Entry>, ghost h: History, protected: seq<nat>)
      requires Valid() && Unwrapped() && clock + ROUTES < NEVER && source == Some(request)
      requires |routes| == ROUTES && RoutesValid(routes) && |fills| == |experts|
      modifies this
      ensures Valid() && |before| == |used| == |old(entries)|
      ensures forall i :: 0 <= i < |used| ==> (used[i] <==> old(entries)[i].expert in routes)
      ensures Evolved(before, h, entries, request.layer, protected, Capacity(entryCapacity, byteCapacity))
      ensures forall k :: 0 <= k < |h.evictions| ==> Spares(before, h, used, request.layer, protected, k)
    {
      ghost var first, start := entries, clock;
      RoutesValidMeans(routes);
      ghost var slots;
      var status, weights;
      status, weights, slots := Run(request.layer, routes, true, true);
      before := entries;
      used := seq(|before|, i => i in slots);
      HitByRoutes(first, request, routes, slots);
      var done;
      done, protected, h := Prewarm(request, experts, fills);
      tally := done;
      UsedIsYounger(first, before, slots, start);
      YoungSpared(before, h, entries, used, request.layer, protected, Capacity(entryCapacity, byteCapacity), start);
    }

    lemma HitByRoutes(first: seq<Entry>, request: Source, routes: seq<nat>, slots: seq<int>)
      requires Consistent(first, request, generation, content) && |slots| == |routes|
      requires Lookups(first, request.layer, generation, routes, slots)
      ensures forall i :: 0 <= i < |first| ==> (i in slots <==> first[i].expert in routes)
    {
      forall i | 0 <= i < |first| ensures i in slots <==> first[i].expert in routes {
        assert Fresh(first[i], request, generation, content);
        if i in slots {
          var q :| 0 <= q < |slots| && slots[q] == i;
        }
        if first[i].expert in routes {
          var q :| 0 <= q < |routes| && routes[q] == first[i].expert;
          if slots[q] != i && slots[q] >= 0 {
            assert ExpertsOf(first)[i] == ExpertsOf(first)[slots[q]];
          }
        }
      }
    }
  }

  /** If the `k`-th eviction takes an entry that was used, no entry that was not could go. */
  ghost predicate Spares(before: seq<Entry>, h: History, used: seq<bool>, layer: nat, protected: seq<nat>, k: nat)
    requires k < |h.evictions| && |used| == |before|
  {
    var e := h.evictions[k];
    && e.index < |before| && e.shielded <= |protected|
    && (used[e.index] ==>
          forall i: nat :: i < |before| && !Gone(h.evictions, k, i) && Evictable(before[i], layer, protected[..e.shielded]) ==> used[i])
  }

  lemma YoungSpared(before: seq<Entry>, h: History, entries: seq<Entry>, used: seq<bool>, layer: nat, protected: seq<nat>,
                    capacity: nat, start: nat)
    requires Evolved(before, h, entries, layer, protected, capacity) && |used| == |before|
    requires forall i :: 0 <= i < |before| ==> if used[i] then before[i].lastUse > start else before[i].lastUse <= start
    ensures forall k :: 0 <= k < |h.evictions| ==> Spares(before, h, used, layer, protected, k)
  {
    forall k | 0 <= k < |h.evictions| ensures Spares(before, h, used, layer, protected, k) {
      assert Justified(before, h.evictions, k, layer, protected, capacity);
    }
  }

  /** Entries that a run hit are younger than all that it did not. */
  lemma UsedIsYounger(before: seq<Entry>, after: seq<Entry>, slots: seq<int>, start: nat)
    requires Used(before, after, slots, start, Ticks(start, Hits(slots))) && start + |slots| < WORD
    requires forall i :: 0 <= i < |before| ==> before[i].lastUse <= start
    ensures forall i :: 0 <= i < |after| ==> if i in slots then after[i].lastUse > start else after[i].lastUse <= start
  {
    forall i | 0 <= i < |after| && i in slots ensures after[i].lastUse > start {
      var q :| 0 <= q < |slots| && slots[q] == i;
      HitsBounds(slots, q);
      TicksUnwrapped(start, Hits(slots[..q + 1]));
    }
  }

  lemma HitsBounds(slots: seq<int>, q: nat)
    requires q < |slots| && slots[q] >= 0
    ensures 1 <= Hits(slots[..q + 1]) <= |slots|
  {
    assert slots[..q + 1][..q] == slots[..q];
    HitsAtMost(slots[..q + 1]);
  }

  lemma {:induction false} HitsAtMost(slots: seq<int>)
    ensures Hits(slots) <= |slots|
  {
    if |slots| > 0 {
      HitsAtMost(slots[..|slots| - 1]);
    }
  }
}
