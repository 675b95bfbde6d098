/** The indexed priority queue of records (crates/adb-mdns/src/index_min_pq.rs): a binary
    min-heap on the next-attention time, with a map from record key to heap position. */
module IndexMinPq {
  import opened Wrappers
  import opened Rr

  function Parent(i: nat): nat
    requires i > 0
  {
    (i - 1) / 2
  }

  predicate Ordered(s: seq<RR>, i: nat)
    requires 0 < i < |s|
  {
    s[Parent(i)].attentionNeededOn <= s[i].attentionNeededOn
  }

  ghost predicate HeapOrdered(s: seq<RR>) {
    forall i :: 0 < i < |s| ==> Ordered(s, i)
  }

  /** Heap order up to position `hole`, which may be too small for its place. */
  ghost predicate OrderedAbove(s: seq<RR>, hole: nat) {
    && (forall i :: 0 < i < |s| && i != hole ==> Ordered(s, i))
    && (forall i :: 0 < i < |s| && Parent(i) == hole && hole > 0 ==>
          s[Parent(hole)].attentionNeededOn <= s[i].attentionNeededOn)
  }

  /** Heap order up to position `hole`, which may be too large for its place. */
  ghost predicate OrderedBelow(s: seq<RR>, hole: nat) {
    && (forall i :: 0 < i < |s| && Parent(i) != hole ==> Ordered(s, i))
    && (forall i :: 0 < i < |s| && Parent(i) == hole && 0 < hole < |s| ==>
          s[Parent(hole)].attentionNeededOn <= s[i].attentionNeededOn)
  }

  /** The key-to-position bijection. */
  ghost predicate Indexes(index: map<RRKey, nat>, s: seq<RR>) {
    && (forall i :: 0 <= i < |s| ==> s[i].Key() in index && index[s[i].Key()] == i)
    && (forall k :: k in index ==> index[k] < |s| && s[index[k]].Key() == k)
  }

  ghost function ContentsOf(index: map<RRKey, nat>, s: seq<RR>): (m: map<RRKey, RR>)
    requires Indexes(index, s)
    ensures forall k :: k in m ==> m[k].Key() == k
  {
    map k | k in index :: s[index[k]]
  }

  /** The root of a heap is a minimum. */
  lemma {:induction false} RootIsLeast(s: seq<RR>, i: nat)
    requires HeapOrdered(s) && i < |s|
    ensures s[0].attentionNeededOn <= s[i].attentionNeededOn
  {
    if i > 0 {
      assert Ordered(s, i);
      RootIsLeast(s, Parent(i));
    }
  }

  /** Which of a position and its two children comes first; the position itself on a tie. */
  function Smallest(s: seq<RR>, idx: nat): (m: nat)
    requires idx < |s|
    ensures m < |s| && (m == idx || (m > 0 && Parent(m) == idx && s[m].attentionNeededOn < s[idx].attentionNeededOn))
    ensures forall c :: 0 < c < |s| && Parent(c) == idx ==> s[m].attentionNeededOn <= s[c].attentionNeededOn
  {
    var left, right := 2 * idx + 1, 2 * idx + 2;
    var best := if left < |s| && s[left].attentionNeededOn < s[idx].attentionNeededOn then left else idx;
    assert forall c :: 0 < c < |s| && Parent(c) == idx ==> c == left || c == right;
    if right < |s| && s[right].attentionNeededOn < s[idx].attentionNeededOn
       && s[right].attentionNeededOn < s[best].attentionNeededOn
    then right else best
  }

  lemma NothingIndexed(index: map<RRKey, nat>, s: seq<RR>)
    requires Indexes(index, s) && s == []
    ensures ContentsOf(index, s) == map[]
  {}

  lemma NothingOrdered(s: seq<RR>)
    requires s == []
    ensures HeapOrdered(s)
  {}

  /** The root of an indexed heap, among its contents. */
  lemma RootOf(index: map<RRKey, nat>, s: seq<RR>)
    requires Indexes(index, s) && HeapOrdered(s) && s != []
    ensures var all := ContentsOf(index, s);
            && s[0].Key() in all && all[s[0].Key()] == s[0]
            && forall k :: k in all ==> s[0].attentionNeededOn <= all[k].attentionNeededOn
  {
    hide HeapOrdered;
    forall i | 0 <= i < |s| ensures s[0].attentionNeededOn <= s[i].attentionNeededOn {
      RootIsLeast(s, i);
    }
  }

  /** Taking the last position off. */
  lemma LastRemoved(index: map<RRKey, nat>, s: seq<RR>)
    requires Indexes(index, s) && s != []
    ensures var last := |s| - 1;
            var key := s[last].Key();
            Indexes(index - {key}, s[..last]) && ContentsOf(index - {key}, s[..last]) == ContentsOf(index, s) - {key}
  {}

  class IndexMinPQ {
    var data: seq<RR>
    var index: map<RRKey, nat>

    /** The queue as a map from record key to record. */
    ghost var contents: map<RRKey, RR>

    ghost predicate Indexed()
      reads this
    {
      Indexes(index, data) && contents == ContentsOf(index, data)
    }

    ghost predicate Valid()
      reads this
    {
      Indexed() && HeapOrdered(data)
    }

    constructor ()
      ensures Valid() && contents == map[]
    {
      data, index, contents := [], map[], map[];
    }

    method Clear()
      modifies this
      ensures Valid() && contents == map[]
    {
      data, index, contents := [], map[], map[];
    }

    method Len() returns (n: nat)
      requires Valid()
      ensures n == |contents|
    {
      n := |data|;
      SizeOfIndex(index, data);
      assert contents.Keys == index.Keys;
    }

    method Swap(i: nat, j: nat)
      requires Indexed() && i < |data| && j < |data|
      modifies this
      ensures Indexed() && contents == old(contents)
      ensures data == old(data)[i := old(data[j])][j := old(data[i])]
    {
      index := index[data[i].Key() := j][data[j].Key() := i];
      data := data[i := data[j]][j := data[i]];
      assert contents == ContentsOf(index, data);
    }

    method Swim(start: nat)
      requires Indexed() && start < |data| && OrderedAbove(data, start)
      modifies this
      ensures Valid() && contents == old(contents)
    {
      var idx: nat := start;
      while idx > 0
        invariant idx < |data| && Indexed() && OrderedAbove(data, idx)
        invariant contents == old(contents)
      {
        var parent := Parent(idx);
        if data[idx].attentionNeededOn >= data[parent].attentionNeededOn {
          break;
        }
        ghost var before := data;
        Swap(idx, parent);
        SwimStep(before, data, idx);
        idx := parent;
      }
    }

    method Sink(start: nat)
      requires Indexed() && start < |data| && OrderedBelow(data, start)
      modifies this
      ensures Valid() && contents == old(contents)
    {
      var idx: nat := start;
      while true
        invariant idx < |data| && Indexed() && OrderedBelow(data, idx)
        invariant contents == old(contents)
        decreases |data| - idx
      {
        var smallest := Smallest(data, idx);
        if smallest == idx {
          SinkDone(data, idx);
          break;
        }
        ghost var before := data;
        Swap(idx, smallest);
        SinkStep(before, data, idx, smallest);
        idx := smallest;
      }
    }

    method Push(item: RR)
      requires Valid()
      modifies this
      ensures Valid() && contents == old(contents)[item.Key() := item]
    {
      if item.Key() in index {
        var i := index[item.Key()];
        var previous := data[i].attentionNeededOn;
        Replaced(index, data, item);
        contents := contents[item.Key() := item];
        if item.attentionNeededOn < previous {
          Lowered(data, item, i);
          data := data[i := item];
          Swim(i);
        } else if item.attentionNeededOn > previous {
          Raised(data, item, i);
          data := data[i := item];
          Sink(i);
        } else {
          Lowered(data, item, i);
          Raised(data, item, i);
          data := data[i := item];
          LevelHole(data, i);
        }
      } else {
        Inserted(index, data, item);
        Appended(data, item);
        data, index, contents := data + [item], index[item.Key() := |data|], contents[item.Key() := item];
        Swim(|data| - 1);
      }
    }

    method Pop() returns (top: Option<RR>)
      requires Valid()
      modifies this
      ensures Valid()
      ensures top.None? <==> old(contents) == map[]
      ensures top.None? ==> contents == map[]
      ensures top.Some? ==> var k := top.value.Key();
                k in old(contents) && old(contents)[k] == top.value &&
                contents == old(contents) - {k}
      ensures top.Some? ==> forall k :: k in old(contents) ==>
                top.value.attentionNeededOn <= old(contents)[k].attentionNeededOn
    {
      hide HeapOrdered, OrderedBelow, Indexes;
      if data == [] {
        NothingIndexed(index, data);
        return None;
      }
      RootOf(index, data);
      ghost var before := data;
      var last := |data| - 1;
      Swap(0, last);
      var item := data[last];
      LastRemoved(index, data);
      data := data[..last];
      index, contents := index - {item.Key()}, contents - {item.Key()};
      if data != [] {
        PopHole(before, data);
        Sink(0);
      } else {
        NothingOrdered(data);
      }
      top := Some(item);
    }

    method Peek() returns (top: Option<RR>)
      requires Valid()
      ensures top.None? <==> contents == map[]
      ensures top.Some? ==> top.value.Key() in contents && contents[top.value.Key()] == top.value
      ensures top.Some? ==> forall k :: k in contents ==>
                top.value.attentionNeededOn <= contents[k].attentionNeededOn
    {
      if data == [] {
        return None;
      }
      assert index[data[0].Key()] == 0;
      forall i | 0 <= i < |data| ensures data[0].attentionNeededOn <= data[i].attentionNeededOn {
        RootIsLeast(data, i);
      }
      top := Some(data[0]);
    }

    /** Repeated `Pop` is a sort: every queued record once, by next-attention time. */
    method IntoSortedVec() returns (sorted: seq<RR>)
      requires Valid()
      modifies this
      ensures Valid() && contents == map[]
      ensures forall i, j :: 0 <= i < j < |sorted| ==> sorted[i].attentionNeededOn <= sorted[j].attentionNeededOn
      ensures forall i, j :: 0 <= i < j < |sorted| ==> sorted[i].Key() != sorted[j].Key()
      ensures forall r :: r in sorted <==> r.Key() in old(contents) && old(contents)[r.Key()] == r
    {
      sorted := [];
      while data != []
        invariant Valid()
        invariant SortedSoFar(sorted, contents, old(contents))
        decreases |contents|
      {
        assert data[0].Key() in contents;
        ghost var before := contents;
        var top := Pop();
        SortedStep(sorted, before, old(contents), top.value);
        sorted := sorted + [top.value];
        assert contents.Keys == before.Keys - {top.value.Key()};
      }
      assert contents == map[];
    }
  }

  /** The state of a sort: what was taken out is in order, below what is left, and together they are `all`. */
  ghost predicate SortedSoFar(taken: seq<RR>, left: map<RRKey, RR>, all: map<RRKey, RR>) {
    && (forall i, j :: 0 <= i < j < |taken| ==> taken[i].attentionNeededOn <= taken[j].attentionNeededOn)
    && (forall i, j :: 0 <= i < j < |taken| ==> taken[i].Key() != taken[j].Key())
    && (forall i :: 0 <= i < |taken| ==> taken[i].Key() !in left)
    && (forall i, k :: 0 <= i < |taken| && k in left ==> taken[i].attentionNeededOn <= left[k].attentionNeededOn)
    && (forall k :: k in left ==> left[k].Key() == k)
    && (forall r: RR :: r.Key() in all && all[r.Key()] == r <==>
          r in taken || (r.Key() in left && left[r.Key()] == r))
  }

  lemma SortedStep(taken: seq<RR>, left: map<RRKey, RR>, all: map<RRKey, RR>, top: RR)
    requires SortedSoFar(taken, left, all)
    requires top.Key() in left && left[top.Key()] == top
    requires forall k :: k in left ==> top.attentionNeededOn <= left[k].attentionNeededOn
    ensures SortedSoFar(taken + [top], left - {top.Key()}, all)
  {
    var taken' := taken + [top];
    assert forall i :: 0 <= i < |taken| ==> taken[i].attentionNeededOn <= left[top.Key()].attentionNeededOn;
    assert forall i :: 0 <= i < |taken| ==> taken[i].Key() != top.Key();
    forall r: RR
      ensures r.Key() in all && all[r.Key()] == r <==>
          r in taken' || (r.Key() in left - {top.Key()} && left[r.Key()] == r)
    {
      assert r in taken' <==> r in taken || r == top;
    }
  }

  // ---------- one step of each loop ----------

  lemma SizeOfIndex(index: map<RRKey, nat>, s: seq<RR>)
    requires Indexes(index, s)
    ensures |index| == |s|
  {
    if s == [] {
      assert forall k :: k !in index;
      assert index == map[];
    } else {
      var last := |s| - 1;
      var k := s[last].Key();
      var smaller := index - {k};
      assert Indexes(smaller, s[..last]);
      SizeOfIndex(smaller, s[..last]);
      assert index.Keys == smaller.Keys + {k};
      assert |index| == |index.Keys| && |smaller| == |smaller.Keys|;
    }
  }

  lemma SwimStep(s: seq<RR>, t: seq<RR>, idx: nat)
    requires 0 < idx < |s| && OrderedAbove(s, idx)
    requires s[idx].attentionNeededOn < s[Parent(idx)].attentionNeededOn
    requires t == s[idx := s[Parent(idx)]][Parent(idx) := s[idx]]
    ensures OrderedAbove(t, Parent(idx))
  {
    forall i | 0 < i < |t| && i != Parent(idx) ensures Ordered(t, i) {
      assert i != idx ==> Ordered(s, i);
    }
    var p := Parent(idx);
    forall i | 0 < i < |t| && Parent(i) == p && p > 0
      ensures t[Parent(p)].attentionNeededOn <= t[i].attentionNeededOn
    {
      assert Ordered(s, p);
      assert i != idx ==> Ordered(s, i);
    }
  }

  lemma SinkStep(s: seq<RR>, t: seq<RR>, idx: nat, child: nat)
    requires idx < child < |s| && Parent(child) == idx && OrderedBelow(s, idx)
    requires s[child].attentionNeededOn < s[idx].attentionNeededOn
    requires forall i :: 0 < i < |s| && Parent(i) == idx ==> s[child].attentionNeededOn <= s[i].attentionNeededOn
    requires t == s[idx := s[child]][child := s[idx]]
    ensures OrderedBelow(t, child)
  {
    forall i | 0 < i < |t| && Parent(i) != child ensures Ordered(t, i) {
      assert Parent(i) != idx ==> Ordered(s, i);
    }
    forall i | 0 < i < |t| && Parent(i) == child
      ensures t[Parent(child)].attentionNeededOn <= t[i].attentionNeededOn
    {
      assert Ordered(s, i);
    }
  }

  lemma SinkDone(s: seq<RR>, idx: nat)
    requires idx < |s| && OrderedBelow(s, idx) && Smallest(s, idx) == idx
    ensures HeapOrdered(s)
  {
    forall i | 0 < i < |s| ensures Ordered(s, i) {}
  }

  lemma Lowered(s: seq<RR>, item: RR, hole: nat)
    requires HeapOrdered(s) && hole < |s|
    requires item.attentionNeededOn <= s[hole].attentionNeededOn
    ensures OrderedAbove(s[hole := item], hole)
  {
    var t := s[hole := item];
    forall i | 0 < i < |t| && i != hole ensures Ordered(t, i) {
      assert Ordered(s, i);
    }
    forall i | 0 < i < |t| && Parent(i) == hole && hole > 0
      ensures t[Parent(hole)].attentionNeededOn <= t[i].attentionNeededOn
    {
      assert Ordered(s, i) && Ordered(s, hole);
    }
  }

  lemma Raised(s: seq<RR>, item: RR, hole: nat)
    requires HeapOrdered(s) && hole < |s|
    requires item.attentionNeededOn >= s[hole].attentionNeededOn
    ensures OrderedBelow(s[hole := item], hole)
  {
    var t := s[hole := item];
    forall i | 0 < i < |t| && Parent(i) != hole ensures Ordered(t, i) {
      assert Ordered(s, i);
    }
    forall i | 0 < i < |t| && Parent(i) == hole && 0 < hole
      ensures t[Parent(hole)].attentionNeededOn <= t[i].attentionNeededOn
    {
      assert Ordered(s, i) && Ordered(s, hole);
    }
  }

  lemma LevelHole(s: seq<RR>, hole: nat)
    requires hole < |s| && OrderedAbove(s, hole) && OrderedBelow(s, hole)
    ensures HeapOrdered(s)
  {
    forall i | 0 < i < |s| ensures Ordered(s, i) {}
  }

  lemma Appended(s: seq<RR>, item: RR)
    requires HeapOrdered(s)
    ensures OrderedAbove(s + [item], |s|)
  {
    forall i | 0 < i < |s| ensures Ordered(s + [item], i) {
      assert Ordered(s, i);
    }
  }

  lemma Replaced(index: map<RRKey, nat>, s: seq<RR>, item: RR)
    requires Indexes(index, s) && item.Key() in index
    ensures Indexes(index, s[index[item.Key()] := item])
    ensures ContentsOf(index, s[index[item.Key()] := item]) == ContentsOf(index, s)[item.Key() := item]
  {}

  lemma Inserted(index: map<RRKey, nat>, s: seq<RR>, item: RR)
    requires Indexes(index, s) && item.Key() !in index
    ensures Indexes(index[item.Key() := |s|], s + [item])
    ensures ContentsOf(index[item.Key() := |s|], s + [item]) == ContentsOf(index, s)[item.Key() := item]
  {}

  lemma PopHole(s: seq<RR>, t: seq<RR>)
    requires HeapOrdered(s) && |s| > 1 && t == s[0 := s[|s| - 1]][..|s| - 1]
    ensures OrderedBelow(t, 0)
  {
    forall i | 0 < i < |t| && Parent(i) != 0 ensures Ordered(t, i) {
      assert Ordered(s, i);
    }
  }
}
