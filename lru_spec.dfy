/** Least-recently-used replacement as a textbook definition over tags alone: a set
    is the list of the tags it holds, least recently used first. The slot-scanning,
    pointer-relinking set of the simulator is proved to behave exactly like this. */
module LruSpec {

  /** What one access reports, and the recency list it leaves behind. */
  datatype Access = Access(hit: bool, recency: seq<nat>)

  predicate Distinct(s: seq<nat>)
  {
    forall i, j :: 0 <= i < j < |s| ==> s[i] != s[j]
  }

  /** `s` with every occurrence of `t` removed, the rest in their order. */
  function Without(s: seq<nat>, t: nat): (r: seq<nat>)
    ensures forall x :: x in r <==> x in s && x != t
    ensures |r| <= |s|
    ensures t in s ==> |r| < |s|
  {
    if s == [] then []
    else if s[0] == t then Without(s[1..], t)
    else [s[0]] + Without(s[1..], t)
  }

  /** The list with its element at position p moved to the end. */
  function MoveToBack<T>(s: seq<T>, p: nat): (r: seq<T>)
    requires p < |s|
    ensures |r| == |s| && r[|s| - 1] == s[p]
    ensures forall k :: 0 <= k < p ==> r[k] == s[k]
    ensures forall k :: p <= k < |s| - 1 ==> r[k] == s[k + 1]
  {
    s[..p] + s[p + 1..] + [s[p]]
  }

  /** One access of tag t to a set that holds at most `capacity` tags: a tag held is
      a hit and becomes most recently used; a tag not held is a miss and is added as
      most recently used, evicting the least recently used tag when the set is full. */
  function LruAccess(recency: seq<nat>, t: nat, capacity: nat): (a: Access)
    requires 1 <= capacity && |recency| <= capacity
    ensures 1 <= |a.recency| <= capacity && t in a.recency
  {
    if t in recency then Access(true, Without(recency, t) + [t])
    else if |recency| < capacity then Access(false, recency + [t])
    else Access(false, recency[1..] + [t])
  }

  lemma {:induction false} WithoutAbsent(s: seq<nat>, t: nat)
    requires t !in s
    ensures Without(s, t) == s
  {
    if s != [] {
      WithoutAbsent(s[1..], t);
    }
  }

  /** In a list without repeats, removing the tag at position p leaves the others
      in their order. */
  lemma {:induction false} WithoutAt(s: seq<nat>, p: nat)
    requires Distinct(s) && p < |s|
    ensures Without(s, s[p]) == s[..p] + s[p + 1..]
  {
    if p == 0 {
      assert s[0] !in s[1..];
      WithoutAbsent(s[1..], s[0]);
    } else {
      WithoutAt(s[1..], p - 1);
      assert s[1..][..p - 1] == s[1..p];
      assert s[1..][p..] == s[p + 1..];
      assert s[..p] == [s[0]] + s[1..p];
    }
  }

  lemma MoveToBackDistinct<T>(s: seq<T>, p: nat)
    requires p < |s|
    requires forall i, j :: 0 <= i < j < |s| ==> s[i] != s[j]
    ensures var r := MoveToBack(s, p); forall i, j :: 0 <= i < j < |r| ==> r[i] != r[j]
  {
    var r := MoveToBack(s, p);
    forall i, j | 0 <= i < j < |r|
      ensures r[i] != r[j]
    {
      var i' := if i < p then i else if i < |s| - 1 then i + 1 else p;
      var j' := if j < p then j else if j < |s| - 1 then j + 1 else p;
      assert r[i] == s[i'] && r[j] == s[j'] && i' != j';
    }
  }

  /** An access keeps the list free of repeats and within capacity, ends with the
      tag accessed, and reports a hit exactly when the tag was held. */
  lemma LruAccessInvariant(recency: seq<nat>, t: nat, capacity: nat)
    requires 1 <= capacity && |recency| <= capacity && Distinct(recency)
    ensures var a := LruAccess(recency, t, capacity);
      && (a.hit <==> t in recency)
      && Distinct(a.recency)
      && 1 <= |a.recency| <= capacity
      && a.recency[|a.recency| - 1] == t
      && (forall x :: x in a.recency <==> x == t || (x in recency && (a.hit || |recency| < capacity || x != recency[0])))
  {
    var a := LruAccess(recency, t, capacity);
    if t in recency {
      var p :| 0 <= p < |recency| && recency[p] == t;
      WithoutAt(recency, p);
      MoveToBackDistinct(recency, p);
      assert a.recency == MoveToBack(recency, p);
    } else if |recency| == capacity {
      assert recency == [recency[0]] + recency[1..];
      forall x | x in a.recency
        ensures x == t || (x in recency && x != recency[0])
      {
        if x != t {
          var k :| 0 <= k < |recency| - 1 && recency[1..][k] == x;
          assert recency[k + 1] == x;
        }
      }
    }
  }

  /** Only the least recently used tag can be evicted: a held tag u survives an access
      to another tag unless the set is full, the access misses and u is its LRU tag. */
  lemma OnlyLruEvicted(recency: seq<nat>, t: nat, capacity: nat, u: nat)
    requires 1 <= capacity && |recency| <= capacity && Distinct(recency)
    requires u in recency && u != t
    ensures u in LruAccess(recency, t, capacity).recency
            <==> (t in recency || |recency| < capacity || u != recency[0])
  {
    LruAccessInvariant(recency, t, capacity);
  }

  /** A hit leaves the other tags in their relative order and moves the tag hit to
      the most recently used end; hitting the most recently used tag changes nothing. */
  lemma HitMovesToBack(recency: seq<nat>, p: nat, capacity: nat)
    requires 1 <= capacity && |recency| <= capacity && Distinct(recency) && p < |recency|
    ensures LruAccess(recency, recency[p], capacity) == Access(true, MoveToBack(recency, p))
    ensures p == |recency| - 1 ==> LruAccess(recency, recency[p], capacity).recency == recency
  {
    WithoutAt(recency, p);
  }

  /** Two ways, tags a, b, a, c: miss, miss, hit, and the miss on c evicts b,
      because a was touched after b. */
  lemma TwoWayScenario(a: nat, b: nat, c: nat)
    requires a != b && b != c && a != c
    ensures var r1 := LruAccess([], a, 2);
            var r2 := LruAccess(r1.recency, b, 2);
            var r3 := LruAccess(r2.recency, a, 2);
            var r4 := LruAccess(r3.recency, c, 2);
            !r1.hit && !r2.hit && r3.hit && !r4.hit && r4.recency == [a, c]
  {
    var r2 := LruAccess([a], b, 2);
    assert r2.recency == [a, b];
    var r3 := LruAccess([a, b], a, 2);
    assert Without([a, b], a) == [b] by {
      assert [a, b][1..] == [b];
      WithoutAbsent([b], a);
    }
    assert r3.recency == [b, a];
    assert [b, a][1..] == [a];
  }

  /** Direct-mapped: two tags alternating in one set miss on every access. */
  lemma DirectMappedAlternation(a: nat, b: nat)
    requires a != b
    ensures LruAccess([a], b, 1) == Access(false, [b])
    ensures LruAccess([b], a, 1) == Access(false, [a])
  {
  }
}
