/** One set of the cache as a value: its lines in physical slot order, each with a
    valid bit, a tag and the two links of the recency list, plus the slots of the
    list's head (most recently used) and tail (least recently used). The functions
    below follow the source's lookup and list surgery statement by statement, with
    slot numbers standing for the line pointers and NIL for NULL. */
module CacheSet {
  import opened LruSpec

  const NIL: int := -1

  /** A cache line: `prev` links towards the tail, `next` towards the head. */
  datatype Line = Line(valid: bool, tag: nat, prev: int, next: int)

  const EMPTY_LINE: Line := Line(false, 0, NIL, NIL)

  datatype SetState = SetState(lines: seq<Line>, head: int, tail: int)

  /** What a lookup in one set reports, and the set it leaves behind. */
  datatype Probe = Probe(hit: bool, after: SetState)

  predicate IsLink(v: int, n: int)
  {
    v == NIL || 0 <= v < n
  }

  /** Every link of every line names a slot of the set or is NIL. */
  predicate LinksInRange(ls: seq<Line>)
  {
    forall j :: 0 <= j < |ls| ==> IsLink(ls[j].prev, |ls|) && IsLink(ls[j].next, |ls|)
  }

  /** Every stored slot number names a slot of the set (no dangling pointer). */
  predicate WellFormed(st: SetState)
  {
    && |st.lines| >= 1
    && 0 <= st.head < |st.lines| && 0 <= st.tail < |st.lines|
    && LinksInRange(st.lines)
  }

  /** A freshly allocated set: every line invalid with tag 0 and no links, and head
      and tail both at slot 0 although that line is not valid yet. */
  function EmptySet(assoc: nat): (st: SetState)
    requires assoc >= 1
    ensures WellFormed(st) && |st.lines| == assoc
  {
    SetState(seq(assoc, _ => EMPTY_LINE), 0, 0)
  }

  /** `line->lru_prev = v` on the line in slot j; nothing else changes. */
  function SetPrev(ls: seq<Line>, j: int, v: int): (r: seq<Line>)
    requires 0 <= j < |ls|
    ensures |r| == |ls| && r[j].prev == v
    ensures forall k :: 0 <= k < |ls| ==>
              r[k].valid == ls[k].valid && r[k].tag == ls[k].tag && r[k].next == ls[k].next
    ensures forall k :: 0 <= k < |ls| && k != j ==> r[k] == ls[k]
    ensures LinksInRange(ls) && IsLink(v, |ls|) ==> LinksInRange(r)
  {
    ls[j := ls[j].(prev := v)]
  }

  /** `line->lru_next = v` on the line in slot j; nothing else changes. */
  function SetNext(ls: seq<Line>, j: int, v: int): (r: seq<Line>)
    requires 0 <= j < |ls|
    ensures |r| == |ls| && r[j].next == v
    ensures forall k :: 0 <= k < |ls| ==>
              r[k].valid == ls[k].valid && r[k].tag == ls[k].tag && r[k].prev == ls[k].prev
    ensures forall k :: 0 <= k < |ls| && k != j ==> r[k] == ls[k]
    ensures LinksInRange(ls) && IsLink(v, |ls|) ==> LinksInRange(r)
  {
    ls[j := ls[j].(next := v)]
  }

  /** The list surgery on a hit in slot `entry`: unless the line is already the
      head, unlink it (moving the tail when it was the tail) and relink it as head. */
  function UpdateOnHit(st: SetState, entry: nat): (r: SetState)
    requires WellFormed(st) && entry < |st.lines|
    ensures WellFormed(r) && |r.lines| == |st.lines|
    ensures forall j :: 0 <= j < |st.lines| ==>
              r.lines[j].valid == st.lines[j].valid && r.lines[j].tag == st.lines[j].tag
  {
    var ls0 := st.lines;
    if ls0[entry].next == NIL then st
    else
      // line->lru_next->lru_prev = line->lru_prev
      var ls1 := SetPrev(ls0, ls0[entry].next, ls0[entry].prev);
      // line->lru_prev->lru_next = line->lru_next, or, for the tail, move the tail on
      var hadPrev := ls1[entry].prev != NIL;
      var ls2 := if hadPrev then SetNext(ls1, ls1[entry].prev, ls1[entry].next)
                 else SetPrev(ls1, ls1[entry].next, NIL);
      var tail := if hadPrev then st.tail else ls1[entry].next;
      // relink as head
      var ls3 := SetNext(ls2, st.head, entry);
      var ls4 := SetNext(SetPrev(ls3, entry, st.head), entry, NIL);
      SetState(ls4, entry, tail)
  }

  /** The list surgery on a miss. `entry` is the first invalid slot, or NIL when the
      set is full, in which case the tail line is the victim and the tail moves to
      its successor (when it has one). The line chosen becomes valid with the new
      tag and, unless it already is the head, is relinked as head. */
  function ReplaceOnMiss(st: SetState, entry: int, tag: nat): (r: SetState)
    requires WellFormed(st) && IsLink(entry, |st.lines|)
    ensures WellFormed(r) && |r.lines| == |st.lines|
    ensures var line := if entry == NIL then st.tail else entry;
      r.lines[line].valid && r.lines[line].tag == tag
  {
    var line := if entry == NIL then st.tail else entry;
    // a victim with a successor hands the tail on to it
    var moveTail := entry == NIL && st.lines[st.tail].next != NIL;
    var ls1 := if moveTail then SetPrev(st.lines, st.lines[st.tail].next, NIL) else st.lines;
    var tail := if moveTail then st.lines[st.tail].next else st.tail;
    var ls2 := ls1[line := ls1[line].(valid := true, tag := tag)];
    if line != st.head then
      var ls3 := SetNext(ls2, st.head, line);
      var ls4 := SetNext(SetPrev(ls3, line, st.head), line, NIL);
      SetState(ls4, line, tail)
    else SetState(ls2, st.head, tail)
  }

  /** Where the lookup loop stops when it resumes at slot i: the first slot from i on
      that is invalid or holds the tag, or |lines| when every such slot is valid
      with another tag. */
  function Scan(lines: seq<Line>, tag: nat, i: nat): (k: nat)
    requires i <= |lines|
    ensures i <= k <= |lines|
    ensures forall j :: i <= j < k ==> lines[j].valid && lines[j].tag != tag
    ensures k < |lines| ==> !lines[k].valid || lines[k].tag == tag
    decreases |lines| - i
  {
    if i == |lines| then i
    else if !lines[i].valid || lines[i].tag == tag then i
    else Scan(lines, tag, i + 1)
  }

  /** One lookup of a tag in one set: scan the slots in physical order; a valid line
      with the tag is a hit, the first invalid line is filled, and a set whose lines
      are all valid with other tags replaces its LRU line. */
  function AccessSet(st: SetState, tag: nat): (r: Probe)
    requires WellFormed(st)
    ensures WellFormed(r.after) && |r.after.lines| == |st.lines|
  {
    var i := Scan(st.lines, tag, 0);
    if i == |st.lines| then Probe(false, ReplaceOnMiss(st, NIL, tag))
    else if st.lines[i].valid then Probe(true, UpdateOnHit(st, i))
    else Probe(false, ReplaceOnMiss(st, i, tag))
  }

  // ---------------------------------------------------------------------------
  // The set invariant. `order` lists the valid slots from the tail (least recently
  // used) to the head (most recently used).

  /** `order` lists the slots 0 .. |order|-1, each exactly once. */
  ghost predicate IsRecencyOrder(order: seq<int>)
  {
    && (forall k :: 0 <= k < |order| ==> 0 <= order[k] < |order|)
    && (forall k, k' :: 0 <= k < k' < |order| ==> order[k] != order[k'])
    && (forall j :: 0 <= j < |order| ==> j in order)
  }

  /** The recency list, read from tail to head through the `next` links (and back
      through the `prev` links), visits exactly the slots of `order`. */
  ghost predicate Chained(st: SetState, order: seq<int>)
    requires forall k :: 0 <= k < |order| ==> 0 <= order[k] < |st.lines|
  {
    var n := |order|;
    && (n == 0 ==> st.head == 0 && st.tail == 0)
    && (n > 0 ==> st.tail == order[0] && st.head == order[n - 1]
                  && st.lines[order[0]].prev == NIL && st.lines[order[n - 1]].next == NIL)
    && (forall k :: 0 <= k < n - 1 ==>
          st.lines[order[k]].next == order[k + 1] && st.lines[order[k + 1]].prev == order[k])
  }

  ghost predicate SetInv(st: SetState, order: seq<int>)
  {
    var n := |order|;
    var ls := st.lines;
    && WellFormed(st)
    && n <= |ls|
    && IsRecencyOrder(order)
    // valid lines form a prefix of the set, the other lines are unlinked
    && (forall j :: 0 <= j < |ls| ==> (ls[j].valid <==> j < n))
    && (forall j :: n <= j < |ls| ==> ls[j].prev == NIL && ls[j].next == NIL)
    // valid tags are pairwise distinct
    && (forall j, j' :: 0 <= j < j' < n ==> ls[j].tag != ls[j'].tag)
    && Chained(st, order)
  }

  /** The tags of the valid lines, least recently used first. */
  ghost function TagsOf(st: SetState, order: seq<int>): (tags: seq<nat>)
    requires forall k :: 0 <= k < |order| ==> 0 <= order[k] < |st.lines|
    ensures |tags| == |order|
  {
    seq(|order|, k requires 0 <= k < |order| => st.lines[order[k]].tag)
  }

  lemma EmptySetInv(assoc: nat)
    requires assoc >= 1
    ensures SetInv(EmptySet(assoc), [])
  {
  }

  /** Under the invariant the tags list has no repeats. */
  lemma TagsDistinct(st: SetState, order: seq<int>)
    requires SetInv(st, order)
    ensures Distinct(TagsOf(st, order))
  {
    var tags := TagsOf(st, order);
    forall i, j | 0 <= i < j < |tags|
      ensures tags[i] != tags[j]
    {
      var a, b := order[i], order[j];
      assert a != b;
      if a < b {
        assert st.lines[a].tag != st.lines[b].tag;
      } else {
        assert st.lines[b].tag != st.lines[a].tag;
      }
    }
  }

  /** A tag is among the tags list exactly when some valid line carries it. */
  lemma TagsOfMembership(st: SetState, order: seq<int>, t: nat)
    requires SetInv(st, order)
    ensures t in TagsOf(st, order) <==> exists j :: 0 <= j < |order| && st.lines[j].tag == t
  {
    var tags := TagsOf(st, order);
    if t in tags {
      var k :| 0 <= k < |tags| && tags[k] == t;
      assert st.lines[order[k]].tag == t;
    }
    if j :| 0 <= j < |order| && st.lines[j].tag == t {
      assert j in order;
      var k :| 0 <= k < |order| && order[k] == j;
      assert tags[k] == t;
    }
  }

  lemma MoveToBackRecencyOrder(order: seq<int>, p: nat)
    requires IsRecencyOrder(order) && p < |order|
    ensures IsRecencyOrder(MoveToBack(order, p))
  {
    var n, o' := |order|, MoveToBack(order, p);
    MoveToBackDistinct(order, p);
    forall j | 0 <= j < n
      ensures j in o'
    {
      assert j in order;
      var k :| 0 <= k < n && order[k] == j;
      if k < p {
        assert o'[k] == j;
      } else if k == p {
        assert o'[n - 1] == j;
      } else {
        assert o'[k - 1] == j;
      }
    }
  }

  lemma AppendRecencyOrder(order: seq<int>)
    requires IsRecencyOrder(order)
    ensures IsRecencyOrder(order + [|order|])
  {
    var n, o' := |order|, order + [|order|];
    forall j | 0 <= j < n + 1
      ensures j in o'
    {
      if j < n {
        assert j in order;
      } else {
        assert o'[n] == j;
      }
    }
  }

  // ---------------------------------------------------------------------------
  // Hit

  /** The links of r are those of st after moving the line at recency position p
      (not the head) to the head: its neighbours are joined and the old head points
      on to it. */
  ghost predicate HitRelinked(st: SetState, r: SetState, order: seq<int>, p: nat)
    requires SetInv(st, order) && p < |order| - 1
  {
    var e, nx, hd := order[p], order[p + 1], order[|order| - 1];
    var pv := if p > 0 then order[p - 1] else NIL;
    && |r.lines| == |st.lines|
    && r.head == e && r.tail == (if p > 0 then st.tail else nx)
    && forall j :: 0 <= j < |st.lines| ==>
         && r.lines[j].valid == st.lines[j].valid && r.lines[j].tag == st.lines[j].tag
         && r.lines[j].prev == (if j == e then hd else if j == nx then pv else st.lines[j].prev)
         && r.lines[j].next == (if j == e then NIL else if j == hd then e
                                else if p > 0 && j == pv then nx else st.lines[j].next)
  }

  lemma HitLinks(st: SetState, order: seq<int>, p: nat)
    requires SetInv(st, order) && p < |order| - 1
    ensures HitRelinked(st, UpdateOnHit(st, order[p]), order, p)
  {
    var n, e, nx, hd := |order|, order[p], order[p + 1], order[|order| - 1];
    var ls := st.lines;
    assert ls[e].next == nx;
    assert e != nx && e != hd;
    if p > 0 {
      assert ls[e].prev == order[p - 1];
      assert order[p - 1] != hd && order[p - 1] != e;
    } else {
      assert ls[e].prev == NIL;
    }
  }

  /** Relinking as HitRelinked describes chains the slots in the moved order. */
  lemma HitRelinkedInv(st: SetState, r: SetState, order: seq<int>, p: nat)
    requires SetInv(st, order) && p < |order| - 1
    requires WellFormed(r) && HitRelinked(st, r, order, p)
    ensures SetInv(r, MoveToBack(order, p))
  {
    var n, e, nx, hd := |order|, order[p], order[p + 1], order[|order| - 1];
    var o' := MoveToBack(order, p);
    MoveToBackRecencyOrder(order, p);
    forall j | n <= j < |st.lines|
      ensures r.lines[j].prev == NIL && r.lines[j].next == NIL
    {
      assert j !in order;
    }
    forall k | 0 <= k < n - 1
      ensures r.lines[o'[k]].next == o'[k + 1] && r.lines[o'[k + 1]].prev == o'[k]
    {
      if k < p - 1 {
        assert o'[k] == order[k] && o'[k + 1] == order[k + 1];
      } else if k == p - 1 {
        assert o'[k] == order[p - 1] && o'[k + 1] == nx;
      } else if k < n - 2 {
        assert o'[k] == order[k + 1] && o'[k + 1] == order[k + 2];
      } else {
        assert o'[k] == hd && o'[k + 1] == e;
      }
    }
  }

  /** A hit on the line at recency position p (slot order[p]) keeps the invariant,
      with that slot moved to the most recently used end of the list. */
  lemma HitKeepsInv(st: SetState, order: seq<int>, p: nat)
    requires SetInv(st, order) && p < |order|
    ensures SetInv(UpdateOnHit(st, order[p]), MoveToBack(order, p))
  {
    if p == |order| - 1 {
      assert MoveToBack(order, p) == order;
    } else {
      HitLinks(st, order, p);
      HitRelinkedInv(st, UpdateOnHit(st, order[p]), order, p);
    }
  }

  // ---------------------------------------------------------------------------
  // Miss into the first invalid slot

  /** Filling the first invalid slot with a tag no valid line holds keeps the
      invariant, with the filled slot appended as most recently used; no other
      line changes its valid bit or tag. */
  lemma FillKeepsInv(st: SetState, order: seq<int>, tag: nat)
    requires SetInv(st, order) && |order| < |st.lines|
    requires forall j :: 0 <= j < |order| ==> st.lines[j].tag != tag
    ensures var r := ReplaceOnMiss(st, |order|, tag);
      && SetInv(r, order + [|order|])
      && r.head == |order|
      && r.lines[|order|].valid && r.lines[|order|].tag == tag
      && forall j :: 0 <= j < |st.lines| && j != |order| ==>
           r.lines[j].valid == st.lines[j].valid && r.lines[j].tag == st.lines[j].tag
  {
    var n := |order|;
    var r := ReplaceOnMiss(st, n, tag);
    AppendRecencyOrder(order);
    if n > 0 {
      FillLinks(st, order, tag);
      FillRelinkedInv(st, r, order, tag);
    }
  }

  /** The links of r are those of st after the first invalid slot, filled with
      `tag`, was linked in as head behind the old head. */
  ghost predicate FillRelinked(st: SetState, r: SetState, order: seq<int>, tag: nat)
    requires SetInv(st, order) && 0 < |order| < |st.lines|
  {
    var n, hd := |order|, order[|order| - 1];
    && |r.lines| == |st.lines|
    && r.head == n && r.tail == st.tail
    && forall j :: 0 <= j < |st.lines| ==>
         r.lines[j] == (if j == n then Line(true, tag, hd, NIL)
                        else if j == hd then st.lines[j].(next := n)
                        else st.lines[j])
  }

  lemma FillLinks(st: SetState, order: seq<int>, tag: nat)
    requires SetInv(st, order) && 0 < |order| < |st.lines|
    ensures FillRelinked(st, ReplaceOnMiss(st, |order|, tag), order, tag)
  {
    assert order[|order| - 1] != |order|;
  }

  lemma FillRelinkedInv(st: SetState, r: SetState, order: seq<int>, tag: nat)
    requires SetInv(st, order) && 0 < |order| < |st.lines|
    requires forall j :: 0 <= j < |order| ==> st.lines[j].tag != tag
    requires WellFormed(r) && FillRelinked(st, r, order, tag)
    requires IsRecencyOrder(order + [|order|])
    ensures SetInv(r, order + [|order|])
  {
    var n := |order|;
    var o' := order + [n];
    forall k | 0 <= k < n
      ensures r.lines[o'[k]].next == o'[k + 1] && r.lines[o'[k + 1]].prev == o'[k]
    {
      if k < n - 1 {
        assert o'[k] == order[k] && o'[k + 1] == order[k + 1];
      }
    }
    assert Chained(r, o');
  }

  // ---------------------------------------------------------------------------
  // Miss in a full set

  /** The links of r are those of the full set st after its tail line (retagged)
      became head: the tail's successor is the new tail, the old head points on to
      the retagged line. */
  ghost predicate EvictRelinked(st: SetState, r: SetState, order: seq<int>, tag: nat)
    requires SetInv(st, order) && |order| == |st.lines| >= 2
  {
    var v, nx, hd := order[0], order[1], order[|order| - 1];
    && |r.lines| == |st.lines|
    && r.head == v && r.tail == nx
    && forall j :: 0 <= j < |st.lines| ==>
         r.lines[j] == (if j == v then Line(true, tag, hd, NIL)
                        else if j == nx && j == hd then st.lines[j].(prev := NIL, next := v)
                        else if j == nx then st.lines[j].(prev := NIL)
                        else if j == hd then st.lines[j].(next := v)
                        else st.lines[j])
  }

  lemma EvictLinks(st: SetState, order: seq<int>, tag: nat)
    requires SetInv(st, order) && |order| == |st.lines| >= 2
    ensures EvictRelinked(st, ReplaceOnMiss(st, NIL, tag), order, tag)
  {
    var v, nx, hd := order[0], order[1], order[|order| - 1];
    assert st.lines[v].next == nx;
    assert v != nx && v != hd;
  }

  lemma EvictRelinkedInv(st: SetState, r: SetState, order: seq<int>, tag: nat)
    requires SetInv(st, order) && |order| == |st.lines| >= 2
    requires forall j :: 0 <= j < |order| ==> st.lines[j].tag != tag
    requires WellFormed(r) && EvictRelinked(st, r, order, tag)
    ensures SetInv(r, MoveToBack(order, 0))
  {
    var n, v, nx, hd := |order|, order[0], order[1], order[|order| - 1];
    var o' := MoveToBack(order, 0);
    MoveToBackRecencyOrder(order, 0);
    forall k | 0 <= k < n - 1
      ensures r.lines[o'[k]].next == o'[k + 1] && r.lines[o'[k + 1]].prev == o'[k]
    {
      if k < n - 2 {
        assert o'[k] == order[k + 1] && o'[k + 1] == order[k + 2];
      } else {
        assert o'[k] == hd && o'[k + 1] == v;
      }
    }
    EvictTagsDistinct(st, r, order, tag);
  }

  lemma EvictTagsDistinct(st: SetState, r: SetState, order: seq<int>, tag: nat)
    requires SetInv(st, order) && |order| == |st.lines| >= 2
    requires forall j :: 0 <= j < |order| ==> st.lines[j].tag != tag
    requires EvictRelinked(st, r, order, tag)
    ensures forall j, j' :: 0 <= j < j' < |order| ==> r.lines[j].tag != r.lines[j'].tag
  {
    var v := order[0];
    forall j, j' | 0 <= j < j' < |order|
      ensures r.lines[j].tag != r.lines[j'].tag
    {
      if j != v && j' != v {
        assert st.lines[j].tag != st.lines[j'].tag;
      }
    }
  }

  /** Replacing in a full set keeps the invariant: only the former tail line is
      retagged (and stays valid), and it becomes the most recently used. */
  lemma EvictKeepsInv(st: SetState, order: seq<int>, tag: nat)
    requires SetInv(st, order) && |order| == |st.lines|
    requires forall j :: 0 <= j < |order| ==> st.lines[j].tag != tag
    ensures var r := ReplaceOnMiss(st, NIL, tag);
      && SetInv(r, MoveToBack(order, 0))
      && r.head == order[0]
      && r.lines[order[0]].valid && r.lines[order[0]].tag == tag
      && forall j :: 0 <= j < |st.lines| && j != order[0] ==>
           r.lines[j].valid == st.lines[j].valid && r.lines[j].tag == st.lines[j].tag
  {
    var r := ReplaceOnMiss(st, NIL, tag);
    if |order| == 1 {
      assert MoveToBack(order, 0) == order;
      assert r.lines == st.lines[order[0] := st.lines[order[0]].(valid := true, tag := tag)];
    } else {
      EvictLinks(st, order, tag);
      EvictRelinkedInv(st, r, order, tag);
    }
  }

  // ---------------------------------------------------------------------------
  // A whole lookup

  /** Because valid lines form a prefix, the scan stops at a valid line only when it
      holds the tag, stops at the first invalid slot otherwise, and never passes an
      invalid slot: a valid line with the tag is always found. */
  lemma ScanUnderInv(st: SetState, order: seq<int>, tag: nat)
    requires SetInv(st, order)
    ensures var i := Scan(st.lines, tag, 0);
      && i <= |order|
      && (i < |order| <==> exists j :: 0 <= j < |order| && st.lines[j].tag == tag)
      && (i < |order| ==> st.lines[i].valid && st.lines[i].tag == tag)
      && (i == |order| && i < |st.lines| ==> !st.lines[i].valid)
  {
    assert |order| < |st.lines| ==> !st.lines[|order|].valid;
  }

  /** The recency order after a lookup of `tag`. */
  ghost function NextOrder(st: SetState, order: seq<int>, tag: nat): (o: seq<int>)
    requires SetInv(st, order)
    ensures |o| <= |st.lines|
  {
    var i := Scan(st.lines, tag, 0);
    ScanUnderInv(st, order, tag);
    if i == |st.lines| then MoveToBack(order, 0)
    else if st.lines[i].valid then
      assert i in order;
      var p :| 0 <= p < |order| && order[p] == i;
      MoveToBack(order, p)
    else order + [i]
  }

  /** A lookup keeps the set invariant. */
  lemma AccessSetKeepsInv(st: SetState, order: seq<int>, tag: nat)
    requires SetInv(st, order)
    ensures SetInv(AccessSet(st, tag).after, NextOrder(st, order, tag))
  {
    var i := Scan(st.lines, tag, 0);
    ScanUnderInv(st, order, tag);
    if i == |st.lines| {
      EvictKeepsInv(st, order, tag);
    } else if st.lines[i].valid {
      assert i in order;
      var p :| 0 <= p < |order| && order[p] == i;
      HitKeepsInv(st, order, p);
    } else {
      FillKeepsInv(st, order, tag);
    }
  }

  /** Moving a recency position to the back reorders the tags alike when the lines
      keep their tags. */
  lemma TagsOfMoved(st: SetState, r: SetState, order: seq<int>, p: nat)
    requires SetInv(st, order) && p < |order| && |r.lines| == |st.lines|
    requires forall j :: 0 <= j < |st.lines| ==> r.lines[j].tag == st.lines[j].tag
    ensures TagsOf(r, MoveToBack(order, p)) == MoveToBack(TagsOf(st, order), p)
  {
    var t', m := TagsOf(r, MoveToBack(order, p)), MoveToBack(TagsOf(st, order), p);
    forall k | 0 <= k < |m|
      ensures t'[k] == m[k]
    {
    }
  }

  lemma HitRefinesLru(st: SetState, order: seq<int>, p: nat)
    requires SetInv(st, order) && p < |order|
    ensures var tags := TagsOf(st, order);
      TagsOf(UpdateOnHit(st, order[p]), MoveToBack(order, p)) == Without(tags, tags[p]) + [tags[p]]
  {
    TagsDistinct(st, order);
    WithoutAt(TagsOf(st, order), p);
    TagsOfMoved(st, UpdateOnHit(st, order[p]), order, p);
  }

  lemma FillRefinesLru(st: SetState, order: seq<int>, tag: nat)
    requires SetInv(st, order) && |order| < |st.lines|
    requires forall j :: 0 <= j < |order| ==> st.lines[j].tag != tag
    ensures TagsOf(ReplaceOnMiss(st, |order|, tag), order + [|order|]) == TagsOf(st, order) + [tag]
  {
    FillKeepsInv(st, order, tag);
  }

  lemma EvictRefinesLru(st: SetState, order: seq<int>, tag: nat)
    requires SetInv(st, order) && |order| == |st.lines|
    requires forall j :: 0 <= j < |order| ==> st.lines[j].tag != tag
    ensures TagsOf(ReplaceOnMiss(st, NIL, tag), MoveToBack(order, 0)) == TagsOf(st, order)[1..] + [tag]
  {
    EvictKeepsInv(st, order, tag);
    var tags := TagsOf(st, order);
    var r := ReplaceOnMiss(st, NIL, tag);
    var o' := MoveToBack(order, 0);
    forall k | 0 <= k < |order| - 1
      ensures r.lines[o'[k]].tag == tags[k + 1]
    {
      assert o'[k] == order[k + 1];
      assert order[k + 1] != order[0];
    }
  }

  /** The slot-scanning set with its linked recency list is an LRU set: a lookup
      reports a hit exactly when the textbook LRU access does, and leaves the tags,
      read in recency order, exactly as that access leaves its list. */
  lemma AccessSetRefinesLru(st: SetState, order: seq<int>, tag: nat)
    requires SetInv(st, order)
    ensures var probe := AccessSet(st, tag);
            var spec := LruAccess(TagsOf(st, order), tag, |st.lines|);
      && probe.hit == spec.hit
      && TagsOf(probe.after, NextOrder(st, order, tag)) == spec.recency
  {
    var i := Scan(st.lines, tag, 0);
    ScanUnderInv(st, order, tag);
    TagsOfMembership(st, order, tag);
    if i == |st.lines| {
      EvictRefinesLru(st, order, tag);
    } else if st.lines[i].valid {
      assert i in order;
      var p :| 0 <= p < |order| && order[p] == i;
      HitRefinesLru(st, order, p);
    } else {
      FillRefinesLru(st, order, tag);
    }
  }

  /** A lookup keeps the set invariant, reports a hit exactly when the tag is held,
      and leaves the tags as the textbook LRU access does. */
  lemma AccessSetCorrect(st: SetState, order: seq<int>, tag: nat)
    requires SetInv(st, order)
    ensures var probe := AccessSet(st, tag);
            var next := NextOrder(st, order, tag);
      && SetInv(probe.after, next)
      && (probe.hit <==> tag in TagsOf(st, order))
      && TagsOf(probe.after, next) == LruAccess(TagsOf(st, order), tag, |st.lines|).recency
  {
    AccessSetKeepsInv(st, order, tag);
    AccessSetRefinesLru(st, order, tag);
  }

  /** Accessing the same tag twice in a row: the second access always hits. */
  lemma RepeatAccessHits(st: SetState, order: seq<int>, tag: nat)
    requires SetInv(st, order)
    ensures AccessSet(AccessSet(st, tag).after, tag).hit
  {
    var after, next := AccessSet(st, tag).after, NextOrder(st, order, tag);
    AccessSetCorrect(st, order, tag);
    TagsDistinct(st, order);
    LruAccessInvariant(TagsOf(st, order), tag, |st.lines|);
    AccessSetCorrect(after, next, tag);
  }

  /** A lookup of the tag of the most recently used line is a hit that leaves the
      set, links included, and its recency order exactly as they were. */
  lemma HitOnHeadChangesNothing(st: SetState, order: seq<int>, tag: nat)
    requires SetInv(st, order) && |order| > 0 && st.lines[st.head].tag == tag
    ensures AccessSet(st, tag) == Probe(true, st)
    ensures NextOrder(st, order, tag) == order
  {
    var n, i := |order|, Scan(st.lines, tag, 0);
    ScanUnderInv(st, order, tag);
    assert st.head == order[n - 1] < n;
    assert i == st.head;
    assert st.lines[st.head].next == NIL;
    assert i in order;
    var p :| 0 <= p < n && order[p] == i;
    assert p == n - 1;
    assert MoveToBack(order, p) == order;
  }

  /** The first lookup in a fresh set misses and fills slot 0. */
  lemma FreshSetMisses(assoc: nat, tag: nat)
    requires assoc >= 1
    ensures var probe := AccessSet(EmptySet(assoc), tag);
      !probe.hit && probe.after.lines[0] == Line(true, tag, NIL, NIL)
      && probe.after.head == 0 && probe.after.tail == 0
  {
  }

  // ---------------------------------------------------------------------------
  // A whole cache as a sequence of sets, each with its recency order.

  /** Every set keeps the set invariant under its order. */
  ghost predicate AllSetsInv(sets: seq<SetState>, orders: seq<seq<int>>)
  {
    && |sets| == |orders|
    && forall s :: 0 <= s < |sets| ==> SetInv(sets[s], orders[s])
  }

  /** For each set, its tags from least to most recently used. */
  ghost function AllTags(sets: seq<SetState>, orders: seq<seq<int>>): (c: seq<seq<nat>>)
    requires AllSetsInv(sets, orders)
    ensures |c| == |sets|
    ensures forall s :: 0 <= s < |sets| ==> |c[s]| <= |sets[s].lines|
  {
    seq(|sets|, s requires 0 <= s < |sets| => TagsOf(sets[s], orders[s]))
  }

  /** Replacing set `index` and its order changes only that set's tag list. */
  lemma UpdateTags(sets: seq<SetState>, orders: seq<seq<int>>,
                   sets': seq<SetState>, orders': seq<seq<int>>, index: nat)
    requires AllSetsInv(sets, orders) && AllSetsInv(sets', orders')
    requires |sets'| == |sets| && index < |sets|
    requires forall s :: 0 <= s < |sets| && s != index ==> sets'[s] == sets[s] && orders'[s] == orders[s]
    ensures SetInv(sets'[index], orders'[index])
    ensures AllTags(sets', orders') == AllTags(sets, orders)[index := TagsOf(sets'[index], orders'[index])]
  {
    var before, after := AllTags(sets, orders), AllTags(sets', orders');
    assert after == before[index := TagsOf(sets'[index], orders'[index])];
  }

  /** A lookup in set `index` keeps the invariant of every set. */
  lemma AccessCacheKeepsInv(sets: seq<SetState>, orders: seq<seq<int>>, index: nat, tag: nat)
    requires AllSetsInv(sets, orders) && index < |sets|
    ensures SetInv(sets[index], orders[index])
    ensures AllSetsInv(sets[index := AccessSet(sets[index], tag).after],
                       orders[index := NextOrder(sets[index], orders[index], tag)])
  {
    AccessSetKeepsInv(sets[index], orders[index], tag);
  }

  /** A lookup of `tag` in set `index` of a cache keeps every set's invariant, reports
      a hit exactly when that set holds the tag, and changes the cache's tag lists only
      in that set, as the textbook LRU access does. */
  lemma AccessCacheCorrect(sets: seq<SetState>, orders: seq<seq<int>>, index: nat, tag: nat)
    requires AllSetsInv(sets, orders) && index < |sets|
    ensures SetInv(sets[index], orders[index])
    ensures var probe := AccessSet(sets[index], tag);
            var sets' := sets[index := probe.after];
            var orders' := orders[index := NextOrder(sets[index], orders[index], tag)];
            var before := AllTags(sets, orders);
      && AllSetsInv(sets', orders')
      && (probe.hit <==> tag in before[index])
      && AllTags(sets', orders') == before[index := LruAccess(before[index], tag, |sets[index].lines|).recency]
      && tag in AllTags(sets', orders')[index]
  {
    AccessCacheKeepsInv(sets, orders, index, tag);
    var st, o := sets[index], orders[index];
    var sets' := sets[index := AccessSet(st, tag).after];
    var orders' := orders[index := NextOrder(st, o, tag)];
    AccessSetCorrect(st, o, tag);
    UpdateTags(sets, orders, sets', orders', index);
    TagsDistinct(st, o);
    LruAccessInvariant(TagsOf(st, o), tag, |st.lines|);
  }
}
