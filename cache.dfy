/** The simulator's cache: 2^indexBits sets of `assoc` lines each, every set with its
    doubly linked recency list, and the access counters. The lines of all sets sit
    in one two-dimensional array (row = set, column = slot) and the list heads and
    tails in two arrays, updated in place as the source updates its structs; each
    method is proved to leave a set exactly as the value-level functions of CacheSet
    say, and hence (by the refinement proved there) as a textbook LRU set. */
module CacheModel {
  import opened CacheConfig
  import opened LruSpec
  import opened CacheSet

  /** The cache's dimensions: index bits, block offset bits and lines per set. */
  datatype Geometry = Geometry(indexBits: nat, offsetBits: nat, assoc: nat)

  /** Tag lists shaped like a cache of geometry g: one list per set, none longer
      than a set. */
  predicate Shaped(g: Geometry, contents: seq<seq<nat>>)
  {
    && g.assoc >= 1
    && |contents| == Pow2(g.indexBits)
    && forall s :: 0 <= s < |contents| ==> |contents[s]| <= g.assoc
  }

  /** The tag lists hold the block of `address`: its tag is in the list of its set. */
  predicate HoldsBlock(g: Geometry, contents: seq<seq<nat>>, address: Word)
    requires Shaped(g, contents)
  {
    Tag(address, g.offsetBits, g.indexBits) in contents[SetIndex(address, g.offsetBits, g.indexBits)]
  }

  /** The tag lists after a textbook LRU access of `address` in its set; afterwards
      they hold the block. */
  function AccessBlock(g: Geometry, contents: seq<seq<nat>>, address: Word): (c: seq<seq<nat>>)
    requires Shaped(g, contents)
    ensures Shaped(g, c) && HoldsBlock(g, c, address)
  {
    var si, t := SetIndex(address, g.offsetBits, g.indexBits), Tag(address, g.offsetBits, g.indexBits);
    contents[si := LruAccess(contents[si], t, g.assoc).recency]
  }

  class Cache {
    const indexBits: nat
    const offsetBits: nat
    const assoc: nat
    /** lines[s, j] is slot j of set s. */
    const lines: array2<Line>
    /** The slot of the head (most recently used line) of each set. */
    const lruHead: array<int>
    /** The slot of the tail (least recently used line) of each set. */
    const lruTail: array<int>
    var cacheAccess: nat
    var cacheHit: nat
    var cacheMiss: nat
    /** For each set, its valid slots from least to most recently used. */
    ghost var order: seq<seq<int>>
    /** The whole cache as a textbook LRU cache: for each set, its tags from least
        to most recently used. */
    ghost var contents: seq<seq<nat>>

    function NumSets(): nat
    {
      Pow2(indexBits)
    }

    /** The arrays have the configured dimensions and do not alias each other. */
    ghost predicate Shape()
    {
      && assoc >= 1
      && lines.Length0 == NumSets() && lines.Length1 == assoc
      && lruHead.Length == NumSets() && lruTail.Length == NumSets()
      && lruHead != lruTail
    }

    /** Set s read off the arrays as a value. */
    ghost function SetAt(s: nat): (st: SetState)
      reads lines, lruHead, lruTail
      requires Shape() && s < NumSets()
      ensures |st.lines| == assoc
    {
      SetState(seq(assoc, j requires 0 <= j < assoc reads lines => lines[s, j]),
               lruHead[s], lruTail[s])
    }

    /** All sets, read off the arrays as values. */
    ghost function Sets(): (c: seq<SetState>)
      reads lines, lruHead, lruTail
      requires Shape()
      ensures |c| == NumSets()
      ensures forall s :: 0 <= s < NumSets() ==> |c[s].lines| == assoc
    {
      SetsBelow(NumSets())
    }

    /** The sets 0 .. n-1 as values. */
    ghost function SetsBelow(n: nat): (c: seq<SetState>)
      reads lines, lruHead, lruTail
      requires Shape() && n <= NumSets()
      ensures |c| == n
      ensures forall s :: 0 <= s < n ==> |c[s].lines| == assoc
    {
      if n == 0 then [] else SetsBelow(n - 1) + [SetAt(n - 1)]
    }

    lemma {:induction false} SetsBelowAt(n: nat)
      requires Shape() && n <= NumSets()
      ensures forall s :: 0 <= s < n ==> SetsBelow(n)[s] == SetAt(s)
      decreases n
    {
      if n > 0 {
        SetsBelowAt(n - 1);
      }
    }

    /** Set s of Sets() is the set read off row s of the arrays. */
    lemma SetsAll()
      requires Shape()
      ensures forall s :: 0 <= s < NumSets() ==> Sets()[s] == SetAt(s)
    {
      SetsBelowAt(NumSets());
    }

    function Geom(): Geometry
    {
      Geometry(indexBits, offsetBits, assoc)
    }

    /** The abstract contents have one tag list per set, none longer than a set. */
    ghost predicate ContentsShaped()
      reads this
    {
      Shaped(Geom(), contents)
    }

    /** Every set keeps the set invariant, the abstract contents are the sets' tags in
        recency order, and every access was counted once as a hit or as a miss. */
    ghost predicate Valid()
      reads this, lines, lruHead, lruTail
    {
      && Shape()
      && AllSetsInv(Sets(), order)
      && contents == AllTags(Sets(), order)
      && ContentsShaped()
      && cacheHit + cacheMiss == cacheAccess
    }

    /** The cache holds the block of `address`: its tag is in its set. */
    ghost predicate Holds(address: Word)
      reads this
      requires ContentsShaped()
    {
      HoldsBlock(Geom(), contents, address)
    }

    /** The contents after a textbook LRU access of `address`. */
    ghost function AfterAccess(address: Word): seq<seq<nat>>
      reads this
      requires ContentsShaped()
    {
      AccessBlock(Geom(), contents, address)
    }

    /** The allocation loop of the initialisation: every set gets `assoc` invalid
        lines with tag 0 and no links, and head and tail both at slot 0. */
    constructor (indexBits: nat, offsetBits: nat, assoc: nat)
      requires assoc >= 1
      ensures this.indexBits == indexBits && this.offsetBits == offsetBits && this.assoc == assoc
      ensures Valid() && fresh(lines) && fresh(lruHead) && fresh(lruTail)
      ensures cacheAccess == 0 && cacheHit == 0 && cacheMiss == 0
      ensures forall s :: 0 <= s < NumSets() ==> SetAt(s) == EmptySet(assoc) && order[s] == []
      ensures |contents| == NumSets() && forall s :: 0 <= s < NumSets() ==> contents[s] == []
    {
      this.indexBits := indexBits;
      this.offsetBits := offsetBits;
      this.assoc := assoc;
      var n := Pow2(indexBits);
      var ls := new Line[n, assoc];
      var heads := new int[n];
      var tails := new int[n];
      var i := 0;
      while i < n
        invariant 0 <= i <= n
        invariant forall s, j :: 0 <= s < i && 0 <= j < assoc ==> ls[s, j] == EMPTY_LINE
        invariant forall s :: 0 <= s < i ==> heads[s] == 0 && tails[s] == 0
      {
        heads[i], tails[i] := 0, 0;
        var j := 0;
        while j < assoc
          invariant 0 <= j <= assoc
          invariant forall s, k :: 0 <= s < i && 0 <= k < assoc ==> ls[s, k] == EMPTY_LINE
          invariant forall k :: 0 <= k < j ==> ls[i, k] == EMPTY_LINE
          invariant forall s :: 0 <= s <= i ==> heads[s] == 0 && tails[s] == 0
        {
          ls[i, j] := EMPTY_LINE;
          j := j + 1;
        }
        i := i + 1;
      }
      lines, lruHead, lruTail := ls, heads, tails;
      cacheAccess, cacheHit, cacheMiss := 0, 0, 0;
      order := seq(n, _ => []);
      contents := seq(n, _ => []);
      new;
      EmptySetInv(assoc);
      SetsAll();
      forall s | 0 <= s < NumSets()
        ensures SetAt(s) == EmptySet(assoc)
      {
        assert SetAt(s).lines == EmptySet(assoc).lines;
      }
    }

    /** Where the lookup loop stops in set s: the first slot that is invalid or holds
        the tag, or assoc when every slot is valid with another tag. */
    method FindSlot(s: nat, tag: nat) returns (i: nat)
      requires Shape() && s < NumSets()
      ensures i == Scan(SetAt(s).lines, tag, 0)
    {
      ghost var ls := SetAt(s).lines;
      i := 0;
      while i < assoc && lines[s, i].valid && lines[s, i].tag != tag
        invariant 0 <= i <= assoc
        invariant Scan(ls, tag, i) == Scan(ls, tag, 0)
        invariant forall j :: 0 <= j < i ==> lines[s, j].valid && lines[s, j].tag != tag
      {
        i := i + 1;
      }
    }

    /** `line->lru_prev = v` on slot j of set `index`. */
    method WritePrev(index: nat, j: nat, v: int)
      requires Shape() && index < NumSets() && j < assoc
      modifies lines
      ensures SetAt(index).lines == SetPrev(old(SetAt(index).lines), j, v)
      ensures forall s, k :: 0 <= s < NumSets() && s != index && 0 <= k < assoc ==>
                lines[s, k] == old(lines[s, k])
    {
      lines[index, j] := lines[index, j].(prev := v);
      assert SetAt(index).lines == SetPrev(old(SetAt(index).lines), j, v);
    }

    /** `line->lru_next = v` on slot j of set `index`. */
    method WriteNext(index: nat, j: nat, v: int)
      requires Shape() && index < NumSets() && j < assoc
      modifies lines
      ensures SetAt(index).lines == SetNext(old(SetAt(index).lines), j, v)
      ensures forall s, k :: 0 <= s < NumSets() && s != index && 0 <= k < assoc ==>
                lines[s, k] == old(lines[s, k])
    {
      lines[index, j] := lines[index, j].(next := v);
      assert SetAt(index).lines == SetNext(old(SetAt(index).lines), j, v);
    }

    /** `line->valid = 1; line->tag = tag` on slot j of set `index`. */
    method WriteTag(index: nat, j: nat, tag: nat)
      requires Shape() && index < NumSets() && j < assoc
      modifies lines
      ensures SetAt(index).lines == old(SetAt(index).lines)[j := old(lines[index, j]).(valid := true, tag := tag)]
      ensures forall s, k :: 0 <= s < NumSets() && s != index && 0 <= k < assoc ==>
                lines[s, k] == old(lines[s, k])
    {
      lines[index, j] := lines[index, j].(valid := true, tag := tag);
      assert SetAt(index).lines == old(SetAt(index).lines)[j := old(lines[index, j]).(valid := true, tag := tag)];
    }

    /** The list surgery of a miss in set `index`, one pointer write per statement.
        `entry` is the slot to fill, or NIL to replace the tail line. */
    method LRUReplaceOnMiss(index: nat, entry: int, tag: nat)
      requires Shape() && index < NumSets()
      requires WellFormed(SetAt(index)) && IsLink(entry, assoc)
      modifies lines, lruHead, lruTail
      ensures SetAt(index) == ReplaceOnMiss(old(SetAt(index)), entry, tag)
      ensures forall s, j :: 0 <= s < NumSets() && s != index && 0 <= j < assoc ==>
                lines[s, j] == old(lines[s, j])
      ensures forall s :: 0 <= s < NumSets() && s != index ==>
                lruHead[s] == old(lruHead[s]) && lruTail[s] == old(lruTail[s])
    {
      ghost var st := SetAt(index);
      ghost var ls := st.lines;
      var line: int;
      if entry == NIL {
        // no unused slot: the tail line is the victim
        line := lruTail[index];
        assert lines[index, line] == st.lines[line];
        if lines[index, line].next != NIL {
          lruTail[index] := lines[index, line].next;
          WritePrev(index, lruTail[index], NIL);
          ls := SetPrev(ls, st.lines[st.tail].next, NIL);
        }
      } else {
        line := entry;
      }
      assert SetAt(index).lines == ls;
      WriteTag(index, line, tag);
      ls := ls[line := ls[line].(valid := true, tag := tag)];
      assert SetAt(index).lines == ls;
      if line != lruHead[index] {
        var hd := lruHead[index];
        WriteNext(index, hd, line);
        ls := SetNext(ls, hd, line);
        WritePrev(index, line, hd);
        ls := SetPrev(ls, line, hd);
        WriteNext(index, line, NIL);
        ls := SetNext(ls, line, NIL);
        lruHead[index] := line;
      }
      assert SetAt(index).lines == ls;
    }

    /** The list surgery of a hit on slot `entry` of set `index`, one pointer write
        per statement: a line that is not the head is unlinked and relinked as head. */
    method LRUUpdateOnHit(index: nat, entry: nat)
      requires Shape() && index < NumSets()
      requires WellFormed(SetAt(index)) && entry < assoc
      modifies lines, lruHead, lruTail
      ensures SetAt(index) == UpdateOnHit(old(SetAt(index)), entry)
      ensures forall s, j :: 0 <= s < NumSets() && s != index && 0 <= j < assoc ==>
                lines[s, j] == old(lines[s, j])
      ensures forall s :: 0 <= s < NumSets() && s != index ==>
                lruHead[s] == old(lruHead[s]) && lruTail[s] == old(lruTail[s])
    {
      ghost var st := SetAt(index);
      ghost var ls := st.lines;
      assert lines[index, entry] == st.lines[entry];
      if lines[index, entry].next != NIL {
        var nx := lines[index, entry].next;
        WritePrev(index, nx, lines[index, entry].prev);
        ls := SetPrev(ls, nx, ls[entry].prev);
        assert lines[index, entry] == SetAt(index).lines[entry] == ls[entry];
        if lines[index, entry].prev != NIL {
          WriteNext(index, lines[index, entry].prev, lines[index, entry].next);
          ls := SetNext(ls, ls[entry].prev, ls[entry].next);
        } else {
          // the tail and not the head: the tail moves on
          lruTail[index] := lines[index, entry].next;
          WritePrev(index, lruTail[index], NIL);
          ls := SetPrev(ls, ls[entry].next, NIL);
        }
        assert SetAt(index).lines == ls;
        var hd := lruHead[index];
        WriteNext(index, hd, entry);
        ls := SetNext(ls, hd, entry);
        WritePrev(index, entry, hd);
        ls := SetPrev(ls, entry, hd);
        WriteNext(index, entry, NIL);
        ls := SetNext(ls, entry, NIL);
        lruHead[index] := entry;
      }
      assert SetAt(index).lines == ls;
    }

    /** One access of the cache at `address`: split the address into set index and
        tag and access that set. The access is the textbook LRU access on the set's
        tags, and no other set changes. */
    method TrapAddress(address: Word) returns (hit: bool)
      requires Valid()
      modifies this, lines, lruHead, lruTail
      ensures Valid()
      ensures cacheAccess == old(cacheAccess) + 1
      ensures cacheHit == old(cacheHit) + (if hit then 1 else 0)
      ensures cacheMiss == old(cacheMiss) + (if hit then 0 else 1)
      ensures hit == old(Holds(address)) && contents == old(AfterAccess(address))
      ensures Holds(address)
    {
      var index := SetIndex(address, offsetBits, indexBits);
      var tag := Tag(address, offsetBits, indexBits);
      ghost var sets0, order0 := Sets(), order;
      order := order0[index := NextOrder(sets0[index], order0[index], tag)];
      SetsAll();
      hit := Access(index, tag);
      AccessCacheCorrect(sets0, order0, index, tag);
      contents := AllTags(Sets(), order);
    }

    /** The access of set `index` with `tag`: count the access, scan the set's slots
        in order, and on a valid line with the tag count a hit and move the line to
        the head; on the first invalid slot, or failing that on the tail line, count
        a miss and install the tag there as head. */
    method Access(index: nat, tag: nat) returns (hit: bool)
      requires Shape() && index < NumSets() && WellFormed(SetAt(index))
      modifies this, lines, lruHead, lruTail
      ensures cacheAccess == old(cacheAccess) + 1
      ensures cacheHit == old(cacheHit) + (if hit then 1 else 0)
      ensures cacheMiss == old(cacheMiss) + (if hit then 0 else 1)
      ensures order == old(order) && contents == old(contents)
      ensures hit == AccessSet(old(SetAt(index)), tag).hit
      ensures Sets() == old(Sets())[index := AccessSet(old(SetAt(index)), tag).after]
    {
      cacheAccess := cacheAccess + 1;
      var i := FindSlot(index, tag);
      if i < assoc && lines[index, i].valid {
        cacheHit := cacheHit + 1;
        hit := true;
      } else {
        cacheMiss := cacheMiss + 1;
        hit := false;
      }
      Relink(index, tag, i);
    }

    /** The list surgery that follows the scan of set `index`, which stopped at slot
        i: a hit moves that line to the head; a miss fills the first invalid slot, or
        replaces the tail line when there is none. */
    method Relink(index: nat, tag: nat, i: nat)
      requires Shape() && index < NumSets() && WellFormed(SetAt(index))
      requires i == Scan(SetAt(index).lines, tag, 0)
      modifies lines, lruHead, lruTail
      ensures Sets() == old(Sets())[index := AccessSet(old(SetAt(index)), tag).after]
    {
      ghost var sets0 := Sets();
      SetsAll();
      if i < assoc && lines[index, i].valid {
        LRUUpdateOnHit(index, i);
      } else if i < assoc {
        // the first unused slot: stop searching
        LRUReplaceOnMiss(index, i, tag);
      } else {
        // every slot valid with another tag: replace the least recently used
        LRUReplaceOnMiss(index, NIL, tag);
      }
      OtherSetsUnchanged(index);
      OneSetChanged(index, sets0, SetAt(index));
    }

    /** When the arrays' row `index` holds `st` and every other row holds what
        `sets0` says, the sets are `sets0` with set `index` replaced. */
    lemma OneSetChanged(index: nat, sets0: seq<SetState>, st: SetState)
      requires Shape() && index < NumSets() && |sets0| == NumSets()
      requires SetAt(index) == st
      requires forall s :: 0 <= s < NumSets() && s != index ==> SetAt(s) == sets0[s]
      ensures Sets() == sets0[index := st]
    {
      SetsAll();
    }

    /** Writes confined to the row of set `index` leave every other set as it was. */
    twostate lemma OtherSetsUnchanged(index: nat)
      requires Shape() && index < NumSets()
      requires forall s, j :: 0 <= s < NumSets() && s != index && 0 <= j < assoc ==>
                 lines[s, j] == old(lines[s, j])
      requires forall s :: 0 <= s < NumSets() && s != index ==>
                 lruHead[s] == old(lruHead[s]) && lruTail[s] == old(lruTail[s])
      ensures forall s :: 0 <= s < NumSets() && s != index ==> SetAt(s) == old(SetAt(s))
    {
      forall s | 0 <= s < NumSets() && s != index
        ensures SetAt(s) == old(SetAt(s))
      {
        assert SetAt(s).lines == old(SetAt(s)).lines;
      }
    }
  }
}
