/**
 The used-integer lists of libudb/range.c: for every owner a sequence of blocks, each standing for
 an interval of used integers, kept sorted, disjoint and non-touching.
 */
module UsedRange {
  import opened Intervals

  type Owner = nat
  type Block = nat
  type Item = nat

  datatype Key = Key(attribute: string, owner: Owner)

  datatype Slot = Slot(key: Key, value: int)

  function BoundsOf(col: seq<Block>, starts: map<Block, int>, ends: map<Block, int>): (s: seq<Interval>)
    requires forall i :: 0 <= i < |col| ==> col[i] in starts && col[i] in ends
  {
    seq(|col|, i requires 0 <= i < |col| => Interval(starts[col[i]], ends[col[i]]))
  }

  ghost predicate NoDup(s: seq<Block>) {
    forall i, j :: 0 <= i < j < |s| ==> s[i] != s[j]
  }

  /** The blocks of one list: they have bounds, are no one else's, and are not free. */
  ghost predicate ListOk(k: Key, col: seq<Block>, home: map<Block, Key>, starts: map<Block, int>, ends: map<Block, int>,
      free: seq<Block>, next: Block) {
    && NoDup(col)
    && (forall b :: b in col ==> b in home && home[b] == k && b in starts && b in ends && b < next && b !in free)
  }

  ghost predicate FreeOk(free: seq<Block>, next: Block) {
    NoDup(free) && forall b :: b in free ==> b < next
  }

  ghost predicate Linked(used: map<Key, seq<Block>>, home: map<Block, Key>, starts: map<Block, int>,
      ends: map<Block, int>,
      free: seq<Block>, next: Block) {
    && (forall k :: k in used ==> ListOk(k, used[k], home, starts, ends, free, next))
    && FreeOk(free, next)
  }

  /** b, which is in no other list, gets new bounds and a home. */
  lemma OtherList(k: Key, l: Key, col: seq<Block>, home: map<Block, Key>, starts: map<Block, int>,
      ends: map<Block, int>,
      free: seq<Block>, next: Block, b: Block, lo: int, hi: int, free': seq<Block>, next': Block)
    requires ListOk(l, col, home, starts, ends, free, next) && b !in col && next <= next'
    requires forall c :: c in free' ==> c in free || c == b
    ensures ListOk(l, col, home[b := k], starts[b := lo], ends[b := hi], free', next')
    ensures BoundsOf(col, starts[b := lo], ends[b := hi]) == BoundsOf(col, starts, ends)
  {
  }

  lemma InsertBounds(col: seq<Block>, index: nat, b: Block, starts: map<Block, int>, ends: map<Block, int>, lo: int,
      hi: int)
    requires index <= |col| && b !in col && forall i :: 0 <= i < |col| ==> col[i] in starts && col[i] in ends
    ensures forall c :: c in col[..index] + [b] + col[index..] <==> c in col || c == b
    ensures BoundsOf(col[..index] + [b] + col[index..], starts[b := lo], ends[b := hi])
      == Insert(BoundsOf(col, starts, ends), index, Interval(lo, hi))
  {
    var col' := col[..index] + [b] + col[index..];
    Members(col, index, b);
    assert forall i :: 0 <= i < index ==> col'[i] == col[i];
    assert forall i :: index < i < |col'| ==> col'[i] == col[i - 1];
  }

  lemma Members(col: seq<Block>, index: nat, b: Block)
    requires index <= |col|
    ensures forall c :: c in col[..index] + [b] + col[index..] <==> c in col || c == b
  {
    assert col == col[..index] + col[index..];
  }

  lemma InsertNoDup(col: seq<Block>, index: nat, b: Block)
    requires index <= |col| && b !in col && NoDup(col)
    ensures NoDup(col[..index] + [b] + col[index..])
  {
  }

  lemma RemoveBounds(col: seq<Block>, index: nat, starts: map<Block, int>, ends: map<Block, int>)
    requires index < |col| && forall i :: 0 <= i < |col| ==> col[i] in starts && col[i] in ends
    ensures forall c :: c in col[..index] + col[index + 1..] ==> c in col
    ensures BoundsOf(col[..index] + col[index + 1..], starts, ends) == Remove(BoundsOf(col, starts, ends), index)
  {
    var col' := col[..index] + col[index + 1..];
    assert forall i :: 0 <= i < index ==> col'[i] == col[i];
    assert forall i :: index <= i < |col'| ==> col'[i] == col[i + 1];
  }

  lemma RemoveNoDup(col: seq<Block>, index: nat)
    requires index < |col| && NoDup(col)
    ensures NoDup(col[..index] + col[index + 1..]) && col[index] !in col[..index] + col[index + 1..]
  {
  }

  /** One block of a list gets new bounds. */
  lemma PutBounds(col: seq<Block>, index: nat, starts: map<Block, int>, ends: map<Block, int>, lo: int, hi: int)
    requires index < |col| && NoDup(col) && forall i :: 0 <= i < |col| ==> col[i] in starts && col[i] in ends
    ensures BoundsOf(col, starts[col[index] := lo], ends[col[index] := hi]) ==
      BoundsOf(col, starts, ends)[index := Interval(lo, hi)]
  {
    assert forall i :: 0 <= i < |col| && i != index ==> col[i] != col[index];
  }

  class RangeStore {
    var used: map<Key, seq<Block>>
    var starts: map<Block, int>
    var ends: map<Block, int>
    var free: seq<Block>
    var next: Block
    var slots: map<Slot, set<Item>>
    ghost var home: map<Block, Key>

    ghost predicate Ready()
      reads this`used, this`home, this`starts, this`ends, this`free, this`next
    {
      Linked(used, home, starts, ends, free, next)
    }

    /** The intervals of an owner's list; none if it has no list. */
    ghost function View(k: Key): seq<Interval>
      requires Ready()
      reads this`used, this`home, this`starts, this`ends, this`free, this`next
    {
      if k in used then BoundsOf(used[k], starts, ends) else []
    }

    /** Every list is normal and non-empty, and holds exactly the integers with a slot; no slot is empty. */
    ghost predicate Valid()
      reads this
    {
      && Ready()
      && (forall k :: Normal(View(k)) && (k in used ==> View(k) != []))
      && (forall k, n {:trigger Slot(k, n)} :: Slot(k, n) in slots <==> Has(View(k), n))
      && (forall t :: t in slots ==> slots[t] != {})
    }

    constructor ()
      ensures Valid() && slots == map[] && used == map[]
    {
      used, starts, ends, free, next, slots, home := map[], map[], map[], [], 0, map[], map[];
    }

    /** Udb_Edit_Free_Object: reuse the head of the class's free list, or create an object. */
    method EditFreeObject() returns (b: Block)
      requires Ready()
      modifies this`free, this`next
      ensures Ready() && b < next && b !in free && forall k :: k in used ==> b !in used[k]
      ensures old(free) != [] ==> old(free) == [b] + free && next == old(next)
      ensures forall k :: View(k) == old(View(k))
    {
      if free != [] {
        Popped(free, next);
        b := free[0];
        free := free[1..];
      } else {
        b := next;
        next := next + 1;
      }
    }

    /** New_Block: a block for lo .. hi, inserted at the index. */
    method NewBlock(k: Key, index: nat, lo: int, hi: int)
      requires Ready() && k in used && index <= |used[k]|
      modifies this`used, this`home, this`starts, this`ends, this`free, this`next
      ensures Ready() && used.Keys == old(used.Keys) && |used[k]| == old(|used[k]|) + 1
      ensures View(k) == Insert(old(View(k)), index, Interval(lo, hi))
      ensures forall l :: l != k ==> View(l) == old(View(l))
      ensures forall l :: l in used && l != k ==> used[l] == old(used[l])
    {
      hide NoDup, BoundsOf;
      var b := EditFreeObject();
      ghost var starts0, ends0, home0, used0 := starts, ends, home, used;
      starts := starts[b := lo];
      ends := ends[b := hi];
      used := used[k := used[k][..index] + [b] + used[k][index..]];
      home := home[b := k];
      InsertBounds(used0[k], index, b, starts0, ends0, lo, hi);
      InsertNoDup(used0[k], index, b);
      forall l | l in used0 && l != k
        ensures ListOk(l, used0[l], home, starts, ends, free, next)
        ensures BoundsOf(used0[l], starts, ends) == BoundsOf(used0[l], starts0, ends0)
      {
        OtherList(k, l, used0[l], home0, starts0, ends0, free, next, b, lo, hi, free, next);
      }
    }

    /** Drop a block from its list and put it on the free list (db_col_drop_element and Udb_Append_Free_List). */
    method DropBlock(k: Key, index: nat, b: Block)
      requires Ready() && k in used && index < |used[k]| && used[k][index] == b
      modifies this`used, this`free
      ensures Ready() && used == old(used)[k := old(used[k][..index] + used[k][index + 1..])]
      ensures free == [b] + old(free)
      ensures View(k) == Remove(old(View(k)), index)
      ensures forall l :: l != k ==> View(l) == old(View(l))
    {
      hide NoDup, BoundsOf;
      ghost var used0, free0 := used, free;
      RemoveBounds(used[k], index, starts, ends);
      RemoveNoDup(used[k], index);
      used := used[k := used[k][..index] + used[k][index + 1..]];
      free := [b] + free;
      Pushed(free0, next, b);
      forall l | l in used0 && l != k
        ensures ListOk(l, used0[l], home, starts, ends, free, next)
      {
        assert ListOk(l, used0[l], home, starts, ends, free0, next);
        assert b in used0[k] && home[b] == k;
      }
    }

    /** A new bound of one block: nothing else moves. */
    lemma Rebound(starts': map<Block, int>, ends': map<Block, int>, k: Key, index: nat, lo: int, hi: int)
      requires Ready() && k in used && index < |used[k]|
      requires starts' == starts[used[k][index] := lo] && ends' == ends[used[k][index] := hi]
      ensures Linked(used, home, starts', ends', free, next)
      ensures BoundsOf(used[k], starts', ends') == View(k)[index := Interval(lo, hi)]
      ensures forall l :: l in used && l != k ==> BoundsOf(used[l], starts', ends') == View(l)
    {
      PutBounds(used[k], index, starts, ends, lo, hi);
      hide NoDup, BoundsOf;
      var b := used[k][index];
      assert home[b] == k && home[b := k] == home;
      forall l | l in used && l != k
        ensures ListOk(l, used[l], home, starts', ends', free, next)
        ensures BoundsOf(used[l], starts', ends') == BoundsOf(used[l], starts, ends)
      {
        OtherList(k, l, used[l], home, starts, ends, free, next, b, lo, hi, free, next);
      }
    }

    lemma At(k: Key, index: nat)
      requires Ready() && k in used && index < |used[k]|
      ensures |View(k)| == |used[k]| && used[k][index] in starts && used[k][index] in ends
      ensures View(k)[index] == Interval(starts[used[k][index]], ends[used[k][index]])
    {
    }

    method PutStart(ghost k: Key, ghost index: nat, b: Block, v: int)
      requires Ready() && k in used && index < |used[k]| && used[k][index] == b
      modifies this`starts
      ensures Ready() && |View(k)| == |used[k]| == |old(View(k))|
      ensures View(k) == old(View(k))[index := Interval(v, old(View(k))[index].hi)]
      ensures forall l :: l != k ==> View(l) == old(View(l))
    {
      hide Linked, BoundsOf;
      At(k, index);
      Rebound(starts[b := v], ends[b := ends[b]], k, index, v, ends[b]);
      assert ends[b := ends[b]] == ends;
      starts := starts[b := v];
    }

    method PutEnd(ghost k: Key, ghost index: nat, b: Block, v: int)
      requires Ready() && k in used && index < |used[k]| && used[k][index] == b
      modifies this`ends
      ensures Ready() && |View(k)| == |used[k]| == |old(View(k))|
      ensures View(k) == old(View(k))[index := Interval(old(View(k))[index].lo, v)]
      ensures forall l :: l != k ==> View(l) == old(View(l))
    {
      hide Linked, BoundsOf;
      At(k, index);
      Rebound(starts[b := starts[b]], ends[b := v], k, index, starts[b], v);
      assert starts[b := starts[b]] == starts;
      ends := ends[b := v];
    }

    /** Get_Bounds. */
    method GetBounds(k: Key, index: nat) returns (b: Block, lo: int, hi: int)
      requires Ready() && k in used && index < |used[k]|
      ensures b == used[k][index] && |View(k)| == |used[k]| && View(k)[index] == Interval(lo, hi)
    {
      b := used[k][index];
      At(k, index);
      lo, hi := starts[b], ends[b];
    }

    /** n touches the last block of the search from below: extend it, or merge it with its left neighbour. */
    method AddBelow(k: Key, n: int, first: int, firstBlock: Block, start: int, left: int, last: int, lastBlock: Block)
      requires Ready() && k in used && Normal(View(k)) && |View(k)| == |used[k]| && 0 <= first < last < |used[k]|
      requires firstBlock == used[k][first] && lastBlock == used[k][last] && left == View(k)[first].hi
      requires left < n == View(k)[last].lo - 1 && (n == left + 1 ==> start == View(k)[first].lo)
      modifies this`used, this`home, this`starts, this`ends, this`free, this`next
      ensures Ready() && used.Keys == old(used.Keys) && Adds(old(View(k)), View(k), n) && View(k) != []
      ensures forall l :: l != k ==> View(l) == old(View(l))
    {
      hide Linked, Has, Adds, BoundsOf;
      ghost var s := View(k);
      var firstBlock, start, left := firstBlock, start, left;
      if first != last - 1 {
        firstBlock, start, left := GetBounds(k, last - 1);
      }
      if n > left + 1 {
        PutStart(k, last, lastBlock, n);
        GrowDown(s, last, n);
      } else {
        assert s[last - 1].hi + 1 < s[last].lo;
        DropBlock(k, last - 1, firstBlock);
        PutStart(k, last - 1, lastBlock, start);
        Join(s, last - 1, n);
      }
    }

    /** n touches the first block of the search from above, and not the last one from below. */
    method AddAbove(k: Key, n: int, first: int, firstBlock: Block, last: int, lastBlock: Block, right: int, end: int)
      requires Ready() && k in used && Normal(View(k)) && |View(k)| == |used[k]| && 0 <= first < last < |used[k]|
      requires firstBlock == used[k][first] && lastBlock == used[k][last] && right == View(k)[last].lo
      requires n == View(k)[first].hi + 1 && n < right - 1
      modifies this`used, this`home, this`starts, this`ends, this`free, this`next
      ensures Ready() && used.Keys == old(used.Keys) && Adds(old(View(k)), View(k), n) && View(k) != []
      ensures forall l :: l != k ==> View(l) == old(View(l))
    {
      hide Linked, Has, Adds, BoundsOf;
      ghost var s := View(k);
      var lastBlock, right, end := lastBlock, right, end;
      if last != first + 1 {
        lastBlock, right, end := GetBounds(k, first + 1);
      }
      if n < right - 1 {
        PutEnd(k, first, firstBlock, n);
        GrowUp(s, first, n);
      } else {
        assert s[first].hi + 1 < s[first + 1].lo;
        DropBlock(k, first + 1, lastBlock);
        PutEnd(k, first, firstBlock, end);
        Join(s, first, n);
      }
    }

    /**
     Add_Used past its early exits: n lies between the first and the last block. `start` and `end`
     are not refreshed when the search narrows, so they may belong to blocks passed long ago.
     */
    method AddBetween(k: Key, n: int, firstBlock: Block, start: int, left: int, lastBlock: Block, right: int, end: int)
      requires Ready() && k in used && |used[k]| >= 2 && Normal(View(k)) && !Has(View(k), n)
      requires |View(k)| == |used[k]| && firstBlock == used[k][0] && lastBlock == used[k][|used[k]| - 1]
      requires View(k)[0] == Interval(start, left) && View(k)[|used[k]| - 1] == Interval(right, end) && left < n < right
      modifies this`used, this`home, this`starts, this`ends, this`free, this`next
      ensures Ready() && used.Keys == old(used.Keys) && Adds(old(View(k)), View(k), n) && View(k) != []
      ensures forall l :: l != k ==> View(l) == old(View(l))
    {
      hide Linked, Has, Adds, BoundsOf;
      var first, firstBlock, start, left := 0, firstBlock, start, left;
      var last, lastBlock, right, end := |used[k]| - 1, lastBlock, right, end;
      ghost var s := View(k);
      while true
        invariant Ready() && used == old(used) && View(k) == s && |s| == |used[k]| && forall l ::
          View(l) == old(View(l))
        invariant 0 <= first < last < |s| && firstBlock == used[k][first] && lastBlock == used[k][last]
        invariant left == s[first].hi && right == s[last].lo && left < n < right
        invariant start == s[first].lo || n != left + 1 || n != right - 1
        decreases last - first
      {
        if n == right - 1 {
          AddBelow(k, n, first, firstBlock, start, left, last, lastBlock);
          return;
        } else if n == left + 1 {
          AddAbove(k, n, first, firstBlock, last, lastBlock, right, end);
          return;
        }
        var mid := (first + last) / 2;
        if mid == first {
          NewBlock(k, last, n, n);
          Alone(s, last, n);
          return;
        }
        var midBlock, midStart, midEnd := GetBounds(k, mid);
        NotIn(s, mid, n);
        if n < midStart {
          last, lastBlock, right := mid, midBlock, midStart;
        } else if n > midEnd {
          first, firstBlock, left := mid, midBlock, midEnd;
        } else {
          assert false;
        }
      }
    }

    /** The first integer of an owner: a range with one block. */
    method NewRange(k: Key, n: int)
      requires Ready() && k !in used
      modifies this`used, this`home, this`starts, this`ends, this`free, this`next
      ensures Ready() && used.Keys == old(used.Keys) + {k} && View(k) == Insert([], 0, Interval(n, n)) && View(k) != []
      ensures forall l :: l != k ==> View(l) == old(View(l))
    {
      used := used[k := []];
      assert View(k) == [] && forall l :: l != k ==> View(l) == old(View(l));
      hide Linked, BoundsOf;
      NewBlock(k, 0, n, n);
    }

    /** Add_Used: record that n is in use. */
    method AddUsed(k: Key, n: int)
      requires Ready() && (k in used ==> View(k) != []) && Normal(View(k)) && !Has(View(k), n)
      modifies this`used, this`home, this`starts, this`ends, this`free, this`next
      ensures Ready() && used.Keys == old(used.Keys) + {k} && Adds(old(View(k)), View(k), n) && View(k) != []
      ensures forall l :: l != k ==> View(l) == old(View(l))
    {
      hide Has, Adds, BoundsOf;
      ghost var s := View(k);
      hide Linked;
      if k !in used {
        NewRange(k, n);
        Alone(s, 0, n);
        return;
      }
      Size(k);
      var last := |used[k]| - 1;
      var lastBlock, right, end := GetBounds(k, last);
      if n == end + 1 {
        PutEnd(k, last, lastBlock, n);
        GrowUp(s, last, n);
        return;
      }
      if n > end {
        NewBlock(k, last + 1, n, n);
        Alone(s, last + 1, n);
        return;
      }
      var firstBlock, start, left := GetBounds(k, 0);
      if n == start - 1 {
        PutStart(k, 0, firstBlock, n);
        GrowDown(s, 0, n);
        return;
      }
      if n < start {
        NewBlock(k, 0, n, n);
        Alone(s, 0, n);
        return;
      }
      NotIn(s, 0, n);
      NotIn(s, last, n);
      AddBetween(k, n, firstBlock, start, left, lastBlock, right, end);
    }

    /** Del_From_Range: take n out of the block that holds it; an owner's last block takes its range along. */
    method DelFromRange(k: Key, index: nat, b: Block, start: int, end: int, n: int)
      requires Ready() && k in used && Normal(View(k)) && |View(k)| == |used[k]| && index < |used[k]| &&
        b == used[k][index]
      requires View(k)[index] == Interval(start, end) && start <= n <= end
      modifies this`used, this`home, this`starts, this`ends, this`free, this`next
      ensures Ready() && used.Keys <= old(used.Keys) && used.Keys + {k} == old(used.Keys)
      ensures Drops(old(View(k)), View(k), n) && (k in used ==> View(k) != [])
      ensures forall l :: l != k ==> View(l) == old(View(l))
    {
      hide Linked, Has, Drops, BoundsOf;
      ghost var s := View(k);
      if n == start {
        if n == end {
          DropBlock(k, index, b);
          DropAlone(s, index, n);
          Size(k);
          if |used[k]| == 0 {
            DropRange(k);
          }
          return;
        }
        PutStart(k, index, b, start + 1);
        DropEnd(s, index, n, Interval(start + 1, end));
        return;
      }
      PutEnd(k, index, b, n - 1);
      if n < end {
        NewBlock(k, index + 1, n + 1, end);
        DropInner(s, index, n);
      } else {
        DropEnd(s, index, n, Interval(start, n - 1));
      }
    }

    /** The emptied range goes to its free list with its owner cleared, so the owner has none. */
    method DropRange(k: Key)
      requires Ready() && k in used && used[k] == []
      modifies this`used
      ensures Ready() && used == old(used) - {k}
      ensures forall l :: View(l) == old(View(l))
    {
      used := used - {k};
    }

    /** Del_Used: find the block that holds n by halving, and take n out of it. */
    method DelUsed(k: Key, n: int)
      requires Ready() && k in used && Normal(View(k)) && Has(View(k), n)
      modifies this`used, this`home, this`starts, this`ends, this`free, this`next
      ensures Ready() && used.Keys <= old(used.Keys) && used.Keys + {k} == old(used.Keys)
      ensures Drops(old(View(k)), View(k), n) && (k in used ==> View(k) != [])
      ensures forall l :: l != k ==> View(l) == old(View(l))
    {
      hide Linked, Drops, BoundsOf;
      ghost var s := View(k);
      ghost var g :| 0 <= g < |s| && s[g].lo <= n <= s[g].hi;
      hide Has;
      Size(k);
      var first, last := 0, |used[k]| - 1;
      var b, start, end := GetBounds(k, last);
      if n >= start {
        Holder(s, g, last, n);
        DelFromRange(k, last, b, start, end, n);
        return;
      }
      b, start, end := GetBounds(k, first);
      if n <= end {
        Holder(s, g, first, n);
        DelFromRange(k, first, b, start, end, n);
        return;
      }
      while true
        invariant Ready() && used == old(used) && View(k) == s && |s| == |used[k]| && forall l ::
          View(l) == old(View(l))
        invariant 0 <= first < g < last < |s|
        decreases last - first
      {
        var mid := (first + last) / 2;
        assert mid > first;
        b, start, end := GetBounds(k, mid);
        Holder(s, g, mid, n);
        if n < start {
          last := mid;
        } else if n > end {
          first := mid;
        } else {
          DelFromRange(k, mid, b, start, end, n);
          return;
        }
      }
    }

    lemma Size(k: Key)
      requires Ready() && k in used
      ensures |View(k)| == |used[k]|
    {
    }

    /** Udb_Add_Range_Entry. */
    method AddEntry(k: Key, n: int, item: Item)
      requires Valid()
      modifies this
      ensures Valid() && slots == SlotsAdd(old(slots), Slot(k, n), item)
    {
      hide Linked, BoundsOf, Normal, Has;
      var t := Slot(k, n);
      if t in slots {
        slots := slots[t := slots[t] + {item}];
        return;
      }
      slots := slots[t := {item}];
      assert {} + {item} == {item};
      AddUsed(k, n);
    }

    /** Udb_Delete_Range_Entry. */
    method DeleteEntry(k: Key, n: int, item: Item)
      requires Valid() && Slot(k, n) in slots
      modifies this
      ensures Valid() && slots == SlotsDrop(old(slots), Slot(k, n), item)
    {
      hide Linked, BoundsOf, Normal, Has;
      var t := Slot(k, n);
      var items := slots[t] - {item};
      slots := slots[t := items];
      NothingUsed(n);
      if |items| == 0 {
        DelUsed(k, n);
        slots := slots - {t};
      }
    }

    /** Udb_Auto_Integer: the least unused integer from min on. */
    method AutoInteger(k: Key, min: int) returns (free: int)
      requires Valid()
      ensures free >= min && Slot(k, free) !in slots
      ensures forall m :: min <= m < free ==> Slot(k, m) in slots
    {
      hide Linked, BoundsOf;
      ghost var s := View(k);
      free := min;
      NothingUsed(free);
      if k !in used {
        return;
      }
      Size(k);
      var i := 0;
      while i < |used[k]|
        invariant 0 <= i <= |used[k]| && free >= min
        invariant forall m :: min <= m < free ==> Has(s, m)
        invariant forall j :: 0 <= j < i ==> s[j].hi < free
      {
        var b, start, end := GetBounds(k, i);
        if free > end + 1 {
          i := i + 1;
          continue;
        }
        if free < start {
          break;
        }
        forall m | free <= m < end + 1
          ensures Has(s, m)
        {
          assert s[i].lo <= m <= s[i].hi;
        }
        free := end + 1;
        i := i + 1;
      }
      assert !Has(s, free);
    }

    /** A whole run of adds and deletes, against the plain map from integers to the objects using them. */
    method RunAll(ops: seq<Op>)
      requires Valid() && LegalRun(ops, slots)
      modifies this
      ensures Valid() && slots == ApplyAll(ops, old(slots))
    {
      hide Valid, SlotsAdd, SlotsDrop;
      var i := 0;
      while i < |ops|
        invariant i <= |ops| && Valid() && LegalRun(ops[i..], slots)
        invariant ApplyAll(ops[i..], slots) == ApplyAll(ops, old(slots))
      {
        assert ops[i..][0] == ops[i] && ops[i..][1..] == ops[i + 1..];
        match ops[i] {
          case Add(k, n, item) => AddEntry(k, n, item);
          case Delete(k, n, item) => DeleteEntry(k, n, item);
        }
        i := i + 1;
      }
      assert ops[i..] == [];
    }
  }

  lemma NothingUsed(n: int)
    ensures !Has([], n)
  {
  }

  datatype Op = Add(key: Key, value: int, item: Item) | Delete(key: Key, value: int, item: Item)

  /** Deleting asks for the slot to exist. */
  predicate Legal(op: Op, slots: map<Slot, set<Item>>) {
    op.Delete? ==> Slot(op.key, op.value) in slots
  }

  function Apply(op: Op, slots: map<Slot, set<Item>>): map<Slot, set<Item>>
    requires Legal(op, slots)
  {
    if op.Add? then SlotsAdd(slots, Slot(op.key, op.value), op.item)
      else SlotsDrop(slots, Slot(op.key, op.value), op.item)
  }

  predicate LegalRun(ops: seq<Op>, slots: map<Slot, set<Item>>)
    decreases |ops|
  {
    ops == [] || (Legal(ops[0], slots) && LegalRun(ops[1..], Apply(ops[0], slots)))
  }

  function ApplyAll(ops: seq<Op>, slots: map<Slot, set<Item>>): map<Slot, set<Item>>
    requires LegalRun(ops, slots)
    decreases |ops|
  {
    if ops == [] then slots else ApplyAll(ops[1..], Apply(ops[0], slots))
  }

  function SlotsAdd(slots: map<Slot, set<Item>>, t: Slot, item: Item): map<Slot, set<Item>> {
    slots[t := (if t in slots then slots[t] else {}) + {item}]
  }

  function SlotsDrop(slots: map<Slot, set<Item>>, t: Slot, item: Item): map<Slot, set<Item>>
    requires t in slots
  {
    if slots[t] <= {item} then slots - {t} else slots[t := slots[t] - {item}]
  }

  /** Where the block holding n lies relative to block i. */
  lemma Holder(s: seq<Interval>, g: nat, i: nat, n: int)
    requires Normal(s) && g < |s| && s[g].lo <= n <= s[g].hi && i < |s|
    ensures g < i <==> n < s[i].lo
    ensures g > i <==> n > s[i].hi
  {
  }

  lemma NotIn(s: seq<Interval>, i: nat, n: int)
    requires !Has(s, n) && i < |s|
    ensures n < s[i].lo || s[i].hi < n
  {
  }

  lemma Popped(free: seq<Block>, next: Block)
    requires FreeOk(free, next) && free != []
    ensures free[0] < next && free[0] !in free[1..] && FreeOk(free[1..], next)
    ensures forall b :: b in free[1..] ==> b in free
  {
    assert free[0] in free;
    forall b | b in free[1..]
      ensures b in free
    {
    }
  }

  lemma Pushed(free: seq<Block>, next: Block, b: Block)
    requires FreeOk(free, next) && b !in free && b < next
    ensures FreeOk([b] + free, next)
  {
  }
}
