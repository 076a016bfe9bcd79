/**
 * The binary min-heap of event pointers (eventheap.c): 1-based slots in one
 * growing buffer, ordered by the nextTrigger field of the events pointed at.
 */
module EventHeap {
  import opened Events

  const SIZE_INCREMENT := 256

  // ---------- Heap order on trigger times alone ----------
  // Position 0 of a key sequence is not used, as in the buffer itself.

  /** Slot i triggers no earlier than its parent. */
  ghost predicate InOrder(k: seq<int>, i: int)
    requires 2 <= i < |k|
  {
    k[i / 2] <= k[i]
  }

  ghost predicate HeapOrder(k: seq<int>) {
    forall i :: 2 <= i < |k| ==> InOrder(k, i)
  }

  /** Ordered but for slot hole, whose children are no earlier than its parent. */
  ghost predicate OrderedAbove(k: seq<int>, hole: int) {
    && 1 <= hole < |k|
    && (forall i :: 2 <= i < |k| && i != hole ==> InOrder(k, i))
    && (hole > 1 && 2 * hole < |k| ==> k[hole / 2] <= k[2 * hole])
    && (hole > 1 && 2 * hole + 1 < |k| ==> k[hole / 2] <= k[2 * hole + 1])
  }

  /** Ordered but for the children of slot hole, which are no earlier than its parent. */
  ghost predicate OrderedBelow(k: seq<int>, hole: int) {
    && 1 <= hole
    && (forall i :: 2 <= i < |k| && i / 2 != hole ==> InOrder(k, i))
    && (hole > 1 && 2 * hole < |k| ==> k[hole / 2] <= k[2 * hole])
    && (hole > 1 && 2 * hole + 1 < |k| ==> k[hole / 2] <= k[2 * hole + 1])
  }

  /** s with positions i and j exchanged. */
  ghost function Exchanged<T>(s: seq<T>, i: int, j: int): seq<T>
    requires 0 <= i < |s| && 0 <= j < |s|
  {
    s[i := s[j]][j := s[i]]
  }

  /** s lists every element of the set exactly once. */
  ghost predicate Lists<T>(s: seq<T>, elements: set<T>) {
    && (forall i, j :: 0 <= i < j < |s| ==> s[i] != s[j])
    && (forall e :: e in s ==> e in elements)
    && (forall e :: e in elements ==> e in s)
  }

  lemma ExchangedLists<T>(s: seq<T>, i: int, j: int, elements: set<T>)
    requires 0 <= i < |s| && 0 <= j < |s| && Lists(s, elements)
    ensures Lists(Exchanged(s, i, j), elements)
  {
    var x := Exchanged(s, i, j);
    forall e | e in elements
      ensures e in x
    {
      var m :| 0 <= m < |s| && s[m] == e;
      assert x[if m == i then j else if m == j then i else m] == e;
    }
  }

  lemma AppendedLists<T>(s: seq<T>, e: T, elements: set<T>)
    requires Lists(s, elements) && e !in elements
    ensures Lists(s + [e], elements + {e})
  {
  }

  lemma Appended(k: seq<int>, key: int)
    requires HeapOrder(k) && |k| > 0
    ensures OrderedAbove(k + [key], |k|)
  {
    var x := k + [key];
    forall i | 2 <= i < |x| && i != |k|
      ensures InOrder(x, i)
    {
      assert InOrder(k, i);
    }
  }

  lemma ExchangeUp(k: seq<int>, hole: int)
    requires OrderedAbove(k, hole) && hole > 1 && k[hole] < k[hole / 2]
    ensures OrderedAbove(Exchanged(k, hole, hole / 2), hole / 2)
  {
    var x := Exchanged(k, hole, hole / 2);
    var parent := hole / 2;
    forall i | 2 <= i < |x| && i != parent
      ensures InOrder(x, i)
    {
      assert i != hole ==> InOrder(k, i);
    }
    if parent > 1 {
      assert InOrder(k, parent);
      assert 2 * parent != hole ==> InOrder(k, 2 * parent);
      assert 2 * parent + 1 != hole && 2 * parent + 1 < |k| ==> InOrder(k, 2 * parent + 1);
    }
  }

  lemma ExchangeDown(k: seq<int>, hole: int, child: int)
    requires OrderedBelow(k, hole) && (child == 2 * hole || child == 2 * hole + 1) && child < |k|
    requires k[child] < k[hole] && k[child] <= k[2 * hole]
    requires 2 * hole + 1 < |k| ==> k[child] <= k[2 * hole + 1]
    ensures OrderedBelow(Exchanged(k, child, hole), child)
  {
    var x := Exchanged(k, child, hole);
    forall i | 2 <= i < |x| && i / 2 != child
      ensures InOrder(x, i)
    {
      assert i / 2 != hole ==> InOrder(k, i);
    }
    assert 2 * child < |k| ==> InOrder(k, 2 * child);
    assert 2 * child + 1 < |k| ==> InOrder(k, 2 * child + 1);
  }

  /** The root of an ordered heap is least. */
  lemma {:induction false} RootIsLeast(k: seq<int>, i: int)
    requires HeapOrder(k) && 1 <= i < |k|
    ensures k[1] <= k[i]
  {
    if i > 1 {
      assert InOrder(k, i);
      RootIsLeast(k, i / 2);
    }
  }

  /** s without its first element, the last one taking its place. */
  ghost function LastMovedFirst<T>(s: seq<T>): (x: seq<T>)
    requires |s| > 0
    ensures |x| == |s| - 1
  {
    if |s| == 1 then [] else [s[|s| - 1]] + s[1..|s| - 1]
  }

  lemma LastMovedFirstLists<T>(s: seq<T>, elements: set<T>)
    requires |s| > 0 && Lists(s, elements)
    ensures Lists(LastMovedFirst(s), elements - {s[0]})
  {
    var x := LastMovedFirst(s);
    forall e | e in elements - {s[0]}
      ensures e in x
    {
      var m :| 0 <= m < |s| && s[m] == e;
      assert m == |s| - 1 ==> x[0] == e;
      assert m < |s| - 1 ==> x[m] == e;
    }
  }

  lemma RootReplaced(k: seq<int>, x: seq<int>)
    requires HeapOrder(k) && |k| > 1
    requires x == [k[0]] + LastMovedFirst(k[1..])
    ensures OrderedBelow(x, 1)
  {
    forall i | 2 <= i < |x| && i / 2 != 1
      ensures InOrder(x, i)
    {
      assert x[i] == k[i] && x[i / 2] == k[i / 2];
      assert InOrder(k, i);
    }
  }

  // ---------- The heap of event objects ----------

  ghost predicate NoLater(a: Event, b: Event)
    reads a, b
  {
    a.nextTrigger <= b.nextTrigger
  }

  /** s in non-decreasing order of trigger time. */
  ghost predicate SortedByTrigger(s: seq<Event>)
    reads s
  {
    forall i, j :: 0 <= i < j < |s| ==> NoLater(s[i], s[j])
  }

  lemma SortedAppend(s: seq<Event>, e: Event)
    requires SortedByTrigger(s) && (|s| > 0 ==> NoLater(s[|s| - 1], e))
    ensures SortedByTrigger(s + [e])
  {
    forall i, j | 0 <= i < j < |s| + 1
      ensures NoLater((s + [e])[i], (s + [e])[j])
    {
      assert j < |s| ==> NoLater(s[i], s[j]);
      assert i < |s| - 1 ==> NoLater(s[i], s[|s| - 1]);
    }
  }

  class Heap {
    /** The buffer; length 0 stands for the buffer that is not allocated yet. */
    var slots: array<Event?>
    /** Kept in slot 0 of the buffer by the source. */
    var size: nat
    /** The events the heap holds, each in exactly one slot. */
    ghost var events: set<Event>
    /** The events in slot order. */
    ghost var live: seq<Event>
    /** Their trigger times, one position later: keys[i] belongs to slot i. */
    ghost var keys: seq<int>

    ghost predicate Shaped()
      reads this, slots, events
    {
      && |live| == size && |keys| == size + 1 && Lists(live, events)
      && (size > 0 ==> size < slots.Length)
      && forall i :: 1 <= i <= size ==> slots[i] == live[i - 1] && live[i - 1].nextTrigger == keys[i]
    }

    ghost predicate Valid()
      reads this, slots, events
    {
      Shaped() && HeapOrder(keys)
    }

    constructor ()
      ensures Valid() && events == {} && fresh(slots)
    {
      slots := new Event?[0];
      size := 0;
      events, live, keys := {}, [], [0];
    }

    lemma PeekIsLeast()
      requires Valid() && size > 0
      ensures slots[1] in events
      ensures forall e :: e in events ==> slots[1].nextTrigger <= e.nextTrigger
    {
      forall e | e in events
        ensures slots[1].nextTrigger <= e.nextTrigger
      {
        var i :| 0 <= i < size && live[i] == e;
        RootIsLeast(keys, i + 1);
      }
    }

    method Swap(i: nat, j: nat)
      requires Shaped() && 1 <= i <= size && 1 <= j <= size
      modifies slots, `live, `keys
      ensures Shaped()
      ensures slots[..] == Exchanged(old(slots[..]), i, j) && keys == Exchanged(old(keys), i, j)
    {
      var temp := slots[i];
      slots[i] := slots[j];
      slots[j] := temp;
      ExchangedLists(live, i - 1, j - 1, events);
      live := Exchanged(live, i - 1, j - 1);
      keys := Exchanged(keys, i, j);
    }

    /** realloc(): the same slots in a strictly larger buffer. */
    method Grow()
      requires Valid()
      modifies `slots
      ensures Valid()
      ensures slots.Length > size + 1 && fresh(slots)
    {
      var grown := new Event?[slots.Length + SIZE_INCREMENT](_ => null);
      forall i | 0 <= i < slots.Length {
        grown[i] := slots[i];
      }
      slots := grown;
    }

    /** Moves the last event towards the root until its parent is no later. */
    method BubbleUp()
      requires Shaped() && size > 0 && OrderedAbove(keys, size)
      modifies slots, `live, `keys
      ensures Valid()
    {
      var index := size;
      while index > 1
        invariant Shaped() && OrderedAbove(keys, index)
      {
        if slots[index].nextTrigger < slots[index / 2].nextTrigger {
          ExchangeUp(keys, index);
          Swap(index, index / 2);
          index := index / 2;
        } else {
          break;
        }
      }
    }

    /** Adds an event; the buffer may move. */
    method Insert(e: Event)
      requires Valid() && e !in events
      modifies this, slots
      ensures Valid()
      ensures events == old(events) + {e}
      ensures slots == old(slots) || fresh(slots)
    {
      if slots.Length == 0 {
        slots := new Event?[SIZE_INCREMENT](_ => null);
      }
      if slots.Length < size + 2 {
        Grow();
      }
      size := size + 1;
      slots[size] := e;
      Appended(keys, e.nextTrigger);
      AppendedLists(live, e, events);
      events, live, keys := events + {e}, live + [e], keys + [e.nextTrigger];
      BubbleUp();
    }

    /** The next event without removing it; null when there is none. */
    method Peek() returns (e: Event?)
      requires Valid()
      ensures e == null <==> events == {}
      ensures e != null ==> e in events && forall f :: f in events ==> e.nextTrigger <= f.nextTrigger
    {
      if size < 1 {
        return null;
      }
      PeekIsLeast();
      return slots[1];
    }

    method MoveLastToRoot()
      requires Valid() && size > 0
      modifies this, slots
      ensures Shaped() && slots == old(slots) && slots[1] != null && OrderedBelow(keys, 1)
      ensures size == old(size) - 1
      ensures events == old(events) - {old(slots[1])}
    {
      RootReplaced(keys, [keys[0]] + LastMovedFirst(keys[1..]));
      LastMovedFirstLists(live, events);
      events := events - {slots[1]};
      slots[1] := slots[size];
      size := size - 1;
      live, keys := LastMovedFirst(live), [keys[0]] + LastMovedFirst(keys[1..]);
    }

    /** Moves the event at root down until both children are no earlier. */
    method Heapify(root: nat)
      requires Shaped() && root < slots.Length && slots[root] != null && OrderedBelow(keys, root)
      modifies slots, `live, `keys
      ensures Valid()
      decreases size - root
    {
      var smallest: nat;
      if 2 * root <= size && slots[2 * root].nextTrigger < slots[root].nextTrigger {
        smallest := 2 * root;
      } else {
        smallest := root;
      }
      if 2 * root + 1 <= size && slots[2 * root + 1].nextTrigger < slots[smallest].nextTrigger {
        smallest := 2 * root + 1;
      }
      if slots[smallest].nextTrigger != slots[root].nextTrigger {
        ExchangeDown(keys, root, smallest);
        Swap(smallest, root);
        Heapify(smallest);
      }
    }

    /** Removes the event that triggers first; null when there is none. */
    method Fetch() returns (e: Event?)
      requires Valid()
      modifies this, slots
      ensures Valid() && slots == old(slots)
      ensures e == null <==> old(events) == {}
      ensures e == null ==> events == {} && size == 0
      ensures e != null ==>
        && e in old(events) && events == old(events) - {e} && size == old(size) - 1
        && forall f :: f in events ==> e.nextTrigger <= f.nextTrigger
    {
      if size < 1 {
        return null;
      }
      PeekIsLeast();
      e := slots[1];
      MoveLastToRoot();
      Heapify(1);
    }

    /** Removes the first event if it has triggered; null otherwise. */
    method FetchTriggered(now: int) returns (e: Event?)
      requires Valid()
      modifies this, slots
      ensures Valid() && slots == old(slots)
      ensures e == null <==> forall f :: f in old(events) ==> f.nextTrigger > now
      ensures e == null ==> events == old(events)
      ensures e != null ==>
        && e in old(events) && e.nextTrigger <= now
        && events == old(events) - {e}
        && forall f :: f in events ==> e.nextTrigger <= f.nextTrigger
    {
      if size < 1 {
        return null;
      }
      PeekIsLeast();
      if slots[1].nextTrigger > now {
        return null;
      }
      e := Fetch();
    }

    /** Repeated fetching: the contents in the order they come out. */
    method Drain() returns (drained: seq<Event>)
      requires Valid()
      modifies this, slots
      ensures Valid() && slots == old(slots) && events == {} && size == 0
      ensures Lists(drained, old(events))
      ensures SortedByTrigger(drained)
    {
      drained := [];
      ghost var taken: set<Event> := {};
      while true
        invariant Valid() && slots == old(slots)
        invariant taken !! events && taken + events == old(events)
        invariant Lists(drained, taken)
        invariant SortedByTrigger(drained)
        invariant forall f :: f in events && |drained| > 0 ==> NoLater(drained[|drained| - 1], f)
        decreases size
      {
        var e := Fetch();
        if e == null {
          break;
        }
        SortedAppend(drained, e);
        AppendedLists(drained, e, taken);
        drained, taken := drained + [e], taken + {e};
      }
    }

    /** Removes every event and drops the buffer. */
    method Destroy()
      requires Valid()
      modifies this, slots
      ensures Valid() && events == {} && fresh(slots) && slots.Length == 0
    {
      var freed := Drain();
      slots := new Event?[0];
    }

    /**
     * The events in the exact order they come out, found by emptying the heap;
     * size and every slot are restored from a copy of the buffer.
     */
    method Print() returns (shown: seq<Event>)
      requires Valid()
      modifies this, slots
      ensures Valid() && events == old(events)
      ensures size == old(size) && slots == old(slots) && slots[..] == old(slots[..])
      ensures Lists(shown, events)
      ensures SortedByTrigger(shown)
    {
      var copy := new Event?[slots.Length](i requires 0 <= i < slots.Length reads this, slots => slots[i]);
      var copiedSize := size;
      shown := Drain();
      size := copiedSize;
      forall i | 0 <= i < slots.Length {
        slots[i] := copy[i];
      }
      events, live, keys := old(events), old(live), old(keys);
      assert slots[..] == copy[..];
    }
  }
}
