/**
 * Arrays of strings as the C code keeps them: a list of pointers ended by a
 * null pointer, into a payload of strings. A pointer is a position in the
 * payload here. Joining such a list, and taking its empty strings out.
 */
module PointerLists {
  import opened CText

  const NULL := -1

  /** The slots point, in order, to the strings, which end before limit and share at most terminators. */
  ghost predicate Layout(slots: seq<int>, payload: seq<char>, strings: seq<string>, limit: int) {
    && |strings| <= |slots|
    && (forall j :: 0 <= j < |strings| ==> Holds(payload, slots[j], strings[j]) && slots[j] + |strings[j]| < limit)
    && (forall j, k :: 0 <= j < k < |strings| ==> slots[j] + |strings[j]| <= slots[k])
  }

  /** A list of exactly these strings. */
  ghost predicate IsList(slots: seq<int>, payload: seq<char>, strings: seq<string>) {
    Layout(slots, payload, strings, |payload|) && |strings| < |slots| && slots[|strings|] == NULL
  }

  lemma LayoutNone(slots: seq<int>, payload: seq<char>)
    ensures Layout(slots, payload, [], 0)
  {
  }

  lemma ListEnds(slots: seq<int>, after: seq<int>, payload: seq<char>, strings: seq<string>, limit: int)
    requires Layout(slots, payload, strings, limit) && limit <= |payload| && |strings| < |slots|
    requires after == slots[|strings| := NULL]
    ensures IsList(after, payload, strings)
  {
  }

  lemma SlotIs(slots: seq<int>, payload: seq<char>, strings: seq<string>, index: nat)
    requires IsList(slots, payload, strings) && index <= |strings|
    ensures |strings| < |slots| && (slots[index] == NULL <==> index == |strings|)
    ensures index < |strings| ==> Holds(payload, slots[index], strings[index])
  {
  }

  lemma NoNul(slots: seq<int>, payload: seq<char>, strings: seq<string>)
    requires IsList(slots, payload, strings)
    ensures forall j :: 0 <= j < |strings| ==> '\0' !in strings[j]
  {
  }

  /** Rewriting one string in place, not beyond its end, leaves the list and the other strings. */
  lemma OneRewritten(slots: seq<int>, before: seq<char>, after: seq<char>, strings: seq<string>, index: nat, s: string)
    requires IsList(slots, before, strings) && index < |strings| && |after| == |before|
    requires Holds(after, slots[index], s) && |s| <= |strings[index]|
    requires forall i :: 0 <= i < |before| && !(slots[index] <= i < slots[index] + |strings[index]|) ==>
      after[i] == before[i]
    ensures IsList(slots, after, strings[index := s])
  {
    forall j | 0 <= j < |strings| && j != index ensures Holds(after, slots[j], strings[j]) {
      var p, t := slots[index], strings[index];
      assert Holds(before, slots[j], strings[j]) && Holds(before, p, t);
      if j < index {
        assert slots[j] + |strings[j]| <= p;
        assert t != "" ==> before[p] == t[0];
      }
      HoldsStill(before, after, slots[j], strings[j]);
    }
  }

  /** The number of strings. */
  method ArrLen(slots: array<int>, payload: array<char>, ghost strings: seq<string>) returns (n: nat)
    requires IsList(slots[..], payload[..], strings)
    ensures n == |strings|
  {
    hide Layout, IsList, Holds;
    n := 0;
    SlotIs(slots[..], payload[..], strings, n);
    while slots[n] != NULL
      invariant n <= |strings| < slots.Length && (slots[n] == NULL <==> n == |strings|)
      decreases |strings| - n
    {
      n := n + 1;
      SlotIs(slots[..], payload[..], strings, n);
    }
  }

  /** The string at a position. */
  method ReadString(payload: array<char>, p: nat, ghost s: string) returns (r: CString)
    requires Holds(payload[..], p, s)
    ensures r == s
  {
    var n := Strlen(payload, p, s);
    r := payload[p..p + n];
  }

  // ---------- Joining ----------

  /** The space that the strings from one on take, each with one byte more. */
  method ListSpace(slots: array<int>, payload: array<char>, from: nat, ghost strings: seq<string>) returns (space: nat)
    requires IsList(slots[..], payload[..], strings) && from <= |strings|
    ensures space == Weight(strings[from..])
  {
    hide Layout, IsList, WeightTo, Weight, Holds;
    ghost var items := strings[from..];
    var index := from;
    space := 0;
    SlotIs(slots[..], payload[..], strings, index);
    WholeList(items);
    while slots[index] != NULL
      invariant from <= index <= |strings| && space == WeightTo(items, index - from)
      invariant slots.Length > |strings| && (slots[index] == NULL <==> index == |strings|)
      decreases |strings| - index
    {
      SlotIs(slots[..], payload[..], strings, index);
      NextSpace(items, index - from);
      assert items[index - from] == strings[index];
      var n := Strlen(payload, slots[index], strings[index]);
      space := space + n + 1;
      index := index + 1;
      SlotIs(slots[..], payload[..], strings, index);
    }
  }

  /** Writes a string behind what the buffer holds, with a comma in front unless it is the first. */
  method AppendItem(buffer: array<char>, at: nat, payload: array<char>, p: nat, first: bool, ghost s: string)
    returns (end: nat)
    requires Holds(payload[..], p, s) && buffer != payload
    requires at + |Separated(first, s)| < buffer.Length && Zero(buffer[at..])
    modifies buffer
    ensures end == at + |Separated(first, s)|
    ensures buffer[..end] == old(buffer[..at]) + Separated(first, s) && Zero(buffer[end..])
  {
    end := at;
    if !first {
      end := Append(buffer, end, ",");
    }
    var n := Strlen(payload, p, s);
    end := Append(buffer, end, payload[p..p + n]);
  }

  /** The strings from one on, joined, in a new buffer; the rest of the buffer is zero. */
  method ToString(slots: array<int>, payload: array<char>, from: nat, ghost strings: seq<string>)
    returns (buffer: array<char>)
    requires IsList(slots[..], payload[..], strings) && from <= |strings|
    ensures fresh(buffer) && buffer.Length == Weight(strings[from..]) + 1
    ensures var list := Join(strings[from..]);
            |list| < buffer.Length && buffer[..|list|] == list && Zero(buffer[|list|..])
  {
    hide Layout, IsList, Holds, Join, Weight, JoinTo, WeightTo;
    ghost var items := strings[from..];
    var length := ListSpace(slots, payload, from, strings);
    buffer := new char[length + 1](_ => '\0');
    var index, ptr := from, 0;
    SlotIs(slots[..], payload[..], strings, index);
    WholeList(items);
    while slots[index] != NULL
      invariant from <= index <= |strings| && 0 <= ptr <= length
      invariant slots.Length > |strings| && (slots[index] == NULL <==> index == |strings|)
      invariant buffer[..ptr] == JoinTo(items, index - from) && Zero(buffer[ptr..])
      decreases |strings| - index
    {
      SlotIs(slots[..], payload[..], strings, index);
      NextInList(items, index - from);
      ptr := AppendItem(buffer, ptr, payload, slots[index], index == from, strings[index]);
      index := index + 1;
      SlotIs(slots[..], payload[..], strings, index);
    }
  }

  lemma {:induction false} JoinCharacters(items: seq<string>)
    requires forall i :: 0 <= i < |items| ==> '\0' !in items[i]
    ensures '\0' !in Join(items)
  {
    if |items| > 1 {
      JoinCharacters(items[1..]);
    }
  }

  // ---------- Taking empty strings out ----------

  /** The slots before value are compacted to the kept strings, those from value on are as they were. */
  ghost predicate Compacted(slots: seq<int>, payload: seq<char>, was: seq<string>, kept: seq<string>, value: nat) {
    && |kept| <= value <= |was| < |slots| && slots[|was|] == NULL
    && Layout(slots, payload, kept, |payload|)
    && (forall j :: |kept| <= j < value ==> slots[j] == NULL)
    && (forall j :: value <= j < |was| ==> Holds(payload, slots[j], was[j]) && slots[j] + |was[j]| < |payload|)
    && (forall j, k :: value <= j < k < |was| ==> slots[j] + |was[j]| <= slots[k])
    && (forall j, k :: 0 <= j < |kept| && value <= k < |was| ==> slots[j] + |kept[j]| <= slots[k])
  }

  lemma StartCompact(slots: seq<int>, payload: seq<char>, was: seq<string>, from: nat)
    requires IsList(slots, payload, was) && from <= |was|
    ensures Compacted(slots, payload, was, was[..from], from)
  {
  }

  lemma CompactedSlot(slots: seq<int>, payload: seq<char>, was: seq<string>, kept: seq<string>, value: nat)
    requires Compacted(slots, payload, was, kept, value)
    ensures |kept| <= value <= |was| < |slots| && (slots[value] == NULL <==> value == |was|)
    ensures value < |was| ==> Holds(payload, slots[value], was[value])
  {
  }

  lemma OneMore(slots: seq<int>, after: seq<int>, payload: seq<char>, kept: seq<string>, s: string)
    requires Layout(slots, payload, kept, |payload|) && |kept| < |slots| == |after|
    requires forall j :: 0 <= j < |kept| ==> after[j] == slots[j] && slots[j] + |kept[j]| <= after[|kept|]
    requires Holds(payload, after[|kept|], s) && after[|kept|] + |s| < |payload|
    ensures Layout(after, payload, kept + [s], |payload|)
  {
    var now := kept + [s];
    assert forall j :: 0 <= j < |kept| ==> now[j] == kept[j];
  }

  lemma KeepStep(slots: seq<int>, after: seq<int>, payload: seq<char>, was: seq<string>, kept: seq<string>, value: nat)
    requires Compacted(slots, payload, was, kept, value) && value < |was|
    requires after == if value == |kept| then slots else slots[|kept| := slots[value]][value := NULL]
    ensures Compacted(after, payload, was, kept + [was[value]], value + 1)
  {
    hide Holds, Layout;
    assert |after| == |slots| && after[|kept|] == slots[value];
    assert forall j :: 0 <= j < |slots| && j != |kept| && j != value ==> after[j] == slots[j];
    OneMore(slots, after, payload, kept, was[value]);
  }

  lemma DropStep(slots: seq<int>, payload: seq<char>, was: seq<string>, kept: seq<string>, value: nat)
    requires Compacted(slots, payload, was, kept, value) && value < |was|
    ensures Compacted(slots[value := NULL], payload, was, kept, value + 1)
  {
  }

  lemma EndCompact(slots: seq<int>, payload: seq<char>, was: seq<string>, kept: seq<string>)
    requires Compacted(slots, payload, was, kept, |was|)
    ensures IsList(slots, payload, kept)
  {
  }

  /** The strings before the given one, those from the from-th on only if they are not empty. */
  function WithoutEmpty(was: seq<string>, from: nat, value: nat): seq<string>
    requires from <= value <= |was|
  {
    was[..from] + NonEmpty(was[from..value])
  }

  lemma WithoutEmptyEnds(was: seq<string>, from: nat)
    requires from <= |was|
    ensures WithoutEmpty(was, from, from) == was[..from]
    ensures WithoutEmpty(was, from, |was|) == was[..from] + NonEmpty(was[from..])
  {
    assert was[from..from] == [] && was[from..|was|] == was[from..];
  }

  lemma WithoutEmptyNext(was: seq<string>, from: nat, value: nat)
    requires from <= value < |was|
    ensures WithoutEmpty(was, from, value + 1)
         == WithoutEmpty(was, from, value) + if was[value] == "" then [] else [was[value]]
  {
    assert was[from..value + 1] == was[from..value] + [was[value]];
  }

  /** Moves one pointer forward, or drops it. */
  method CompactNext(slots: array<int>, payload: array<char>, value: nat, writeIdx: nat,
                     ghost bytes: seq<char>, ghost was: seq<string>, ghost kept: seq<string>)
    returns (write: nat, ghost now: seq<string>)
    requires payload[..] == bytes && writeIdx == |kept|
    requires Compacted(slots[..], bytes, was, kept, value) && value < |was|
    modifies slots
    ensures now == kept + (if was[value] == "" then [] else [was[value]]) && write == |now|
    ensures Compacted(slots[..], bytes, was, now, value + 1)
  {
    hide Layout, Compacted, Holds;
    ghost var before := slots[..];
    CompactedSlot(before, bytes, was, kept, value);
    var length := Strlen(payload, slots[value], was[value]);
    write, now := writeIdx, kept;
    if length != 0 {
      now := kept + [was[value]];
      if value != write {
        slots[write] := slots[value];
        slots[value] := NULL;
      }
      KeepStep(before, slots[..], bytes, was, kept, value);
      write := write + 1;
    } else {
      DropStep(before, bytes, was, kept, value);
      slots[value] := NULL;
    }
  }

  /** Takes the pointers to empty strings out, in place, from one on. */
  method RemoveEmpty(slots: array<int>, payload: array<char>, from: nat, ghost was: seq<string>)
    requires IsList(slots[..], payload[..], was) && from <= |was|
    modifies slots
    ensures IsList(slots[..], payload[..], was[..from] + NonEmpty(was[from..]))
  {
    hide Layout, IsList, Compacted, WithoutEmpty, NonEmpty, Holds;
    ghost var bytes, kept := payload[..], was[..from];
    var value, write := from, from;
    StartCompact(slots[..], bytes, was, from);
    WithoutEmptyEnds(was, from);
    CompactedSlot(slots[..], bytes, was, kept, value);
    while slots[value] != NULL
      invariant write == |kept| && from <= value <= |was| < slots.Length && payload[..] == bytes
      invariant kept == WithoutEmpty(was, from, value)
      invariant Compacted(slots[..], bytes, was, kept, value)
      invariant slots[value] == NULL <==> value == |was|
      decreases |was| - value
    {
      WithoutEmptyNext(was, from, value);
      write, kept := CompactNext(slots, payload, value, write, bytes, was, kept);
      value := value + 1;
      CompactedSlot(slots[..], bytes, was, kept, value);
    }
    EndCompact(slots[..], bytes, was, kept);
  }
}
