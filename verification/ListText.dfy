/**
 * Comma and semicolon separated lists (util.c): str2arr() splits and trims in
 * place, arr2str() joins, arrcollapse() takes empty strings out.
 */
module ListText {
  import opened CText
  import opened Options
  import opened PointerLists

  predicate IsDelimiter(c: char) {
    c in ",;"
  }

  /** Where the first delimiter is; the length when there is none. */
  function FirstDelimiter(s: string): (k: nat)
    ensures k <= |s|
  {
    if s == "" || IsDelimiter(s[0]) then 0 else 1 + FirstDelimiter(s[1..])
  }

  function Delimiters(s: string): nat {
    if s == "" then 0 else (if IsDelimiter(s[0]) then 1 else 0) + Delimiters(s[1..])
  }

  /** The text between delimiters. */
  function Items(s: string): (items: seq<string>)
    ensures items != []
  {
    var k := FirstDelimiter(s);
    if k == |s| then [s] else [s[..k]] + Items(s[k + 1..])
  }

  // ---------- Joining and splitting ----------

  predicate PlainItem(s: string) {
    Trimmed(s) && forall c :: c in s ==> !IsDelimiter(c)
  }

  lemma {:induction false} NoDelimiter(s: string)
    ensures FirstDelimiter(s) == |s| <==> forall c :: c in s ==> !IsDelimiter(c)
    ensures forall c :: c in s[..FirstDelimiter(s)] ==> !IsDelimiter(c)
    ensures FirstDelimiter(s) < |s| ==> IsDelimiter(s[FirstDelimiter(s)])
  {
    if s != "" && !IsDelimiter(s[0]) {
      NoDelimiter(s[1..]);
      assert s[..FirstDelimiter(s)] == [s[0]] + s[1..][..FirstDelimiter(s) - 1];
    }
  }

  lemma {:induction false} DelimiterBehind(item: string, rest: string)
    requires FirstDelimiter(item) == |item| && (rest == "" || IsDelimiter(rest[0]))
    ensures FirstDelimiter(item + rest) == |item|
  {
    if item != "" {
      assert (item + rest)[1..] == item[1..] + rest;
      DelimiterBehind(item[1..], rest);
    } else {
      assert item + rest == rest;
    }
  }

  /** A comma or a semicolon ends an item, and nothing else does. */
  lemma ItemsAt(item: string, c: char, rest: string)
    requires ',' !in item && ';' !in item
    ensures Items(item) == [item]
    ensures c in ",;" ==> Items(item + [c] + rest) == [item] + Items(rest)
    ensures c !in ",;" ==> Items(item + [c]) == [item + [c]]
  {
    hide FirstDelimiter;
    NoDelimiter(item);
    NoDelimiter(item + [c]);
    if c in ",;" {
      var s := item + ([c] + rest);
      DelimiterBehind(item, [c] + rest);
      assert s == item + [c] + rest && s[..|item|] == item && s[|item| + 1..] == rest;
    }
  }

  /** Whatever the text, its items are plain once trimmed. */
  lemma {:induction false} ItemsArePlain(s: string)
    ensures forall item :: item in Trims(Items(s)) ==> PlainItem(item)
    decreases |s|
  {
    hide FirstDelimiter, Trim;
    var k := FirstDelimiter(s);
    NoDelimiter(s);
    if k == |s| {
      assert s[..k] == s;
    } else {
      ItemsArePlain(s[k + 1..]);
      TrimsOf(s[..k], Items(s[k + 1..]));
    }
  }

  lemma {:induction false} ItemsOfJoin(items: seq<string>)
    requires items != [] && forall i :: 0 <= i < |items| ==> FirstDelimiter(items[i]) == |items[i]|
    ensures Items(Join(items)) == items
  {
    if |items| > 1 {
      var rest := "," + Join(items[1..]);
      ItemsOfJoin(items[1..]);
      DelimiterBehind(items[0], rest);
      assert Join(items) == items[0] + rest;
      assert Join(items)[|items[0]| + 1..] == Join(items[1..]);
    }
  }

  /** Joining and splitting is the identity on exactly the non-empty lists of plain items. */
  lemma JoinRoundTripExactly(items: seq<string>)
    ensures Trims(Items(Join(items))) == items <==> items != [] && forall item :: item in items ==> PlainItem(item)
  {
    hide FirstDelimiter, Trim;
    ItemsArePlain(Join(items));
    if items != [] && forall item :: item in items ==> PlainItem(item) {
      forall i | 0 <= i < |items| ensures FirstDelimiter(items[i]) == |items[i]| && Trim(items[i]) == items[i] {
        assert items[i] in items && items[i][..|items[i]|] == items[i];
        NoDelimiter(items[i]);
        TrimIs(items[i], 0, |items[i]|);
      }
      ItemsOfJoin(items);
    }
  }

  /** Splitting, joining and splitting again gives the same items. */
  lemma SplitNormalizes(s: string)
    ensures Trims(Items(Join(Trims(Items(s))))) == Trims(Items(s))
  {
    ItemsArePlain(s);
    JoinRoundTripExactly(Trims(Items(s)));
  }

  // ---------- The functions ----------

  /** arrcollapse(). */
  method ArrCollapse(slots: array?<int>, payload: array<char>, ghost strings: seq<string>)
    requires slots != null ==> IsList(slots[..], payload[..], strings)
    modifies slots
    ensures slots != null ==> IsList(slots[..], payload[..], NonEmpty(strings))
  {
    hide Layout, NonEmpty;
    if slots != null {
      assert strings[0..] == strings && strings[..0] + NonEmpty(strings) == NonEmpty(strings);
      RemoveEmpty(slots, payload, 0, strings);
    }
  }

  /** arr2str(). */
  method Arr2Str(slots: array?<int>, payload: array<char>, ghost strings: seq<string>) returns (buffer: array?<char>)
    requires slots != null ==> IsList(slots[..], payload[..], strings)
    ensures buffer == null <==> slots == null
    ensures slots != null ==> fresh(buffer) && Holds(buffer[..], 0, Join(strings))
  {
    if slots == null {
      return null;
    }
    hide Join, Weight;
    assert strings[0..] == strings;
    buffer := ToString(slots, payload, 0, strings);
    NoNul(slots[..], payload[..], strings);
    JoinCharacters(strings);
  }

  // ---------- Splitting in place ----------

  function Lefts(items: seq<string>): seq<string> {
    seq(|items|, i requires 0 <= i < |items| => TrimLeft(items[i]))
  }

  /** The pointer to the item that began at start, as far as the scan has come. */
  predicate Current(p: int, bytes: seq<char>, s: string, start: nat, i: nat, begun: bool)
    requires start <= i <= |s| < |bytes|
  {
    if begun then
      && start <= p < i && !IsSpace(s[p]) && (forall k :: start <= k < p ==> IsSpace(s[k]))
      && (forall k :: p <= k < i ==> bytes[k] == s[k])
    else
      && (forall k :: start <= k < i ==> IsSpace(s[k]))
      && ((start - 1 <= p < i && 0 <= p && bytes[p] == '\0') || p == i == start == 0)
  }

  /** The items before start are split off and freed of leading white space; the rest is unread from i on. */
  ghost predicate Splitting(slots: seq<int>, bytes: seq<char>, s: string, done: seq<string>, start: nat, i: nat,
                            begun: bool) {
    && start <= i <= |s| && |bytes| == |s| + 1 && bytes[i..] == s[i..] + ['\0'] && '\0' !in s
    && |slots| == |done| + 2 + Delimiters(s[i..]) && (forall j :: |done| < j < |slots| ==> slots[j] == NULL)
    && Layout(slots, bytes, done, start) && Current(slots[|done|], bytes, s, start, i, begun)
    && FirstDelimiter(s[start..]) == i - start + FirstDelimiter(s[i..])
    && Lefts(Items(s)) == done + Lefts(Items(s[start..]))
  }

  lemma SplitStart(slots: seq<int>, bytes: seq<char>, s: string)
    requires |slots| == Delimiters(s) + 2 && bytes == s + ['\0'] && '\0' !in s
    requires slots[0] == 0 && forall j :: 0 < j < |slots| ==> slots[j] == NULL
    ensures Splitting(slots, bytes, s, [], 0, 0, false)
  {
    assert s[0..] == s && bytes[0..] == bytes;
  }

  /** What the scan sees next. */
  lemma SplitSees(slots: seq<int>, bytes: seq<char>, s: string, done: seq<string>, start: nat, i: nat, begun: bool)
    requires Splitting(slots, bytes, s, done, start, i, begun)
    ensures start <= i < |bytes| && |done| < |slots| && (bytes[i] == '\0' <==> i == |s|)
    ensures i < |s| ==> bytes[i] == s[i]
    ensures i < |s| && IsDelimiter(s[i]) ==> |done| + 1 < |slots|
  {
    assert bytes[i] == bytes[i..][0];
  }

  /** The item that ends at i. */
  lemma ItemEnds(p: int, bytes: seq<char>, after: seq<char>, s: string, start: nat, i: nat, begun: bool)
    requires start <= i <= |s| < |bytes| && Current(p, bytes, s, start, i, begun) && '\0' !in s
    requires |after| == |bytes| && after[i] == '\0' && forall k :: 0 <= k < |bytes| && k != i ==> after[k] == bytes[k]
    ensures Holds(after, p, TrimLeft(s[start..i])) && start - 1 <= p && p + |TrimLeft(s[start..i])| <= i
  {
    hide TrimLeft;
    TrimLeftIs(s[start..i], if begun then p - start else i - start);
    if begun {
      assert after[p..i] == s[p..i] && s[start..i][p - start..] == s[p..i];
    }
  }

  lemma LayoutBelow(slots: seq<int>, after: seq<int>, before: seq<char>, bytes: seq<char>, done: seq<string>,
                    limit: nat)
    requires Layout(slots, before, done, limit) && |after| == |slots| && |bytes| == |before|
    requires forall j :: 0 <= j < |done| ==> after[j] == slots[j]
    requires forall k :: 0 <= k < limit && k < |bytes| ==> bytes[k] == before[k]
    ensures Layout(after, bytes, done, limit)
  {
    forall j | 0 <= j < |done| ensures Holds(bytes, after[j], done[j]) {
      HoldsStill(before, bytes, slots[j], done[j]);
    }
  }

  lemma LayoutItem(slots: seq<int>, bytes: seq<char>, done: seq<string>, start: nat, i: nat, item: string)
    requires Layout(slots, bytes, done, start) && |done| < |slots| && start <= i
    requires Holds(bytes, slots[|done|], item) && start - 1 <= slots[|done|] && slots[|done|] + |item| <= i
    ensures Layout(slots, bytes, done + [item], i + 1)
  {
    assert forall j :: 0 <= j < |done| ==> (done + [item])[j] == done[j];
  }

  lemma LeftsOf(first: string, rest: seq<string>)
    ensures Lefts([first] + rest) == [TrimLeft(first)] + Lefts(rest)
  {
    hide TrimLeft;
    forall i | 0 <= i < |rest| ensures Lefts([first] + rest)[1 + i] == Lefts(rest)[i] {
      assert ([first] + rest)[1 + i] == rest[i];
    }
  }

  lemma FirstItem(t: string)
    ensures var k := FirstDelimiter(t);
            Items(t) == [t[..k]] + if k == |t| then [] else Items(t[k + 1..])
  {
    hide FirstDelimiter;
    assert t[..|t|] == t;
  }

  lemma LeftsNone()
    ensures Lefts([]) == []
  {
  }

  /** An item is complete: the items so far, and those to come. */
  lemma ItemsStep(s: string, done: seq<string>, start: nat, i: nat)
    requires start <= i <= |s| && FirstDelimiter(s[start..]) == i - start
    ensures i < |s| ==>
      done + Lefts(Items(s[start..])) == (done + [TrimLeft(s[start..i])]) + Lefts(Items(s[i + 1..]))
    ensures i == |s| ==> done + Lefts(Items(s[start..])) == done + [TrimLeft(s[start..i])]
  {
    hide TrimLeft, FirstDelimiter, Items, Lefts;
    var item := s[start..i];
    FirstItem(s[start..]);
    assert s[start..][..i - start] == item;
    if i == |s| {
      LeftsOf(item, []);
      LeftsNone();
    } else {
      assert s[start..][i - start + 1..] == s[i + 1..];
      LeftsOf(item, Items(s[i + 1..]));
    }
  }

  lemma AtDelimiter(slots: seq<int>, after: seq<int>, bytes: seq<char>, now: seq<char>, s: string, done: seq<string>,
                    start: nat, i: nat, begun: bool)
    requires Splitting(slots, bytes, s, done, start, i, begun) && i < |s| && IsDelimiter(s[i])
    requires now == bytes[i := '\0'] && after == slots[|done| + 1 := i]
    ensures Splitting(after, now, s, done + [TrimLeft(s[start..i])], i + 1, i + 1, false)
  {
    hide Layout, Items, Lefts, TrimLeft, Holds;
    assert s[i..][1..] == s[i + 1..] && s[i..][0] == s[i];
    assert now[i + 1..] == bytes[i..][1..] && bytes[i..][1..] == s[i + 1..] + ['\0'];
    ItemEnds(slots[|done|], bytes, now, s, start, i, begun);
    LayoutBelow(slots, after, bytes, now, done, start);
    LayoutItem(after, now, done, start, i, TrimLeft(s[start..i]));
    ItemsStep(s, done, start, i);
  }

  lemma AtText(slots: seq<int>, after: seq<int>, bytes: seq<char>, now: seq<char>, s: string, done: seq<string>,
               start: nat, i: nat, begun: bool)
    requires Splitting(slots, bytes, s, done, start, i, begun) && i < |s| && !IsDelimiter(s[i])
    requires after == if begun then slots else slots[|done| := i]
    requires now == if begun || !IsSpace(s[i]) then bytes else bytes[i := '\0']
    ensures Splitting(after, now, s, done, start, i + 1, begun || !IsSpace(s[i]))
  {
    hide Layout, Items, Lefts, TrimLeft;
    assert s[i..][1..] == s[i + 1..] && s[i..][0] == s[i] && bytes[i] == bytes[i..][0];
    assert now[i + 1..] == bytes[i..][1..] && bytes[i..][1..] == s[i + 1..] + ['\0'];
    LayoutBelow(slots, after, bytes, now, done, start);
  }

  lemma SeesEnd(slots: seq<int>, bytes: seq<char>, s: string, done: seq<string>, start: nat, begun: bool)
    requires Splitting(slots, bytes, s, done, start, |s|, begun)
    ensures |slots| == |done| + 2 && slots[|done| + 1] == NULL && bytes[|s|] == '\0'
    ensures start <= |s| < |bytes| && '\0' !in s && Current(slots[|done|], bytes, s, start, |s|, begun)
    ensures Layout(slots, bytes, done, start) && Lefts(Items(s)) == done + Lefts(Items(s[start..]))
    ensures FirstDelimiter(s[start..]) == |s| - start && |bytes| == |s| + 1
  {
    hide Layout, Items, Lefts, Current;
    assert s[|s|..] == "" && bytes[|s|..] == ['\0'] && bytes[|s|] == bytes[|s|..][0];
  }

  lemma AtEnd(slots: seq<int>, bytes: seq<char>, s: string, done: seq<string>, start: nat, begun: bool)
    requires Splitting(slots, bytes, s, done, start, |s|, begun)
    ensures IsList(slots, bytes, Lefts(Items(s)))
  {
    hide Splitting, Layout, Items, Lefts, TrimLeft, Holds, Current, FirstDelimiter, Delimiters;
    SeesEnd(slots, bytes, s, done, start, begun);
    ItemEnds(slots[|done|], bytes, bytes, s, start, |s|, begun);
    LayoutItem(slots, bytes, done, start, |s|, TrimLeft(s[start..|s|]));
    ItemsStep(s, done, start, |s|);
  }

  /** The second pass of str2arr(): delimiters and leading white space become terminators. */
  method SplitInPlace(slots: array<int>, payload: array<char>, ghost s: string)
    requires slots.Length == Delimiters(s) + 2 && payload[..] == s + ['\0'] && '\0' !in s
    requires forall j :: 0 <= j < slots.Length ==> slots[j] == NULL
    modifies slots, payload
    ensures IsList(slots[..], payload[..], Lefts(Items(s)))
  {
    hide Layout, IsList, Items, Lefts, TrimLeft, Delimiters, FirstDelimiter, Splitting, Current;
    ghost var done, start := [], 0;
    var ptr, index, begun := 0, 0, false;
    slots[index] := ptr;
    SplitStart(slots[..], payload[..], s);
    SplitSees(slots[..], payload[..], s, done, start, ptr, begun);
    while payload[ptr] != '\0'
      invariant 0 <= ptr <= |s| && payload.Length == |s| + 1 && index == |done| < slots.Length
      invariant Splitting(slots[..], payload[..], s, done, start, ptr, begun)
      invariant payload[ptr] == '\0' <==> ptr == |s|
      decreases |s| - ptr
    {
      ghost var before, bytes := slots[..], payload[..];
      SplitSees(before, bytes, s, done, start, ptr, begun);
      if IsDelimiter(payload[ptr]) {
        payload[ptr] := '\0';
        index := index + 1;
        slots[index] := ptr;
        AtDelimiter(before, slots[..], bytes, payload[..], s, done, start, ptr, begun);
        done, start := done + [TrimLeft(s[start..ptr])], ptr + 1;
        begun := false;
      } else {
        ghost var was := begun;
        if !begun {
          slots[index] := ptr;
          if IsSpace(payload[ptr]) {
            payload[ptr] := '\0';
          } else {
            begun := true;
          }
        }
        AtText(before, slots[..], bytes, payload[..], s, done, start, ptr, was);
      }
      ptr := ptr + 1;
      SplitSees(slots[..], payload[..], s, done, start, ptr, begun);
    }
    AtEnd(slots[..], payload[..], s, done, start, begun);
  }

  // ---------- Trimming in place ----------

  /** Trims the end of a string that has no leading white space; the first character always stays. */
  method TrimTail(payload: array<char>, p: nat, ghost s: string)
    requires Holds(payload[..], p, s) && (s != "" ==> !IsSpace(s[0]))
    modifies payload
    ensures Holds(payload[..], p, Trim(s))
    ensures forall i :: 0 <= i < payload.Length && !(p <= i < p + |s|) ==> payload[i] == old(payload[i])
  {
    hide Trim;
    assert forall i :: 0 <= i < |s| ==> payload[p + i] == s[i];
    var n := Strlen(payload, p, s);
    var last := n as int - 1;
    while last > 0 && IsSpace(payload[p + last])
      invariant -1 <= last < n && (n > 0 ==> last >= 0)
      invariant forall i :: 0 <= i <= last ==> payload[p + i] == s[i]
      invariant forall i :: last < i < n ==> IsSpace(s[i])
      invariant payload[p + last + 1] == '\0'
      invariant forall i :: 0 <= i < payload.Length && !(p <= i < p + n) ==> payload[i] == old(payload[i])
    {
      payload[p + last] := '\0';
      last := last - 1;
    }
    TrimIs(s, 0, last + 1);
    assert payload[p..p + last + 1] == s[..last + 1];
  }

  /** The third pass of str2arr(). */
  method TrimTails(slots: array<int>, payload: array<char>, ghost strings: seq<string>)
    requires IsList(slots[..], payload[..], strings)
    requires forall s :: s in strings && s != "" ==> !IsSpace(s[0])
    modifies payload
    ensures IsList(slots[..], payload[..], Trims(strings))
  {
    hide Layout, IsList, Trim, Holds;
    ghost var now := strings;
    var index := 0;
    SlotIs(slots[..], payload[..], now, index);
    while slots[index] != NULL
      invariant index <= |strings| == |now| < slots.Length && IsList(slots[..], payload[..], now)
      invariant slots[index] == NULL <==> index == |strings|
      invariant forall j :: 0 <= j < |strings| ==> now[j] == if j < index then Trim(strings[j]) else strings[j]
      decreases |strings| - index
    {
      SlotIs(slots[..], payload[..], now, index);
      ghost var before, s := payload[..], strings[index];
      assert s in strings;
      TrimTail(payload, slots[index], s);
      OneRewritten(slots[..], before, payload[..], now, index, Trim(s));
      now := now[index := Trim(s)];
      index := index + 1;
      SlotIs(slots[..], payload[..], now, index);
    }
    assert now == Trims(strings);
  }

  lemma TrimsOfLefts(items: seq<string>)
    ensures Trims(Lefts(items)) == Trims(items)
    ensures forall s :: s in Lefts(items) && s != "" ==> !IsSpace(s[0])
  {
    hide Trim;
    forall i | 0 <= i < |items| ensures Trim(TrimLeft(items[i])) == Trim(items[i]) {
    }
  }

  /** str2arr(): the trimmed text between delimiters, in a new buffer. */
  method Str2Arr(list: Option<CString>) returns (slots: array?<int>, payload: array?<char>)
    ensures slots == null <==> list.None?
    ensures slots != null ==> payload != null && fresh(slots) && fresh(payload)
    ensures slots != null ==> IsList(slots[..], payload[..], Trims(Items(list.value)))
  {
    if list.None? {
      return null, null;
    }
    hide IsList, Items, Trims;
    var s := list.value;
    var n, i := 0, 0;
    assert s[0..] == s;
    while i < |s|
      invariant 0 <= i <= |s| && Delimiters(s) == n + Delimiters(s[i..])
    {
      assert s[i..][1..] == s[i + 1..];
      if IsDelimiter(s[i]) {
        n := n + 1;
      }
      i := i + 1;
    }
    n := n + 1;
    slots := new int[n + 1](_ => NULL);
    payload := new char[|s| + 1](_ => '\0');
    forall k | 0 <= k < |s| {
      payload[k] := s[k];
    }
    assert payload[..] == s + ['\0'];
    SplitInPlace(slots, payload, s);
    TrimsOfLefts(Items(s));
    TrimTails(slots, payload, Lefts(Items(s)));
  }
}
