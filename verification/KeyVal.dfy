/**
 * The buffers of keyval.c: a list of pointers to a key and its values, with
 * their characters in the same buffer.
 */
module KeyVal {
  import opened CText
  import opened KeyValText
  import opened Options
  import opened PointerLists

  // ---------- What the scans have seen ----------

  /** The pieces of text that become values: a value is complete at a delimiter or at an unescaped end. */
  function Pieces(t: string): seq<string> {
    if Dangling(t) then Split(t)[..|Split(t)| - 1] else Split(t)
  }

  /** What is stored for the text behind the equals sign. */
  function Stored(t: string): seq<string> {
    Trims(Pieces(t))
  }

  function Unescapes(strings: seq<string>): seq<string> {
    seq(|strings|, i requires 0 <= i < |strings| => Unescape(strings[i]))
  }

  /** The key and the values with their escapes still in place. */
  function Raw(s: string): seq<string> {
    var k := FirstLive(s, "=");
    [Trim(s[..k])] + if k == |s| then [] else Stored(s[k + 1..])
  }

  lemma CleanedIs(pieces: seq<string>)
    requires pieces != []
    ensures Cleaned(pieces) == Unescapes(Trims(pieces))
    ensures Cleaned(pieces)[..|pieces| - 1] == Unescapes(Trims(pieces[..|pieces| - 1]))
  {
    hide Unescape, Trim;
  }

  /** Cutting into pieces first and removing the escapes last comes to what a line means. */
  lemma RawIsParse(src: string)
    ensures Parse(src) == if IsKeyVal(Cut(src)) then Some(Unescapes(Raw(Cut(src)))) else None
  {
    hide FirstLive, CountLive, Dangling, Split, Unescape, Trim, Cut;
    var s := Cut(src);
    if IsKeyVal(s) {
      var k := FirstLive(s, "=");
      OneEqualsSign(s);
      assert s == s[..k + 1] + s[k + 1..];
      AtFirstLive(s, "=", false);
      DanglingOf(s[..k + 1], s[k + 1..], false);
      CleanedIs(Split(s[k + 1..]));
      assert Unescapes(Raw(s)) == [Clean(s[..k])] + Unescapes(Stored(s[k + 1..]));
      assert Intended(s) == [Clean(s[..k])] + Values(s[k + 1..]);
      assert Values(s[k + 1..]) == Cleaned(Split(s[k + 1..]));
      assert Dangling(s) == Dangling(s[k + 1..]);
      assert Intended(s)[..|Intended(s)| - 1] == [Clean(s[..k])] + Values(s[k + 1..])[..|Values(s[k + 1..])| - 1];
    }
  }

  /** The scan has come to scan in the piece that started at val. */
  predicate Scanning(s: string, val: nat, scan: nat, escaped: bool) {
    && val <= scan <= |s|
    && FirstLive(s[val..], ",;") == scan - val + FirstLive(s[scan..], ",;", escaped)
    && Dangling(s[val..]) == Dangling(s[scan..], escaped)
  }

  /** What is still to be stored when the scan has come to scan. */
  function Todo(s: string, val: nat, scan: nat): seq<string> {
    if val <= scan <= |s| then Stored(s[val..]) else []
  }

  lemma StartScan(s: string, from: nat)
    requires from <= |s|
    ensures Scanning(s, from, from, false) && Todo(s, from, from) == Stored(s[from..])
  {
  }

  lemma PiecesStep(t: string)
    requires FirstLive(t, ",;") < |t|
    ensures var k := FirstLive(t, ",;");
            Stored(t) == [Trim(t[..k])] + Stored(t[k + 1..])
  {
    hide FirstLive, Trim, Dangling;
    var k := FirstLive(t, ",;");
    AtFirstLive(t, ",;", false);
    DanglingOf(t[..k + 1], t[k + 1..], false);
    assert t == t[..k + 1] + t[k + 1..];
    assert Split(t) == [t[..k]] + Split(t[k + 1..]);
    hide Split, Trims;
    TrimsOf(t[..k], Pieces(t[k + 1..]));
    assert Pieces(t) == [t[..k]] + Pieces(t[k + 1..]);
  }

  /** The scan goes on past a character, and past the end of the text. */
  lemma ScanStep(s: string, val: nat, scan: nat, escaped: bool)
    requires Scanning(s, val, scan, escaped) && scan < |s|
    ensures Stops(s[scan], ",;", escaped) ==>
      && Scanning(s, scan + 1, scan + 1, false)
      && Todo(s, val, scan) == [Trim(s[val..scan])] + Todo(s, scan + 1, scan + 1)
    ensures !Stops(s[scan], ",;", escaped) ==>
      && Scanning(s, val, scan + 1, EscapesNext(s[scan], escaped))
      && Todo(s, val, scan) == Todo(s, val, scan + 1)
    ensures CountLive(s[scan..], ",;", escaped) ==
      (if Stops(s[scan], ",;", escaped) then 1 else 0) + CountLive(s[scan + 1..], ",;", EscapesNext(s[scan], escaped))
  {
    hide Stored;
    assert s[scan..][1..] == s[scan + 1..];
    if Stops(s[scan], ",;", escaped) {
      assert s[val..][..scan - val] == s[val..scan] && s[val..][scan - val + 1..] == s[scan + 1..];
      PiecesStep(s[val..]);
    }
  }

  lemma NothingTodo(s: string, val: nat, scan: nat)
    requires scan > |s|
    ensures Todo(s, val, scan) == []
  {
  }

  lemma ScanEnd(s: string, val: nat, escaped: bool)
    requires Scanning(s, val, |s|, escaped)
    ensures Todo(s, val, |s|) == if escaped then Todo(s, val, |s| + 1) else [Trim(s[val..])] + Todo(s, |s| + 1, |s| + 1)
  {
    hide Trim;
  }

  lemma UnescapeStep(written: string, text: string, escaped: bool)
    requires text != ""
    ensures EscapesNext(text[0], escaped) ==>
      written + Unescape(text, escaped) == written + Unescape(text[1..], true)
    ensures !EscapesNext(text[0], escaped) ==>
      written + Unescape(text, escaped) == written + [text[0]] + Unescape(text[1..])
  {
  }

  lemma UnescapeNothing()
    ensures Unescape("", false) == Unescape("", true) == ""
  {
  }

  /** Removes the escapes from the string at p: the write position never overtakes the read position. */
  method SanitizeString(payload: array<char>, p: nat, ghost s: string)
    requires Holds(payload[..], p, s)
    modifies payload
    ensures Holds(payload[..], p, Unescape(s))
    ensures forall i :: 0 <= i < payload.Length && !(p <= i < p + |s|) ==> payload[i] == old(payload[i])
  {
    hide Unescape;
    ghost var end := p + |s|;
    var write, ch, escape := p, p, false;
    assert payload[p..p] == "" && payload[p..end] == s;
    assert forall i :: p <= i < end ==> payload[i] == s[i - p];
    while payload[ch] != '\0'
      invariant p <= write <= ch <= end && '\0' !in payload[p..write]
      invariant payload[end] == '\0' && forall i :: ch <= i < end ==> payload[i] != '\0'
      invariant Unescape(s) == payload[p..write] + Unescape(payload[ch..end], escape)
      invariant forall i :: 0 <= i < p || end <= i < payload.Length ==> payload[i] == old(payload[i])
      decreases end - ch
    {
      var c := payload[ch];
      ghost var written, text := payload[p..write], payload[ch..end];
      assert text[0] == c;
      UnescapeStep(written, text, escape);
      if c == '\\' && !escape {
        escape := true;
      } else {
        escape := false;
        payload[write] := c;
        write := write + 1;
        assert payload[p..write] == written + [c];
      }
      ch := ch + 1;
      assert payload[ch..end] == text[1..];
    }
    assert payload[ch..end] == "";
    UnescapeNothing();
    ghost var written := payload[p..write];
    payload[write] := '\0';
    assert payload[p..write] == written;
  }

  class Buffer {
    const slots: array<int>
    const payload: array<char>
    /** The key and the values. */
    ghost var strings: seq<string>

    ghost predicate Valid()
      reads this, slots, payload
    {
      IsList(slots[..], payload[..], strings) && strings != []
    }

    /** An allocated buffer, of any contents. */
    constructor (nslots: nat, nbytes: nat)
      ensures slots.Length == nslots && payload.Length == nbytes && fresh(slots) && fresh(payload)
      ensures strings == []
    {
      slots := new int[nslots];
      payload := new char[nbytes];
      strings := [];
    }

    /** Adds a trimmed piece of the work buffer behind the strings stored so far. */
    method Store(index: nat, writePos: nat, work: array<char>, from: nat, len: nat, ghost text: string)
      returns (next: nat)
      requires Layout(slots[..], payload[..], strings, writePos) && index == |strings| < slots.Length
      requires work != payload && from + len < work.Length && work[from..from + len] == text
      requires !IsSpace(work[from + len]) && '\0' !in text
      requires writePos + |text| < payload.Length
      modifies this, slots, payload
      ensures writePos < next <= writePos + |text| + 1
      ensures strings == old(strings) + [Trim(text)]
      ensures Layout(slots[..], payload[..], strings, next)
    {
      ghost var before := payload[..];
      slots[index] := writePos;
      var n := TrimCopy(payload, writePos, work, from, len, text);
      next := writePos + n + 1;
      forall j | 0 <= j < |strings| ensures Holds(payload[..], slots[j], strings[j]) {
        HoldsStill(before, payload[..], slots[j], strings[j]);
      }
      strings := strings + [Trim(text)];
    }

    /** The values behind the equals sign, and the null pointer behind them. */
    method StoreValues(writePos: nat, work: array<char>, from: nat, ghost s: string)
      requires Holds(work[..], 0, s) && work != payload && from <= |s| < payload.Length
      requires Layout(slots[..], payload[..], strings, writePos) && |strings| == 1 && writePos <= from
      requires CountLive(s[from..], ",;") + 3 <= slots.Length
      modifies this, slots, payload
      ensures Valid() && strings == old(strings) + Stored(s[from..])
    {
      hide FirstLive, CountLive, Dangling, Stored, Scanning, Layout, Trim, Todo;
      assert forall i :: 0 <= i < |s| ==> work[i] == s[i];
      StartScan(s, from);
      var index, write := 1, writePos;
      var val, scan, escape := from, from, false;
      var length := Strlen(work, 0, s);
      while scan <= length
        invariant from <= val <= scan <= length + 1 && write <= val
        invariant index == |strings| && Layout(slots[..], payload[..], strings, write)
        invariant scan <= length ==> Scanning(s, val, scan, escape)
        invariant scan <= length ==> |strings| + CountLive(s[scan..], ",;", escape) + 2 <= slots.Length
        invariant |strings| < slots.Length
        invariant old(strings) + Stored(s[from..]) == strings + Todo(s, val, scan)
      {
        var c := work[scan];
        if scan < length {
          ScanStep(s, val, scan, escape);
        } else {
          ScanEnd(s, val, escape);
        }
        if c == '\\' && !escape {
          escape := true;
        } else {
          if (c in ",;" || c == '\0') && !escape {
            write := Store(index, write, work, val, scan - val, s[val..scan]);
            index := index + 1;
            val := scan + 1;
          }
          escape := false;
        }
        scan := scan + 1;
      }
      ghost var before := slots[..];
      slots[index] := NULL;
      ListEnds(before, slots[..], payload[..], strings, write);
      NothingTodo(s, val, scan);
    }

    /** The key in front of the equals sign, and the values. */
    method StoreAll(work: array<char>, equals: nat, ghost s: string)
      requires Holds(work[..], 0, s) && work != payload && payload.Length == |s| + 1
      requires equals == FirstLive(s, "=") < |s| && s[equals] == '='
      requires Layout(slots[..], payload[..], strings, 0) && strings == []
      requires CountLive(s[equals + 1..], ",;") + 3 <= slots.Length
      modifies this, slots, payload
      ensures Valid() && strings == Raw(s)
    {
      hide FirstLive, CountLive, Dangling, Stored, Trim, Layout;
      assert work[equals] == s[equals] && work[..equals] == s[..equals];
      var write := Store(0, 0, work, 0, equals, s[..equals]);
      StoreValues(write, work, equals + 1, s);
    }

    /** keyval_remove_empty_values(): the pointers to empty values are taken out, the key stays. */
    method RemoveEmptyValues()
      requires Valid()
      modifies this, slots
      ensures Valid() && strings == [old(strings)[0]] + NonEmpty(old(strings)[1..])
    {
      RemoveEmpty(slots, payload, 1, strings);
      strings := strings[..1] + NonEmpty(strings[1..]);
    }

    /** Removes the escapes from every string, in place. */
    method SanitizeValues()
      requires Valid()
      modifies this, payload
      ensures Valid() && strings == Unescapes(old(strings))
    {
      hide Layout, IsList, Unescape, Holds;
      ghost var was := strings;
      var index := 0;
      SlotIs(slots[..], payload[..], strings, index);
      while slots[index] != NULL
        invariant index <= |strings| == |was| < slots.Length && Valid()
        invariant slots[index] == NULL <==> index == |was|
        invariant forall j :: 0 <= j < |was| ==> strings[j] == if j < index then Unescape(was[j]) else was[j]
        decreases |was| - index
      {
        SlotIs(slots[..], payload[..], strings, index);
        ghost var before, s := payload[..], strings[index];
        SanitizeString(payload, slots[index], s);
        OneRewritten(slots[..], before, payload[..], strings, index, Unescape(s));
        strings := strings[index := Unescape(s)];
        index := index + 1;
        SlotIs(slots[..], payload[..], strings, index);
      }
    }
  }

  /** keyval2valstr(). */
  method ToValueString(kv: Buffer?) returns (buffer: array?<char>)
    requires kv != null ==> kv.Valid()
    ensures buffer == null <==> kv == null
    ensures kv != null ==> fresh(buffer) && Holds(buffer[..], 0, Join(kv.strings[1..]))
  {
    if kv == null {
      return null;
    }
    hide Layout, IsList, Join, Weight;
    buffer := ToString(kv.slots, kv.payload, 1, kv.strings);
    NoNul(kv.slots[..], kv.payload[..], kv.strings);
    JoinCharacters(kv.strings[1..]);
  }

  /** The printed form is the joined one with the byte behind the key replaced. */
  lemma FromJoined(strings: seq<string>)
    requires strings != []
    ensures var list, k := Join(strings), |strings[0]|;
            && k <= |list| && Weight(strings) == |list| + 1
            && Printed(strings) == list[..k] + "=" + if k == |list| then "" else list[k + 1..]
  {
    JoinLength(strings);
    var key, rest, list := strings[0], Join(strings[1..]), Join(strings);
    if |strings| == 1 {
      assert list == key && rest == "";
    } else {
      assert list == key + "," + rest;
      assert list[|key| + 1..] == rest && list[..|key|] == key;
    }
  }

  lemma EqualsWritten(list: string, k: nat, before: seq<char>, after: seq<char>)
    requires k <= |list| && |list| + 2 == |before| && before[..|list|] == list && Zero(before[|list|..])
    requires after == before[k := '='] && '\0' !in list
    ensures Holds(after, 0, list[..k] + "=" + if k == |list| then "" else list[k + 1..])
  {
    if k == |list| {
      assert after[..k + 1] == list + "=";
      assert after[k + 1] == before[|list|..][1];
    } else {
      assert after[..|list|] == list[..k] + "=" + list[k + 1..];
      assert after[|list|] == before[|list|..][0];
    }
  }

  /** keyval2str(): the first comma, or the terminator of a key alone, becomes the equals sign. */
  method ToKeyValString(kv: Buffer) returns (buffer: array<char>)
    requires kv.Valid()
    ensures fresh(buffer) && Holds(buffer[..], 0, Printed(kv.strings))
  {
    hide Layout, IsList, Join, Weight;
    buffer := ToString(kv.slots, kv.payload, 0, kv.strings);
    SlotIs(kv.slots[..], kv.payload[..], kv.strings, 0);
    var n := Strlen(kv.payload, kv.slots[0], kv.strings[0]);
    FromJoined(kv.strings);
    assert kv.strings[0..] == kv.strings;
    NoNul(kv.slots[..], kv.payload[..], kv.strings);
    JoinCharacters(kv.strings);
    ghost var list := Join(kv.strings);
    ghost var before := buffer[..];
    assert before[..|list|] == list && Zero(before[|list|..]);
    buffer[n] := '=';
    EqualsWritten(list, n, before, buffer[..]);
  }

  /** A working copy of the line without its comment. */
  method RemoveComments(src: CString) returns (work: array<char>)
    ensures fresh(work) && Holds(work[..], 0, Cut(src))
  {
    work := new char[|src| + 1];
    var i, escape := 0, false;
    assert src[0..] == src;
    while i < |src|
      invariant 0 <= i <= |src| && work[..i] == src[..i]
      invariant FirstLive(src, "#") == i + FirstLive(src[i..], "#", escape)
    {
      var c := src[i];
      assert src[i..][1..] == src[i + 1..];
      if c == '\\' && !escape {
        escape := true;
      } else if c == '#' && !escape {
        break;
      } else {
        escape := false;
      }
      work[i] := c;
      i := i + 1;
    }
    work[i] := '\0';
  }

  /** Counts the unescaped equals signs and remembers the last of them. */
  method FindEquals(work: array<char>, ghost s: string) returns (count: nat, equals: nat)
    requires Holds(work[..], 0, s) && FirstLive(s, "#") == |s|
    ensures count == CountLive(s, "=") && (count == 1 ==> equals == FirstLive(s, "="))
  {
    assert forall i :: 0 <= i < |s| ==> work[i] == s[i];
    var i, escape := 0, false;
    count, equals := 0, 0;
    assert s[0..] == s;
    while work[i] != '\0'
      invariant 0 <= i <= |s| && FirstLive(s[i..], "#", escape) == |s| - i
      invariant CountLive(s, "=") == count + CountLive(s[i..], "=", escape)
      invariant count == 0 ==> FirstLive(s, "=") == i + FirstLive(s[i..], "=", escape)
      invariant count == 1 ==> equals == FirstLive(s, "=")
      decreases |s| - i
    {
      var c := work[i];
      assert s[i..][1..] == s[i + 1..];
      if c == '\\' && !escape {
        escape := true;
      } else if c == '#' && !escape {
        assert false;
      } else {
        if c == '=' && !escape {
          count := count + 1;
          equals := i;
        }
        escape := false;
      }
      i := i + 1;
    }
  }

  /** Counts the unescaped list delimiters of the whole line, key included. */
  method CountDelimiters(work: array<char>, ghost s: string) returns (count: nat)
    requires Holds(work[..], 0, s)
    ensures count == CountLive(s, ",;")
  {
    assert forall i :: 0 <= i < |s| ==> work[i] == s[i];
    var i, escape := 0, false;
    count := 0;
    assert s[0..] == s;
    while work[i] != '\0'
      invariant 0 <= i <= |s|
      invariant CountLive(s, ",;") == count + CountLive(s[i..], ",;", escape)
      decreases |s| - i
    {
      var c := work[i];
      assert s[i..][1..] == s[i + 1..];
      if c == '\\' && !escape {
        escape := true;
      } else {
        if c in ",;" && !escape {
          count := count + 1;
        }
        escape := false;
      }
      i := i + 1;
    }
  }

  /** The delimiters behind the equals sign are among those of the whole line. */
  lemma FewerDelimitersBehind(s: string)
    requires FirstLive(s, "=") < |s|
    ensures CountLive(s[FirstLive(s, "=") + 1..], ",;") <= CountLive(s, ",;")
  {
    hide FirstLive, CountLive, Dangling;
    var k := FirstLive(s, "=");
    AtFirstLive(s, "=", false);
    CountLiveOf(s[..k + 1], s[k + 1..], ",;", false);
    assert s == s[..k + 1] + s[k + 1..];
  }

  /** Key and values with their escapes, in one buffer of slots and payload; none if there is not one equals sign. */
  method GetKeyVal(work: array<char>, ghost s: string) returns (kv: Buffer?)
    requires Holds(work[..], 0, s) && FirstLive(s, "#") == |s|
    ensures kv == null <==> !IsKeyVal(s)
    ensures kv != null ==> fresh(kv) && fresh(kv.slots) && fresh(kv.payload) && kv.Valid()
    ensures kv != null ==> kv.slots.Length == CountLive(s, ",;") + 3 && kv.payload.Length == |s| + 1
    ensures kv != null ==> kv.strings == Raw(s)
  {
    var count, equals := FindEquals(work, s);
    if count != 1 {
      return null;
    }
    var delimiters := CountDelimiters(work, s);
    var length := Strlen(work, 0, s);
    OneEqualsSign(s);
    FewerDelimitersBehind(s);
    hide FirstLive, CountLive, Dangling, Stored, Trim, Layout;
    kv := new Buffer(1 + (delimiters + 1) + 1, length + 1);
    LayoutNone(kv.slots[..], kv.payload[..]);
    kv.StoreAll(work, equals, s);
  }

  /** No comment is left. */
  lemma CutIsCut(src: string)
    ensures FirstLive(Cut(src), "#") == |Cut(src)|
  {
    if FirstLive(src, "#") < |src| {
      AtFirstLive(src, "#", false);
    } else {
      assert src[..|src|] == src;
    }
  }

  /** keyval_create(): what Parse says, for every line. */
  method Create(line: Option<CString>) returns (kv: Buffer?)
    ensures kv == null <==> line.None? || Parse(line.value).None?
    ensures kv != null ==> fresh(kv) && fresh(kv.slots) && fresh(kv.payload) && kv.Valid()
    ensures kv != null ==> Parse(line.value) == Some(kv.strings)
  {
    if line.None? {
      return null;
    }
    var work := RemoveComments(line.value);
    RawIsParse(line.value);
    CutIsCut(line.value);
    kv := GetKeyVal(work, Cut(line.value));
    if kv != null {
      kv.SanitizeValues();
    }
  }
}
