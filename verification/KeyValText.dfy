/**
 * The "key = value, value" format (keyval.c): what a line means, which lines
 * are refused, and that every key and value can be written so that parsing
 * gives it back.
 */
module KeyValText {
  import opened CText
  import opened Options

  // ---------- Escapes ----------

  /** Whether a character is escaped after c, given whether c is. */
  predicate EscapesNext(c: char, escaped: bool) {
    c == '\\' && !escaped
  }

  /** Whether s ends in an escape that has no character to apply to. */
  predicate Dangling(s: string, escaped: bool := false) {
    if s == [] then escaped else Dangling(s[1..], EscapesNext(s[0], escaped))
  }

  /** A character of stops that no escape precedes. */
  predicate Stops(c: char, stops: string, escaped: bool) {
    c in stops && !escaped && c != '\\'
  }

  /** Where the first unescaped character of stops is; the length when there is none. */
  function FirstLive(s: string, stops: string, escaped: bool := false): (k: nat)
    ensures k <= |s|
  {
    if s == [] || Stops(s[0], stops, escaped) then 0
    else 1 + FirstLive(s[1..], stops, EscapesNext(s[0], escaped))
  }

  /** How many there are. */
  function CountLive(s: string, stops: string, escaped: bool := false): nat {
    if s == [] then 0
    else (if Stops(s[0], stops, escaped) then 1 else 0) + CountLive(s[1..], stops, EscapesNext(s[0], escaped))
  }

  /** The string without the backslashes that escape. */
  function Unescape(s: string, escaped: bool := false): (r: string)
    ensures |r| <= |s|
  {
    if s == [] then ""
    else if EscapesNext(s[0], escaped) then Unescape(s[1..], true)
    else [s[0]] + Unescape(s[1..])
  }

  // ---------- The meaning of a line ----------

  /** The line without its comment. */
  function Cut(src: string): string {
    src[..FirstLive(src, "#")]
  }

  /** The text between unescaped list delimiters. */
  function Split(s: string): (items: seq<string>)
    ensures items != []
  {
    var k := FirstLive(s, ",;");
    if k == |s| then [s] else [s[..k]] + Split(s[k + 1..])
  }

  /** A key or value as its reader sees it. */
  function Clean(piece: string): string {
    Unescape(Trim(piece))
  }

  function Cleaned(pieces: seq<string>): seq<string> {
    seq(|pieces|, i requires 0 <= i < |pieces| => Clean(pieces[i]))
  }

  /** The cleaned pieces of a text. */
  function Values(t: string): seq<string> {
    Cleaned(Split(t))
  }

  /** The key and the values that a line without a comment asks for. */
  function Intended(s: string): seq<string> {
    var k := FirstLive(s, "=");
    [Clean(s[..k])] + if k == |s| then [] else Values(s[k + 1..])
  }

  predicate IsKeyVal(s: string) {
    CountLive(s, "=") == 1
  }

  /** What keyval_create() makes of a line: a value that ends the line in a dangling escape is lost. */
  function Parse(src: string): Option<seq<string>> {
    var s := Cut(src);
    if !IsKeyVal(s) then None
    else if Dangling(s) then Some(Intended(s)[..|Intended(s)| - 1])
    else Some(Intended(s))
  }

  lemma {:induction false} CutDangles(src: string, escaped: bool := false)
    ensures Dangling(src[..FirstLive(src, "#", escaped)], escaped)
       <==> FirstLive(src, "#", escaped) == |src| && Dangling(src, escaped)
  {
    if src != [] && !Stops(src[0], "#", escaped) {
      CutDangles(src[1..], EscapesNext(src[0], escaped));
      assert src[..FirstLive(src, "#", escaped)][1..] == src[1..][..FirstLive(src, "#", escaped) - 1];
    } else {
      assert src[..0] == [];
    }
  }

  /** The lines that are read as intended, by what a caller can check beforehand. */
  lemma ParseIsIntendedExactly(src: string)
    requires IsKeyVal(Cut(src))
    ensures Parse(src) == Some(Intended(Cut(src))) <==> !(FirstLive(src, "#") == |src| && Dangling(src))
  {
    CutDangles(src);
    assert Intended(Cut(src))[..|Intended(Cut(src))| - 1] != Intended(Cut(src));
  }

  // ---------- Texts in sequence ----------

  lemma {:induction false} DanglingOf(a: string, b: string, escaped: bool)
    ensures Dangling(a + b, escaped) == Dangling(b, Dangling(a, escaped))
  {
    if a == [] {
      assert a + b == b;
    } else {
      assert (a + b)[1..] == a[1..] + b;
      DanglingOf(a[1..], b, EscapesNext(a[0], escaped));
    }
  }

  lemma {:induction false} FirstLiveOf(a: string, b: string, stops: string, escaped: bool)
    requires FirstLive(a, stops, escaped) == |a|
    ensures FirstLive(a + b, stops, escaped) == |a| + FirstLive(b, stops, Dangling(a, escaped))
  {
    if a == [] {
      assert a + b == b;
    } else {
      assert (a + b)[1..] == a[1..] + b;
      FirstLiveOf(a[1..], b, stops, EscapesNext(a[0], escaped));
    }
  }

  lemma {:induction false} CountLiveOf(a: string, b: string, stops: string, escaped: bool)
    ensures CountLive(a + b, stops, escaped) == CountLive(a, stops, escaped) + CountLive(b, stops, Dangling(a, escaped))
  {
    if a == [] {
      assert a + b == b;
    } else {
      assert (a + b)[1..] == a[1..] + b;
      CountLiveOf(a[1..], b, stops, EscapesNext(a[0], escaped));
    }
  }

  lemma {:induction false} UnescapeOf(a: string, b: string, escaped: bool)
    ensures Unescape(a + b, escaped) == Unescape(a, escaped) + Unescape(b, Dangling(a, escaped))
  {
    if a == [] {
      assert a + b == b;
    } else {
      assert (a + b)[1..] == a[1..] + b;
      UnescapeOf(a[1..], b, EscapesNext(a[0], escaped));
    }
  }

  /** No unescaped character of stops: the position and the count agree. */
  lemma {:induction false} NoneLive(s: string, stops: string, escaped: bool)
    ensures CountLive(s, stops, escaped) == 0 <==> FirstLive(s, stops, escaped) == |s|
  {
    if s != [] {
      NoneLive(s[1..], stops, EscapesNext(s[0], escaped));
    }
  }

  /** The text before the first unescaped stop, and the stop, leave no escape open. */
  lemma {:induction false} AtFirstLive(s: string, stops: string, escaped: bool)
    requires FirstLive(s, stops, escaped) < |s|
    ensures var k := FirstLive(s, stops, escaped);
            && Stops(s[k], stops, false)
            && FirstLive(s[..k], stops, escaped) == k && !Dangling(s[..k], escaped) && !Dangling(s[..k + 1], escaped)
  {
    var k := FirstLive(s, stops, escaped);
    if k > 0 {
      AtFirstLive(s[1..], stops, EscapesNext(s[0], escaped));
      assert s[..k][1..] == s[1..][..k - 1] && s[..k + 1][1..] == s[1..][..k];
    } else {
      assert s[..1][1..] == [];
    }
  }

  /** What parsing makes of a line put together from a key and values that neither end nor escape it. */
  predicate Inert(s: string) {
    FirstLive(s, "#") == |s| && FirstLive(s, "=") == |s| && FirstLive(s, ",;") == |s| && !Dangling(s)
  }

  lemma {:induction false} JoinInert(items: seq<string>, stops: string)
    requires items != [] && ',' !in stops
    requires forall i :: 0 <= i < |items| ==> FirstLive(items[i], stops) == |items[i]| && !Dangling(items[i])
    ensures FirstLive(Join(items), stops) == |Join(items)| && !Dangling(Join(items))
  {
    if |items| > 1 {
      var rest := "," + Join(items[1..]);
      JoinInert(items[1..], stops);
      assert rest[1..] == Join(items[1..]);
      FirstLiveOf(items[0], rest, stops, false);
      DanglingOf(items[0], rest, false);
      assert Join(items) == items[0] + rest;
    }
  }

  /** Joining and splitting are inverse. */
  lemma {:induction false} SplitJoin(items: seq<string>)
    requires items != []
    requires forall i :: 0 <= i < |items| ==> FirstLive(items[i], ",;") == |items[i]| && !Dangling(items[i])
    ensures Split(Join(items)) == items
  {
    if |items| > 1 {
      var rest := "," + Join(items[1..]);
      SplitJoin(items[1..]);
      FirstLiveOf(items[0], rest, ",;", false);
      assert Join(items) == items[0] + rest;
      assert Join(items)[|items[0]| + 1..] == Join(items[1..]);
    }
  }

  /** A character that does not escape, in front of a text. */
  lemma InFront(c: char, t: string, stops: string)
    requires c != '\\'
    ensures FirstLive([c] + t, stops) == if c in stops then 0 else 1 + FirstLive(t, stops)
    ensures CountLive([c] + t, stops) == (if c in stops then 1 else 0) + CountLive(t, stops)
    ensures Dangling([c] + t) == Dangling(t)
  {
    assert ([c] + t)[1..] == t;
  }

  lemma ParseLine(key: string, t: string)
    requires FirstLive(key, "#") == FirstLive(key, "=") == |key| && !Dangling(key)
    requires FirstLive(t, "#") == FirstLive(t, "=") == |t|
    ensures var list := [Clean(key)] + Values(t);
            Parse(key + "=" + t) == Some(if Dangling(t) then list[..|list| - 1] else list)
  {
    hide FirstLive, CountLive, Dangling, Clean, Values;
    var rest := ['='] + t;
    var line := key + rest;
    assert key + "=" + t == line;
    InFront('=', t, "#");
    InFront('=', t, "=");
    FirstLiveOf(key, rest, "#", false);
    FirstLiveOf(key, rest, "=", false);
    CountLiveOf(key, rest, "=", false);
    NoneLive(key, "=", false);
    NoneLive(t, "=", false);
    DanglingOf(key, rest, false);
    assert line[..|line|] == line && line[..|key|] == key && line[|key| + 1..] == t;
  }

  lemma ParseJoined(key: string, items: seq<string>)
    requires FirstLive(key, "#") == FirstLive(key, "=") == |key| && !Dangling(key)
    requires items != [] && forall i :: 0 <= i < |items| ==> Inert(items[i])
    ensures Parse(key + "=" + Join(items)) == Some([Clean(key)] + Cleaned(items))
  {
    hide FirstLive, Dangling, Clean, Parse, Join;
    JoinInert(items, "#");
    JoinInert(items, "=");
    SplitJoin(items);
    ParseLine(key, Join(items));
  }

  /** A comment behind a line is not read, whatever it says. */
  lemma CommentIgnored(line: string, comment: string)
    requires FirstLive(line, "#") == |line| && !Dangling(line)
    ensures Cut(line + "#" + comment) == line && Parse(line + "#" + comment) == Parse(line)
  {
    hide FirstLive, CountLive, Dangling, Intended;
    var rest := ['#'] + comment;
    var src := line + rest;
    assert src == line + "#" + comment;
    InFront('#', comment, "#");
    FirstLiveOf(line, rest, "#", false);
    assert src[..|line|] == line && line[..|line|] == line;
  }

  // ---------- Every key and value can be written ----------

  /** A backslash before every character with a meaning of its own. */
  function Escape(s: string): string {
    if s == [] then "" else (if s[0] in "\\#=,;" then "\\" else "") + [s[0]] + Escape(s[1..])
  }

  /** White space at the ends is kept by an escape: the one at the end has a space to lose to trimming. */
  function Written(s: string): string {
    (if s != [] && IsSpace(s[0]) then "\\" else "") + Escape(s) +
    (if s != [] && IsSpace(s[|s| - 1]) then "\\ " else "")
  }

  function AllWritten(items: seq<string>): seq<string> {
    seq(|items|, i requires 0 <= i < |items| => Written(items[i]))
  }

  /** stops holds no other characters than those that Escape escapes. */
  predicate Special(stops: string) {
    forall c :: c in stops ==> c in "#=,;"
  }

  /** An escaped character, or one without a meaning of its own, in front of a text. */
  lemma EscapedInFront(c: char, t: string, stops: string, escaped: bool)
    requires Special(stops) && (escaped ==> c !in "\\#=,;")
    ensures var s := (if c in "\\#=,;" then "\\" else "") + [c] + t;
            && FirstLive(s, stops, escaped) == |s| - |t| + FirstLive(t, stops)
            && Dangling(s, escaped) == Dangling(t) && Unescape(s, escaped) == [c] + Unescape(t)
  {
    if c in "\\#=,;" {
      var s := "\\" + [c] + t;
      assert s[1..] == [c] + t && s[1..][1..] == t;
    } else {
      assert ([c] + t)[1..] == t && "" + [c] + t == [c] + t;
    }
  }

  lemma NothingInert(stops: string)
    ensures FirstLive("", stops) == 0 && !Dangling("") && Unescape("") == ""
  {
  }

  lemma {:induction false} EscapeInert(s: string, stops: string, escaped: bool)
    requires Special(stops) && (escaped ==> s != [] && s[0] !in "\\#=,;")
    ensures FirstLive(Escape(s), stops, escaped) == |Escape(s)| && !Dangling(Escape(s), escaped)
    ensures Unescape(Escape(s), escaped) == s
  {
    hide FirstLive, Dangling, Unescape, Special;
    if s == [] {
      NothingInert(stops);
    } else {
      EscapeInert(s[1..], stops, false);
      EscapedInFront(s[0], Escape(s[1..]), stops, escaped);
      assert s == [s[0]] + s[1..];
    }
  }

  lemma {:induction false} EscapeEnds(s: string)
    requires s != []
    ensures Escape(s) != [] && Escape(s)[|Escape(s)| - 1] == s[|s| - 1]
    ensures Escape(s)[0] == '\\' || Escape(s)[0] == s[0]
  {
    if |s| > 1 {
      EscapeEnds(s[1..]);
    } else {
      assert s[1..] == [];
    }
  }

  lemma EscapedSpace(stops: string)
    requires Special(stops)
    ensures FirstLive("\\ ", stops) == 2 && !Dangling("\\ ")
  {
    var s := "\\ ";
    assert s[1..] == " ";
    assert FirstLive(" ", stops, true) == 1 && !Dangling(" ", true);
  }

  lemma WrittenStops(s: string, stops: string)
    requires Special(stops)
    ensures FirstLive(Written(s), stops) == |Written(s)| && !Dangling(Written(s))
  {
    var front := if s != [] && IsSpace(s[0]) then "\\" else "";
    var back := if s != [] && IsSpace(s[|s| - 1]) then "\\ " else "";
    assert FirstLive(front, stops) == |front| && Dangling(front) == (front != "");
    EscapedSpace(stops);
    hide FirstLive, Dangling, Escape;
    EscapeInert(s, stops, front != "");
    FirstLiveOf(front, Escape(s), stops, false);
    DanglingOf(front, Escape(s), false);
    FirstLiveOf(front + Escape(s), back, stops, false);
    DanglingOf(front + Escape(s), back, false);
  }

  /** Trimming takes at most the space after the last escape. */
  function Kept(s: string): string {
    (if s != [] && IsSpace(s[0]) then "\\" else "") + Escape(s) +
    (if s != [] && IsSpace(s[|s| - 1]) then "\\" else "")
  }

  lemma TrimWritten(s: string)
    ensures Trim(Written(s)) == Kept(s)
  {
    if s != [] {
      EscapeEnds(s);
    }
    hide Trim, Escape;
    assert Written(s)[..|Kept(s)|] == Kept(s);
    TrimIs(Written(s), 0, |Kept(s)|);
  }

  lemma Backslash()
    ensures Unescape("\\") == "" && Dangling("\\") && Unescape("") == "" && !Dangling("")
  {
    assert "\\"[1..] == "";
  }

  lemma CleanWritten(s: string)
    ensures Clean(Written(s)) == s
  {
    var front := if s != [] && IsSpace(s[0]) then "\\" else "";
    var back := if s != [] && IsSpace(s[|s| - 1]) then "\\" else "";
    hide FirstLive, Dangling, Escape, Unescape, Trim, Written;
    Backslash();
    TrimWritten(s);
    EscapeInert(s, "", front != "");
    UnescapeOf(front, Escape(s), false);
    DanglingOf(front, Escape(s), false);
    assert Unescape(front + Escape(s)) == s;
    assert Kept(s) == front + Escape(s) + back;
    hide Kept;
    UnescapeOf(front + Escape(s), back, false);
  }

  /** Any key and any values, at least one, can be written so that they are read back. */
  lemma RoundTrip(key: string, values: seq<string>)
    requires values != []
    ensures Parse(Written(key) + "=" + Join(AllWritten(values))) == Some([key] + values)
  {
    hide FirstLive, Dangling, Unescape, Trim, Clean, Written, Parse, Join;
    WrittenStops(key, "#");
    WrittenStops(key, "=");
    forall i | 0 <= i < |values| ensures Inert(Written(values[i])) && Clean(Written(values[i])) == values[i] {
      WrittenStops(values[i], "#");
      WrittenStops(values[i], "=");
      WrittenStops(values[i], ",;");
      CleanWritten(values[i]);
    }
    CleanWritten(key);
    assert Cleaned(AllWritten(values)) == values;
    ParseJoined(Written(key), AllWritten(values));
  }

  lemma LineInert(key: string, t: string)
    requires FirstLive(key, "#") == |key| && !Dangling(key) && FirstLive(t, "#") == |t| && !Dangling(t)
    ensures FirstLive(key + "=" + t, "#") == |key + "=" + t| && !Dangling(key + "=" + t)
  {
    hide FirstLive, Dangling;
    var rest := ['='] + t;
    assert key + "=" + t == key + rest;
    InFront('=', t, "#");
    FirstLiveOf(key, rest, "#", false);
    DanglingOf(key, rest, false);
  }

  /** The same with any comment behind. */
  lemma RoundTripCommented(key: string, values: seq<string>, comment: string)
    requires values != []
    ensures var line := Written(key) + "=" + Join(AllWritten(values));
            Parse(line + "#" + comment) == Some([key] + values)
  {
    hide FirstLive, Dangling, Unescape, Trim, Clean, Written, Parse, Join;
    var items := AllWritten(values);
    WrittenStops(key, "#");
    forall i | 0 <= i < |values| ensures FirstLive(items[i], "#") == |items[i]| && !Dangling(items[i]) {
      WrittenStops(values[i], "#");
    }
    JoinInert(items, "#");
    LineInert(Written(key), Join(items));
    RoundTrip(key, values);
    CommentIgnored(Written(key) + "=" + Join(items), comment);
  }

  /** Without white space at the ends, escaping alone is enough. */
  lemma WrittenTrimmed(s: string)
    requires Trimmed(s)
    ensures Written(s) == Escape(s)
  {
  }

  lemma BackslashBehind(w: string, stops: string)
    requires FirstLive(w, stops) == |w| && !Dangling(w)
    ensures FirstLive(w + "\\", stops) == |w| + 1 && Dangling(w + "\\")
  {
    FirstLiveOf(w, "\\", stops, false);
    DanglingOf(w, "\\", false);
  }

  lemma LoneValue(value: string)
    ensures |Values(Written(value) + "\\")| == 1
  {
    hide FirstLive, Written, Clean;
    WrittenStops(value, ",;");
    BackslashBehind(Written(value), ",;");
  }

  /** A backslash at the very end of such a line costs it its last value. */
  lemma DanglingLosesValue(key: string, value: string)
    ensures Parse(Written(key) + "=" + Written(value) + "\\") == Some([key])
  {
    hide FirstLive, Written, Clean, Parse;
    var w := Written(value);
    var last := w + "\\";
    WrittenStops(key, "#");
    WrittenStops(key, "=");
    WrittenStops(value, "#");
    WrittenStops(value, "=");
    BackslashBehind(w, "#");
    BackslashBehind(w, "=");
    CleanWritten(key);
    ParseLine(Written(key), last);
    LoneValue(value);
    assert Written(key) + "=" + last == Written(key) + "=" + w + "\\";
  }

  // ---------- Lists that keyval2str() can print ----------

  /** The printed form of a key and values: no escapes. */
  function Printed(list: seq<string>): string
    requires list != []
  {
    list[0] + "=" + Join(list[1..])
  }

  predicate Free(s: string, characters: string) {
    forall c :: c in s ==> c !in characters
  }

  predicate PlainKey(s: string) {
    Trimmed(s) && Free(s, "\\#=")
  }

  predicate PlainValue(s: string) {
    Trimmed(s) && Free(s, "\\#=,;")
  }

  predicate Plain(list: seq<string>) {
    |list| >= 2 && PlainKey(list[0]) && forall i :: 1 <= i < |list| ==> PlainValue(list[i])
  }

  lemma {:induction false} NoBackslash(s: string, stops: string)
    requires '\\' !in s
    ensures FirstLive(s, stops) == |s| <==> Free(s, stops)
    ensures !Dangling(s) && Unescape(s) == s
  {
    if s != [] {
      NoBackslash(s[1..], stops);
      assert s == [s[0]] + s[1..];
    }
  }

  lemma {:induction false} UnescapeLength(s: string)
    ensures |Unescape(s)| == |s| ==> '\\' !in s && Unescape(s) == s
  {
    if s != [] && s[0] != '\\' {
      UnescapeLength(s[1..]);
      assert s == [s[0]] + s[1..];
    }
  }

  lemma {:induction false} TrimLength(s: string)
    ensures |Trim(s)| == |s| ==> Trim(s) == s
  {
  }

  lemma CleanLength(piece: string)
    ensures |Clean(piece)| <= |piece|
    ensures |Clean(piece)| == |piece| ==> Clean(piece) == piece && Trimmed(piece) && '\\' !in piece
  {
    UnescapeLength(Trim(piece));
    TrimLength(piece);
  }

  /** Trimmed values without list delimiters, of the characters of t. */
  predicate AreParts(values: seq<string>, t: string) {
    forall v :: v in values ==> Trimmed(v) && Free(v, ",;") && forall c :: c in v ==> c in t
  }

  lemma CleanedOf(first: string, rest: seq<string>)
    ensures Cleaned([first] + rest) == [Clean(first)] + Cleaned(rest)
  {
    hide Clean;
    forall i | 0 <= i < |rest| ensures Cleaned([first] + rest)[1 + i] == Cleaned(rest)[i] {
      assert ([first] + rest)[1 + i] == rest[i];
    }
  }

  lemma SplitStep(t: string)
    ensures var k := FirstLive(t, ",;");
            Split(t) == [t[..k]] + if k == |t| then [] else Split(t[k + 1..])
  {
    hide FirstLive;
    assert t[..|t|] == t;
  }

  lemma CleanedNone()
    ensures Cleaned([]) == []
  {
  }

  lemma ValuesStep(t: string)
    ensures var k := FirstLive(t, ",;");
            Values(t) == [Clean(t[..k])] + if k == |t| then [] else Values(t[k + 1..])
  {
    hide FirstLive, Clean, Split, Cleaned;
    var k := FirstLive(t, ",;");
    SplitStep(t);
    CleanedOf(t[..k], if k == |t| then [] else Split(t[k + 1..]));
    CleanedNone();
  }

  lemma PartsStep(first: string, rest: seq<string>, t: string, k: nat)
    requires k <= |t| && first == t[..k] && Trimmed(first) && Free(first, ",;")
    requires if k == |t| then rest == [] else AreParts(rest, t[k + 1..])
    ensures AreParts([first] + rest, t) && Weight([first] + rest) == k + 1 + Weight(rest)
  {
    assert ([first] + rest)[1..] == rest;
    assert forall c :: k < |t| && c in t[k + 1..] ==> c in t;
  }

  /** No backslash before the first stop: no stop before it, and no backslash but after it. */
  lemma FreeBeforeStop(t: string, stops: string)
    requires '\\' !in t[..FirstLive(t, stops)]
    ensures Free(t[..FirstLive(t, stops)], stops)
    ensures FirstLive(t, stops) < |t| ==> t[FirstLive(t, stops)] != '\\'
    ensures '\\' in t ==> FirstLive(t, stops) < |t| && '\\' in t[FirstLive(t, stops) + 1..]
  {
    var k := FirstLive(t, stops);
    assert t[..|t|] == t;
    if k < |t| {
      AtFirstLive(t, stops, false);
      assert t == t[..k] + [t[k]] + t[k + 1..];
    }
    NoBackslash(t[..k], stops);
  }

  /** The values are no longer than their text, and as long only when nothing was removed from it. */
  lemma {:induction false} ValuesWeight(t: string)
    ensures Weight(Values(t)) <= |t| + 1
    ensures Weight(Values(t)) == |t| + 1 ==> '\\' !in t && AreParts(Values(t), t)
    decreases |t|
  {
    hide FirstLive, Clean, Values;
    var k := FirstLive(t, ",;");
    var rest := if k == |t| then [] else Values(t[k + 1..]);
    ValuesStep(t);
    CleanLength(t[..k]);
    assert ([Clean(t[..k])] + rest)[1..] == rest;
    if k < |t| {
      ValuesWeight(t[k + 1..]);
    }
    if Weight(Values(t)) == |t| + 1 {
      FreeBeforeStop(t, ",;");
      PartsStep(t[..k], rest, t, k);
    }
  }

  lemma CleanPlain(s: string)
    requires Trimmed(s) && '\\' !in s
    ensures Clean(s) == s
  {
    NoBackslash(s, "");
    TrimIs(s, 0, |s|);
  }

  lemma PlainRoundTrip(list: seq<string>)
    requires Plain(list)
    ensures Parse(Printed(list)) == Some(list)
  {
    hide FirstLive, Dangling, Unescape, Trim, Parse, Join;
    var key, values := list[0], list[1..];
    CleanPlain(key);
    NoBackslash(key, "#");
    NoBackslash(key, "=");
    forall i | 0 <= i < |values| ensures Inert(values[i]) && Clean(values[i]) == values[i] {
      CleanPlain(values[i]);
      NoBackslash(values[i], "#");
      NoBackslash(values[i], "=");
      NoBackslash(values[i], ",;");
    }
    assert [Clean(key)] + Cleaned(values) == list;
    ParseJoined(key, values);
  }

  lemma {:induction false} WeightOfFront(list: seq<string>)
    requires list != []
    ensures Weight(list[..|list| - 1]) < Weight(list)
  {
    if |list| > 1 {
      WeightOfFront(list[1..]);
      assert list[..|list| - 1][1..] == list[1..][..|list[1..]| - 1];
    }
  }

  lemma WeightStep(list: seq<string>)
    requires list != []
    ensures Weight(list) == |list[0]| + 1 + Weight(list[1..])
  {
  }

  lemma PrintedKey(list: seq<string>)
    requires |list| == 1
    ensures |Printed(list)| == |list[0]| + 1
  {
  }

  /** A line that lost its only value is longer than its key and an equals sign. */
  lemma KeyAlone(s: string)
    requires IsKeyVal(s) && Dangling(s)
    ensures |s| > |Intended(s)[0]| + 1
  {
    var k := FirstLive(s, "=");
    NoneLive(s, "=", false);
    AtFirstLive(s, "=", false);
    CleanLength(s[..k]);
    assert s[..|s|] == s;
  }

  lemma PlainParts(s: string, key: string, t: string, values: seq<string>)
    requires (forall c :: c in key || c in t ==> c in s) && Free(s, "\\#") && Free(key, "=") && Free(t, "=")
    requires Trimmed(key) && AreParts(values, t) && values != []
    ensures Plain([key] + values)
  {
    forall v | v in values ensures PlainValue(v) {
      assert forall c :: c in v ==> c in t;
    }
  }

  lemma NoneBehind(key: string, t: string)
    requires CountLive(key + (['='] + t), "=") == 1 && !Dangling(key)
    ensures FirstLive(t, "=") == |t|
  {
    hide FirstLive, CountLive, Dangling;
    InFront('=', t, "=");
    CountLiveOf(key, ['='] + t, "=", false);
    NoneLive(t, "=", false);
  }

  /** No unescaped equals sign before or after the one. */
  lemma OneEqualsSign(s: string)
    requires IsKeyVal(s)
    ensures var k := FirstLive(s, "=");
            && k < |s| && s[k] == '=' && FirstLive(s[..k], "=") == k
            && FirstLive(s[k + 1..], "=") == |s| - k - 1
  {
    hide FirstLive, CountLive, Dangling;
    var k := FirstLive(s, "=");
    NoneLive(s, "=", false);
    AtFirstLive(s, "=", false);
    assert s[k] == '=';
    assert s == s[..k] + (['='] + s[k + 1..]);
    NoneBehind(s[..k], s[k + 1..]);
  }

  /** The same for a whole line: nothing is removed from it only if it is plain. */
  lemma IntendedWeight(s: string)
    requires IsKeyVal(s)
    ensures |Intended(s)| >= 2 && Weight(Intended(s)) <= |s| + 1
    ensures FirstLive(s, "#") == |s| && Weight(Intended(s)) == |s| + 1 ==> Plain(Intended(s))
  {
    var k := FirstLive(s, "=");
    OneEqualsSign(s);
    var key, t := s[..k], s[k + 1..];
    assert Intended(s) == [Clean(key)] + Values(t) && Values(t) != [];
    hide FirstLive, CountLive, Dangling, Intended, Clean, Values;
    assert Intended(s)[1..] == Values(t);
    CleanLength(key);
    ValuesWeight(t);
    if FirstLive(s, "#") == |s| && Weight(Intended(s)) == |s| + 1 {
      assert s == key + [s[k]] + t;
      NoBackslash(s, "#");
      NoBackslash(key, "=");
      NoBackslash(t, "=");
      PlainParts(s, key, t, Values(t));
    }
  }

  lemma RoundTripIsPlain(list: seq<string>)
    requires list != [] && Parse(Printed(list)) == Some(list)
    ensures Plain(list)
  {
    var src := Printed(list);
    var s := Cut(src);
    IntendedWeight(s);
    hide FirstLive, CountLive, Dangling, Intended, Join, Plain, Weight;
    WeightOfFront(Intended(s));
    if |list| > 1 {
      JoinLength(list[1..]);
      assert Weight(list) == |src| + 1 by {
        WeightStep(list);
      }
      assert list == Intended(s) && s == src;
    } else {
      PrintedKey(list);
      KeyAlone(s);
    }
  }

  /** Printing and parsing are the identity on exactly the plain lists. */
  lemma PrintedRoundTripExactly(list: seq<string>)
    requires list != []
    ensures Parse(Printed(list)) == Some(list) <==> Plain(list)
  {
    if Plain(list) {
      PlainRoundTrip(list);
    }
    if Parse(Printed(list)) == Some(list) {
      RoundTripIsPlain(list);
    }
  }
}
