/**
 * Strings as C has them: characters up to a NUL in a buffer, white space,
 * trimming, and lists joined with a comma.
 */
module CText {
  /** A string as C passes it: no NUL inside. */
  type CString = s: string | '\0' !in s

  /** isspace() of the C locale. */
  predicate IsSpace(c: char) {
    c == ' ' || c == '\t' || c == '\n' || c == '\U{0B}' || c == '\U{0C}' || c == '\r'
  }

  /** s is made of the given characters. */
  predicate Of(s: string, characters: string) {
    forall i :: 0 <= i < |s| ==> s[i] in characters
  }

  /** The buffer holds the string s, with its terminator, from position p on. */
  predicate Holds(buffer: seq<char>, p: int, s: string) {
    && 0 <= p && p + |s| < |buffer|
    && buffer[p..p + |s|] == s && buffer[p + |s|] == '\0' && '\0' !in s
  }

  /** Replacing the buffer where the string is not leaves the string. */
  lemma HoldsStill(before: seq<char>, after: seq<char>, p: int, s: string)
    requires Holds(before, p, s) && |after| == |before|
    requires forall i :: p <= i <= p + |s| ==> after[i] == before[i]
    ensures Holds(after, p, s)
  {
    assert after[p..p + |s|] == before[p..p + |s|];
  }

  /** strlen(). */
  method Strlen(buffer: array<char>, p: nat, ghost s: string) returns (n: nat)
    requires Holds(buffer[..], p, s)
    ensures n == |s|
  {
    assert forall i :: 0 <= i < |s| ==> buffer[p + i] == s[i];
    n := 0;
    while buffer[p + n] != '\0'
      invariant n <= |s|
      decreases |s| - n
    {
      n := n + 1;
    }
  }

  // ---------- Trimming ----------

  predicate Trimmed(s: string) {
    s != [] ==> !IsSpace(s[0]) && !IsSpace(s[|s| - 1])
  }

  function Trim(s: string): (r: string)
    ensures |r| <= |s| && Trimmed(r)
    ensures forall c :: c in r ==> c in s
  {
    if s != [] && IsSpace(s[0]) then Trim(s[1..])
    else if s != [] && IsSpace(s[|s| - 1]) then Trim(s[..|s| - 1])
    else s
  }

  /** Trim takes white space off both ends, all of it and nothing else. */
  lemma {:induction false} TrimIs(s: string, from: nat, to: nat)
    requires from <= to <= |s| && Trimmed(s[from..to])
    requires forall i :: 0 <= i < from || to <= i < |s| ==> IsSpace(s[i])
    ensures Trim(s) == s[from..to]
    decreases |s|
  {
    if from > 0 {
      TrimIs(s[1..], from - 1, to - 1);
      assert s[1..][from - 1..to - 1] == s[from..to];
    } else if to < |s| && IsSpace(s[0]) {
      TrimIs(s[1..], 0, 0);
    } else if to < |s| {
      TrimIs(s[..|s| - 1], 0, to);
      assert s[..|s| - 1][..to] == s[..to];
    } else {
      assert s[from..to] == s;
    }
  }

  /** Blanks, tabs, line feeds, vertical tabs, form feeds and carriage returns are trimmed, and nothing else is. */
  lemma TrimTakesBlanks(front: string, core: string, back: string)
    requires Of(front, " \t\n\U{0B}\U{0C}\r") && Of(back, " \t\n\U{0B}\U{0C}\r")
    requires core != "" ==> core[0] !in " \t\n\U{0B}\U{0C}\r" && core[|core| - 1] !in " \t\n\U{0B}\U{0C}\r"
    ensures Trim(front + core + back) == core
  {
    var s, from, to := front + core + back, |front|, |front| + |core|;
    assert s[from..to] == core;
    forall i | 0 <= i < from || to <= i < |s|
      ensures IsSpace(s[i])
    {
      assert s[i] == if i < from then front[i] else back[i - to];
    }
    TrimIs(s, from, to);
  }

  /** Trimming on the left first. */
  function TrimLeft(s: string): (r: string)
    ensures |r| <= |s| && (r != "" ==> !IsSpace(r[0]))
    ensures Trim(r) == Trim(s)
  {
    if s != "" && IsSpace(s[0]) then TrimLeft(s[1..]) else s
  }

  lemma {:induction false} TrimLeftIs(s: string, from: nat)
    requires from <= |s| && (forall i :: 0 <= i < from ==> IsSpace(s[i]))
    requires from < |s| ==> !IsSpace(s[from])
    ensures TrimLeft(s) == s[from..]
  {
    if from > 0 {
      TrimLeftIs(s[1..], from - 1);
    }
  }

  function Trims(pieces: seq<string>): seq<string> {
    seq(|pieces|, i requires 0 <= i < |pieces| => Trim(pieces[i]))
  }

  lemma TrimsOf(first: string, rest: seq<string>)
    ensures Trims([first] + rest) == [Trim(first)] + Trims(rest)
  {
    hide Trim;
    forall i | 0 <= i < |rest| ensures Trims([first] + rest)[1 + i] == Trims(rest)[i] {
      assert ([first] + rest)[1 + i] == rest[i];
    }
  }

  /** Copies the trimmed text of len characters to dst. The character after them is not white space. */
  method TrimCopy(dst: array<char>, at: nat, src: array<char>, from: nat, len: nat, ghost text: string)
    returns (n: nat)
    requires dst != src && from + len < src.Length && src[from..from + len] == text
    requires !IsSpace(src[from + len]) && '\0' !in text
    requires at + |Trim(text)| < dst.Length
    modifies dst
    ensures n == |Trim(text)| && Holds(dst[..], at, Trim(text))
    ensures forall i :: 0 <= i < dst.Length && !(at <= i <= at + n) ==> dst[i] == old(dst[i])
  {
    hide Trim;
    assert forall i :: 0 <= i < len ==> src[from + i] == text[i];
    var begin := 0;
    while IsSpace(src[from + begin])
      invariant 0 <= begin <= len
      invariant forall i :: 0 <= i < begin ==> IsSpace(text[i])
      decreases len - begin
    {
      begin := begin + 1;
    }
    if src[from + begin] == '\0' {
      TrimIs(text, len, len);
      dst[at] := '\0';
      return 0;
    }
    var end := len - 1;
    while end > begin && IsSpace(src[from + end])
      invariant begin - 1 <= end < len
      invariant forall i :: end < i < len ==> IsSpace(text[i])
      decreases end
    {
      end := end - 1;
    }
    end := end + 1;
    TrimIs(text, begin, end);
    n := end - begin;
    forall i | 0 <= i < n {
      dst[at + i] := src[from + begin + i];
    }
    dst[at + n] := '\0';
  }

  // ---------- Joining ----------

  /** The strings with a comma between any two. */
  function Join(items: seq<string>): string {
    if items == [] then ""
    else if |items| == 1 then items[0]
    else items[0] + "," + Join(items[1..])
  }

  /** The bytes the strings take with one more each, for a separator or a terminator. */
  function Weight(items: seq<string>): nat {
    if items == [] then 0 else |items[0]| + 1 + Weight(items[1..])
  }

  lemma {:induction false} JoinLength(items: seq<string>)
    requires items != []
    ensures |Join(items)| + 1 == Weight(items)
  {
    if |items| > 1 {
      JoinLength(items[1..]);
    }
  }

  lemma {:induction false} JoinLast(items: seq<string>, last: string)
    ensures Join(items + [last]) == (if items == [] then "" else Join(items) + ",") + last
  {
    if items != [] {
      JoinLast(items[1..], last);
      assert (items + [last])[1..] == items[1..] + [last];
    } else {
      assert items + [last] == [last];
    }
  }

  lemma {:induction false} WeightOf(front: seq<string>, back: seq<string>)
    ensures Weight(front + back) == Weight(front) + Weight(back)
  {
    if front != [] {
      WeightOf(front[1..], back);
      assert (front + back)[1..] == front[1..] + back;
    } else {
      assert front + back == back;
    }
  }

  function Separated(first: bool, s: string): string {
    (if first then "" else ",") + s
  }

  /** The same for the first k strings of a list. */
  function JoinTo(items: seq<string>, k: nat): string
    requires k <= |items|
  {
    Join(items[..k])
  }

  function WeightTo(items: seq<string>, k: nat): nat
    requires k <= |items|
  {
    Weight(items[..k])
  }

  lemma WholeList(items: seq<string>)
    ensures WeightTo(items, 0) == 0 && JoinTo(items, 0) == ""
    ensures WeightTo(items, |items|) == Weight(items) && JoinTo(items, |items|) == Join(items)
  {
    assert items[..|items|] == items;
  }

  lemma NextSpace(items: seq<string>, k: nat)
    requires k < |items|
    ensures WeightTo(items, k + 1) == WeightTo(items, k) + |items[k]| + 1
  {
    assert items[..k + 1] == items[..k] + [items[k]];
    WeightOf(items[..k], [items[k]]);
  }

  /** One string more; the joined text fits the weight of the list. */
  lemma NextInList(items: seq<string>, k: nat)
    requires k < |items|
    ensures JoinTo(items, k + 1) == JoinTo(items, k) + Separated(k == 0, items[k])
    ensures |JoinTo(items, k + 1)| < Weight(items)
  {
    assert items[..k + 1] == items[..k] + [items[k]];
    assert items == items[..k + 1] + items[k + 1..];
    JoinLast(items[..k], items[k]);
    WeightOf(items[..k + 1], items[k + 1..]);
    JoinLength(items[..k + 1]);
  }

  predicate Zero(bytes: seq<char>) {
    forall i :: 0 <= i < |bytes| ==> bytes[i] == '\0'
  }

  /** sprintf() of a string at the end of what a buffer of zero bytes holds so far. */
  method Append(buffer: array<char>, at: nat, s: CString) returns (end: nat)
    requires at + |s| < buffer.Length && Zero(buffer[at..])
    modifies buffer
    ensures end == at + |s| && buffer[..end] == old(buffer[..at]) + s && Zero(buffer[end..])
  {
    forall i | 0 <= i < |s| {
      buffer[at + i] := s[i];
    }
    end := at + |s|;
  }

  /** The strings that are not empty, in order. */
  function NonEmpty(items: seq<string>): (r: seq<string>)
    ensures |r| <= |items|
  {
    if items == [] then []
    else
      var front := NonEmpty(items[..|items| - 1]);
      if items[|items| - 1] == "" then front else front + [items[|items| - 1]]
  }

  lemma {:induction false} NonEmptyOf(front: seq<string>, back: seq<string>)
    ensures NonEmpty(front + back) == NonEmpty(front) + NonEmpty(back)
    decreases |back|
  {
    if back == [] {
      assert front + back == front;
    } else {
      var all := front + back;
      NonEmptyOf(front, back[..|back| - 1]);
      assert all[..|all| - 1] == front + back[..|back| - 1];
    }
  }

  /** Strings that are not empty are kept, and an empty one between any others is not. */
  lemma NonEmptyKeeps(front: seq<string>, s: string, back: seq<string>)
    ensures NonEmpty(front + [s] + back) == NonEmpty(front) + (if s == "" then [] else [s]) + NonEmpty(back)
  {
    NonEmptyOf(front + [s], back);
    NonEmptyOf(front, [s]);
    assert [s][..0] == [];
  }
}
