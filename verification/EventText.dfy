/**
 * The text form of events (event.c): "22:30 SUSPEND" daily, "@01:00
 * IMPORTTMPFS" at an interval, "!00:05 IMPORTTMPFSTIMEOUT" once.
 */
module EventText {
  import opened CText
  import opened Events
  import opened Options
  import opened Schedule

  const INT_MAX := 0x7FFF_FFFF
  const INT_MIN := -0x8000_0000

  /** The value that 32-bit arithmetic leaves. */
  function Wrap32(n: int): (r: int)
    ensures INT_MIN <= r <= INT_MAX
    ensures INT_MIN <= n <= INT_MAX ==> r == n
  {
    (n + 0x8000_0000) % 0x1_0000_0000 - 0x8000_0000
  }

  /** What a text says of an event. */
  datatype EventSpec = EventSpec(kind: Kind, action: Action, offset: int)

  // ---------- Names ----------

  function Prefix(kind: Kind): string {
    match kind
    case Daily => ""
    case Interval => "@"
    case Once => "!"
  }

  function Name(action: Action): string {
    match action
    case Suspend => "SUSPEND"
    case Resume => "RESUME"
    case PowerOff => "POWEROFF"
    case PowerOn => "POWERON"
    case ImportTmpfs => "IMPORTTMPFS"
    case ImportTmpfsTimeout => "IMPORTTMPFSTIMEOUT"
    case Watchdog => "WATCHDOG"
  }

  function ToUpper(c: char): char {
    if 'a' <= c <= 'z' then (c as int - 32) as char else c
  }

  /** strcasecmp() finds no difference. */
  predicate SameText(a: string, b: string) {
    |a| == |b| && forall i :: 0 <= i < |a| ==> ToUpper(a[i]) == ToUpper(b[i])
  }

  /** __actionstring2code(): the first code from i on whose name it is, or none. */
  function ActionFrom(s: string, i: int): Option<Action>
    requires 1 <= i
    decreases ACTION_MAXVALUE - i
  {
    if i > ACTION_MAXVALUE then None
    else if SameText(s, Name(ActionOfCode(i))) then Some(ActionOfCode(i))
    else ActionFrom(s, i + 1)
  }

  function ActionNamed(s: string): Option<Action> {
    if s == "" then None else ActionFrom(s, 1)
  }

  lemma NamesDiffer(s: string, a: Action, b: Action)
    requires SameText(s, Name(a)) && SameText(s, Name(b))
    ensures a == b
  {
    assert ToUpper(s[0]) == ToUpper(Name(a)[0]) == ToUpper(Name(b)[0]);
  }

  lemma {:induction false} ActionFromFinds(s: string, i: int, action: Action)
    requires 1 <= i <= CodeOfAction(action) && SameText(s, Name(action))
    requires forall a :: SameText(s, Name(a)) ==> a == action
    ensures ActionFrom(s, i) == Some(action)
    decreases CodeOfAction(action) - i
  {
    if i < CodeOfAction(action) {
      ActionFromFinds(s, i + 1, action);
    }
  }

  lemma {:induction false} ActionFromIsNamed(s: string, i: int)
    requires 1 <= i
    ensures ActionFrom(s, i).Some? ==> SameText(s, Name(ActionFrom(s, i).value))
    decreases ACTION_MAXVALUE - i
  {
    if i <= ACTION_MAXVALUE {
      ActionFromIsNamed(s, i + 1);
    }
  }

  /** No two actions share a name, so the order of the table does not matter. */
  lemma ActionNamedExactly(s: string, action: Action)
    ensures ActionNamed(s) == Some(action) <==> SameText(s, Name(action))
  {
    if SameText(s, Name(action)) {
      forall a | SameText(s, Name(a)) ensures a == action {
        NamesDiffer(s, a, action);
      }
      ActionFromFinds(s, 1, action);
    } else {
      ActionFromIsNamed(s, 1);
    }
  }

  /** The codes and their names. */
  lemma NamesAre()
    ensures Name(ActionOfCode(1)) == "SUSPEND" && Name(ActionOfCode(2)) == "RESUME"
    ensures Name(ActionOfCode(3)) == "POWEROFF" && Name(ActionOfCode(4)) == "POWERON"
    ensures Name(ActionOfCode(5)) == "IMPORTTMPFS" && Name(ActionOfCode(6)) == "IMPORTTMPFSTIMEOUT"
    ensures Name(ActionOfCode(7)) == "WATCHDOG"
  {
  }

  lemma NamesAreCapitals(action: Action)
    ensures forall i :: 0 <= i < |Name(action)| ==> 'A' <= Name(action)[i] <= 'Z'
  {
  }

  lemma CapitalOf(c: char, capital: char)
    requires 'A' <= capital <= 'Z'
    ensures ToUpper(c) == ToUpper(capital) <==> c == capital || c as int == capital as int + 32
  {
  }

  /** A name is found in capitals, in small letters, 32 characters on, and in any mixture, and in no other way. */
  lemma ActionNamedInAnyCase(s: string, action: Action)
    ensures ActionNamed(s) == Some(action) <==>
            && |s| == |Name(action)|
            && forall i :: 0 <= i < |s| ==> s[i] == Name(action)[i] || s[i] as int == Name(action)[i] as int + 32
  {
    hide ActionNamed, ToUpper, Name;
    ActionNamedExactly(s, action);
    NamesAreCapitals(action);
    if |s| == |Name(action)| {
      forall i | 0 <= i < |s|
        ensures ToUpper(s[i]) == ToUpper(Name(action)[i])
           <==> s[i] == Name(action)[i] || s[i] as int == Name(action)[i] as int + 32
      {
        CapitalOf(s[i], Name(action)[i]);
      }
    }
  }

  // ---------- Numbers ----------

  predicate IsDigit(c: char) {
    '0' <= c <= '9'
  }

  function Digit(c: char): int {
    c as int - '0' as int
  }

  /** How many characters from the start are white space, or digits. */
  function Spaces(s: string): (n: nat)
    ensures n <= |s| && (n < |s| ==> !IsSpace(s[n]))
    ensures forall i :: 0 <= i < n ==> IsSpace(s[i])
  {
    if s != "" && IsSpace(s[0]) then 1 + Spaces(s[1..]) else 0
  }

  function Digits(s: string): (n: nat)
    ensures n <= |s| && (n < |s| ==> !IsDigit(s[n]))
    ensures forall i :: 0 <= i < n ==> IsDigit(s[i])
  {
    if s != "" && IsDigit(s[0]) then 1 + Digits(s[1..]) else 0
  }

  /** The value of decimal digits. */
  function Value(digits: string): int {
    if digits == "" then 0 else 10 * Value(digits[..|digits| - 1]) + Digit(digits[|digits| - 1])
  }

  predicate IsSign(c: char) {
    c == '+' || c == '-'
  }

  /** What strtol() reads: the value, how many characters it took, and whether it was out of range. */
  datatype Number = Number(value: int, length: nat, range: bool)

  /** Where the digits of a number start: behind white space and a sign. */
  function DigitsStart(s: string): (n: nat)
    ensures n <= |s|
  {
    var k := Spaces(s);
    if k < |s| && IsSign(s[k]) then k + 1 else k
  }

  /** The number before it is brought into range. */
  function Signed(s: string): int {
    var k, j := Spaces(s), DigitsStart(s);
    var v := Value(s[j..j + Digits(s[j..])]);
    if j > k && s[k] == '-' then -v else v
  }

  /** strtol() with base 10 and 32-bit long; without digits nothing is read. */
  function Strtol(s: string): (r: Number)
    ensures r.length <= |s| && INT_MIN <= r.value <= INT_MAX
  {
    var j, v := DigitsStart(s), Signed(s);
    var d := Digits(s[j..]);
    if d == 0 then Number(0, 0, false)
    else if v > INT_MAX then Number(INT_MAX, j + d, true)
    else if v < INT_MIN then Number(INT_MIN, j + d, true)
    else Number(v, j + d, false)
  }

  /** A text that is read as a number to its end. */
  predicate IsNumeral(s: string) {
    s != "" && Strtol(s).length == |s|
  }

  lemma {:induction false} SpacesAre(s: string, n: nat)
    requires n <= |s| && (n < |s| ==> !IsSpace(s[n])) && forall i :: 0 <= i < n ==> IsSpace(s[i])
    ensures Spaces(s) == n
  {
    if n > 0 {
      SpacesAre(s[1..], n - 1);
    }
  }

  lemma {:induction false} DigitsAre(s: string, n: nat)
    requires n <= |s| && (n < |s| ==> !IsDigit(s[n])) && forall i :: 0 <= i < n ==> IsDigit(s[i])
    ensures Digits(s) == n
  {
    if n > 0 {
      DigitsAre(s[1..], n - 1);
    }
  }

  /** Reading goes on to the first character that is no digit, and does not depend on what follows. */
  lemma StrtolOf(a: string, rest: string)
    requires IsNumeral(a) && (rest == "" || !IsDigit(rest[0]))
    ensures Strtol(a + rest) == Strtol(a)
  {
    hide Value, Spaces, Digits;
    var s := a + rest;
    var k, j := Spaces(a), DigitsStart(a);
    SpacesAre(s, k);
    assert DigitsStart(s) == j;
    assert s[j..] == a[j..] + rest;
    DigitsAre(s[j..], |a| - j);
    assert s[j..|a|] == a[j..|a|];
  }

  /** The value is that of decimal digits. */
  lemma ValueNext(digits: string, c: char)
    ensures Value("") == 0 && Value(digits + [c]) == 10 * Value(digits) + (c as int - '0' as int)
  {
    assert (digits + [c])[..|digits|] == digits;
  }

  predicate AllSpaces(s: string) {
    forall i :: 0 <= i < |s| ==> IsSpace(s[i])
  }

  predicate AllDigits(s: string) {
    forall i :: 0 <= i < |s| ==> IsDigit(s[i])
  }

  /** The white space of the C locale and the decimal digits, by their characters. */
  lemma BlanksAndDigits(c: char)
    ensures IsSpace(c) <==> c in " \t\n\U{0B}\U{0C}\r"
    ensures IsDigit(c) <==> c in "0123456789"
  {
  }

  /** White space and a sign in front of what is neither. */
  lemma StartIs(s: string, blanks: string, sign: string, rest: string)
    requires s == blanks + sign + rest && AllSpaces(blanks)
    requires sign == "" || sign == "+" || sign == "-"
    requires sign == "" && rest != "" ==> !IsSign(rest[0]) && !IsSpace(rest[0])
    ensures Spaces(s) == |blanks| && DigitsStart(s) == |blanks| + |sign| && s[|blanks| + |sign|..] == rest
    ensures sign != "" && s[|blanks|] == '-' <==> sign == "-"
  {
    hide Spaces;
    var k := |blanks|;
    forall i | 0 <= i < k
      ensures IsSpace(s[i])
    {
      assert s[i] == blanks[i];
    }
    if k < |s| {
      assert s[k] == if sign == "" then rest[0] else sign[0];
    }
    SpacesAre(s, k);
  }

  lemma DigitsBefore(digits: string, rest: string)
    requires AllDigits(digits)
    requires rest != "" ==> !IsDigit(rest[0])
    ensures Digits(digits + rest) == |digits|
  {
    hide Digits;
    var s := digits + rest;
    forall i | 0 <= i < |digits|
      ensures IsDigit(s[i])
    {
      assert s[i] == digits[i];
    }
    DigitsAre(s, |digits|);
  }

  lemma DigitsFollow(digits: string, rest: string)
    requires digits != "" && AllDigits(digits)
    ensures digits + rest != "" && !IsSign((digits + rest)[0]) && !IsSpace((digits + rest)[0])
  {
  }

  /** strtol() by where its digits are. */
  lemma StrtolBy(s: string, j: nat, digits: string, rest: string)
    requires j <= |s| && s[j..] == digits + rest && digits != ""
    requires DigitsStart(s) == j && Digits(digits + rest) == |digits|
    ensures var v := if j > Spaces(s) && s[Spaces(s)] == '-' then -Value(digits) else Value(digits);
            Strtol(s) == Number(if v > INT_MAX then INT_MAX else if v < INT_MIN then INT_MIN else v, j + |digits|,
                                v < INT_MIN || v > INT_MAX)
  {
    hide Value, Spaces, Digits, DigitsStart;
    assert s[j..j + |digits|] == digits;
  }

  /** White space, a sign or none, and decimal digits are read, up to what is no digit; the value is kept in range. */
  lemma StrtolMeans(s: string, blanks: string, sign: string, digits: string, rest: string)
    requires s == blanks + sign + (digits + rest) && AllSpaces(blanks)
    requires sign == "" || sign == "+" || sign == "-"
    requires digits != "" && AllDigits(digits)
    requires rest != "" ==> !IsDigit(rest[0])
    ensures var v := if sign == "-" then -Value(digits) else Value(digits);
            Strtol(s)
            == Number(if v > INT_MAX then INT_MAX else if v < INT_MIN then INT_MIN else v,
                      |blanks| + |sign| + |digits|, v < INT_MIN || v > INT_MAX)
  {
    hide Value, Spaces, Digits, DigitsStart, Strtol, Signed, IsSpace, IsDigit, IsSign, AllSpaces, AllDigits;
    DigitsFollow(digits, rest);
    StartIs(s, blanks, sign, digits + rest);
    DigitsBefore(digits, rest);
    StrtolBy(s, |blanks| + |sign|, digits, rest);
  }

  /** Without a digit there, nothing is read. */
  lemma StrtolNothing(blanks: string, sign: string, rest: string)
    requires AllSpaces(blanks)
    requires sign == "" || sign == "+" || sign == "-"
    requires rest != "" ==> !IsDigit(rest[0])
    requires sign == "" && rest != "" ==> !IsSign(rest[0]) && !IsSpace(rest[0])
    ensures Strtol(blanks + sign + rest) == Number(0, 0, false)
  {
    hide Value, Spaces, Digits, DigitsStart;
    StartIs(blanks + sign + rest, blanks, sign, rest);
    DigitsBefore("", rest);
    assert "" + rest == rest;
  }

  /** What was read is a numeral, and what follows it is no digit. */
  lemma StrtolReads(s: string)
    requires Strtol(s).length > 0
    ensures var n := Strtol(s).length;
            IsNumeral(s[..n]) && Strtol(s[..n]) == Strtol(s) && (n < |s| ==> !IsDigit(s[n]))
  {
    hide Value, Spaces, Digits;
    var n := Strtol(s).length;
    var a := s[..n];
    var k, j := Spaces(s), DigitsStart(s);
    SpacesAre(a, k);
    assert DigitsStart(a) == j;
    assert s[j..][..n - j] == a[j..] && s[j..j + (n - j)] == a[j..];
    DigitsAre(a[j..], n - j);
    assert a[j..n] == a[j..];
  }

  // ---------- Parsing one event ----------

  /** What one array element gives, and whether errno stands at ERANGE after it. */
  datatype TextReading = TextReading(event: Option<EventSpec>, errno: bool)

  function KindOf(s: string): Kind {
    if s != "" && s[0] == '@' then Interval
    else if s != "" && s[0] == '!' then Once
    else Daily
  }

  /** The offset as 32-bit arithmetic computes it. */
  function OffsetOf(hours: int, minutes: int): int {
    Wrap32(Wrap32(hours * SECONDS_PER_HOUR) + minutes * SECONDS_PER_MINUTE)
  }

  /** The hours, up to the colon. */
  function ReadHours(kind: Kind, t: string): Option<Number> {
    var hours := Strtol(t);
    if hours.range || hours.length == 0 || hours.value < 0 then None
    else if kind.Daily? && hours.value > 23 then None
    else if hours.length == |t| || t[hours.length] != ':' then None
    else Some(hours)
  }

  /** The minutes, up to the name. */
  function ReadMinutes(t: string): Option<Number> {
    var minutes := Strtol(t);
    if minutes.range || minutes.length == 0 || minutes.value < 0 || minutes.value > 59 then None
    else Some(minutes)
  }

  /** The part behind the colon. */
  function ParseRest(kind: Kind, hours: int, u: string): Option<EventSpec> {
    var minutes := ReadMinutes(u);
    if minutes.None? then None
    else
      var v := u[minutes.value.length..];
      var action := ActionNamed(v[Spaces(v)..]);
      var offset := OffsetOf(hours, minutes.value.value);
      if action.None? || offset < 0 then None
      else Some(EventSpec(kind, action.value, offset))
  }

  /** One round of the parsing loop. errno is never reset, so a range error fails every later event too. */
  function ParseEvent(s: string, errno: bool): TextReading {
    if s == "" then TextReading(None, errno)
    else
      var kind := KindOf(s);
      var t := s[|Prefix(kind)|..];
      if errno || Strtol(t).range then TextReading(None, true)
      else
        var hours := ReadHours(kind, t);
        if hours.None? then TextReading(None, false)
        else
          var u := t[hours.value.length + 1..];
          if Strtol(u).range then TextReading(None, true)
          else TextReading(ParseRest(kind, hours.value.value, u), false)
  }

  // ---------- The language of events ----------

  /** The parts of an event text. */
  datatype Parts = Parts(hours: string, minutes: string, gap: string, name: string)

  function Assembled(kind: Kind, p: Parts): string {
    Prefix(kind) + p.hours + ":" + p.minutes + p.gap + p.name
  }

  /** The parts are in range and say e. */
  predicate Says(p: Parts, e: EventSpec) {
    var h, m := Strtol(p.hours), Strtol(p.minutes);
    && IsNumeral(p.hours) && IsNumeral(p.minutes) && !h.range && !m.range
    && 0 <= h.value && (e.kind.Daily? ==> h.value <= 23) && 0 <= m.value <= 59
    && AllSpaces(p.gap) && SameText(p.name, Name(e.action))
    && e.offset == OffsetOf(h.value, m.value) >= 0
  }

  lemma NamesStart(name: string, action: Action)
    requires SameText(name, Name(action))
    ensures name != "" && !IsSpace(name[0]) && !IsDigit(name[0])
  {
    assert ToUpper(name[0]) == Name(action)[0];
  }

  lemma RestOf(kind: Kind, p: Parts, e: EventSpec)
    requires Says(p, e) && kind == e.kind
    ensures var u := p.minutes + p.gap + p.name;
            !Strtol(u).range && ParseRest(kind, Strtol(p.hours).value, u) == Some(e)
  {
    hide Strtol, Wrap32, Spaces, ActionNamed;
    var u, v := p.minutes + p.gap + p.name, p.gap + p.name;
    assert u == p.minutes + v;
    NamesStart(p.name, e.action);
    StrtolOf(p.minutes, v);
    assert u[|p.minutes|..] == v;
    SpacesAre(v, |p.gap|);
    assert v[|p.gap|..] == p.name;
    ActionNamedExactly(p.name, e.action);
  }

  lemma NumeralStarts(a: string)
    requires IsNumeral(a)
    ensures a[0] != '@' && a[0] != '!'
  {
    assert Digits(a[DigitsStart(a)..]) > 0;
  }

  lemma KindAssembled(kind: Kind, p: Parts)
    requires IsNumeral(p.hours)
    ensures var s := Assembled(kind, p);
            && s != "" && KindOf(s) == kind && |Prefix(kind)| <= |s|
            && s[|Prefix(kind)|..] == p.hours + (":" + (p.minutes + p.gap + p.name))
  {
    hide Strtol;
    NumeralStarts(p.hours);
    assert Assembled(kind, p) == Prefix(kind) + (p.hours + (":" + (p.minutes + p.gap + p.name)));
  }

  /** Every text of the language is accepted. */
  lemma Accepted(p: Parts, e: EventSpec)
    requires Says(p, e)
    ensures ParseEvent(Assembled(e.kind, p), false) == TextReading(Some(e), false)
  {
    hide Strtol, KindOf, ParseRest, OffsetOf, Assembled, SameText, Prefix;
    var u := p.minutes + p.gap + p.name;
    var t := p.hours + (":" + u);
    KindAssembled(e.kind, p);
    StrtolOf(p.hours, ":" + u);
    assert t[|p.hours| + 1..] == u;
    RestOf(e.kind, p, e);
  }

  /** The parts of an accepted text. */
  function PartsOf(s: string): (p: Parts)
    requires ParseEvent(s, false).event.Some?
  {
    var kind := KindOf(s);
    var t := s[|Prefix(kind)|..];
    var h := Strtol(t).length;
    var u := t[h + 1..];
    var m := Strtol(u).length;
    var v := u[m..];
    Parts(t[..h], u[..m], v[..Spaces(v)], v[Spaces(v)..])
  }

  lemma PartsAssemble(prefix: string, t: string, h: nat, p: Parts)
    requires h < |t| && t[h] == ':' && p.hours == t[..h] && t[h + 1..] == p.minutes + p.gap + p.name
    ensures prefix + t == prefix + p.hours + ":" + p.minutes + p.gap + p.name
  {
    assert t == t[..h] + ":" + t[h + 1..];
  }

  lemma KindSplits(s: string)
    ensures |Prefix(KindOf(s))| <= |s| && s == Prefix(KindOf(s)) + s[|Prefix(KindOf(s))|..]
  {
  }

  /** What is behind the colon of an accepted text. */
  lemma RestSays(kind: Kind, hours: int, u: string)
    requires ParseRest(kind, hours, u).Some?
    ensures var m := Strtol(u).length;
            var v := u[m..];
            var e := ParseRest(kind, hours, u).value;
            && IsNumeral(u[..m]) && Strtol(u[..m]) == Strtol(u) && !Strtol(u).range && 0 <= Strtol(u).value <= 59
            && u == u[..m] + v[..Spaces(v)] + v[Spaces(v)..] && AllSpaces(v[..Spaces(v)])
            && SameText(v[Spaces(v)..], Name(e.action)) && e.kind == kind
            && e.offset == OffsetOf(hours, Strtol(u).value) >= 0
  {
    hide Strtol, OffsetOf, Spaces, ActionNamed, SameText;
    var v := u[Strtol(u).length..];
    StrtolReads(u);
    ActionNamedExactly(v[Spaces(v)..], ParseRest(kind, hours, u).value.action);
    assert v == v[..Spaces(v)] + v[Spaces(v)..];
  }

  /** Every accepted text is in the language. */
  lemma AcceptedSays(s: string)
    requires ParseEvent(s, false).event.Some?
    ensures var e := ParseEvent(s, false).event.value;
            s == Assembled(e.kind, PartsOf(s)) && Says(PartsOf(s), e)
  {
    hide Strtol, IsNumeral, OffsetOf, Spaces, ActionNamed, SameText, KindOf, Prefix, ParseRest, IsSpace, AllSpaces;
    KindSplits(s);
    var kind := KindOf(s);
    var t := s[|Prefix(kind)|..];
    var h := Strtol(t).length;
    StrtolReads(t);
    RestSays(kind, Strtol(t).value, t[h + 1..]);
    PartsAssemble(Prefix(kind), t, h, PartsOf(s));
  }

  /** The parser accepts exactly this language, with exactly this meaning. */
  lemma AcceptsExactly(s: string, e: EventSpec)
    ensures ParseEvent(s, false).event == Some(e) <==> exists p :: s == Assembled(e.kind, p) && Says(p, e)
  {
    hide ParseEvent, Assembled, Says, PartsOf;
    if ParseEvent(s, false).event == Some(e) {
      AcceptedSays(s);
    }
    if p :| s == Assembled(e.kind, p) && Says(p, e) {
      Accepted(p, e);
    }
  }

  // ---------- Printing ----------

  /** C's division and remainder: the quotient is cut off towards zero. */
  function CDiv(a: int, b: int): int
    requires b > 0
  {
    if a >= 0 then a / b else -((-a) / b)
  }

  function CMod(a: int, b: int): int
    requires b > 0
  {
    if a >= 0 then a % b else -((-a) % b)
  }

  function Decimal(n: nat): string {
    (if n < 10 then "" else Decimal(n / 10)) + [('0' as int + n % 10) as char]
  }

  /** printf() of "%02d". */
  function Format02(n: int): string {
    if n < 0 then "-" + Decimal(-n) else if n < 10 then "0" + Decimal(n) else Decimal(n)
  }

  function GetHours(offset: int): int {
    CDiv(CMod(offset, SECONDS_PER_DAY), SECONDS_PER_HOUR)
  }

  function GetMinutes(offset: int): int {
    CDiv(CMod(offset, SECONDS_PER_HOUR), SECONDS_PER_MINUTE)
  }

  /** bsprint_eventstr(). */
  function EventString(e: EventSpec): string {
    Prefix(e.kind) + Format02(GetHours(e.offset)) + ":" + Format02(GetMinutes(e.offset)) + " " + Name(e.action)
  }

  /** printf() puts the sign of a negative number first, and C's division keeps it in hours and minutes. */
  lemma NegativePrinted()
    ensures EventString(EventSpec(Daily, Suspend, -43260)) == "-12:-1 SUSPEND"
  {
    assert GetHours(-43260) == -12 && GetMinutes(-43260) == -1;
    assert Decimal(1) == "1";
    assert Decimal(12) == "12";
  }

  lemma Format02Is(n: int)
    requires 0 <= n < 100
    ensures Format02(n) == [('0' as int + n / 10) as char, ('0' as int + n % 10) as char]
  {
    if n < 10 {
      assert Decimal(n) == [('0' as int + n % 10) as char];
    } else {
      assert Decimal(n / 10) == [('0' as int + n / 10) as char];
      assert Decimal(n) == Decimal(n / 10) + [('0' as int + n % 10) as char];
    }
  }

  /** Digits in front of other text are read to their end, in range or not. */
  lemma DigitsRead(s: string, rest: string)
    requires s != "" && (forall i :: 0 <= i < |s| ==> IsDigit(s[i])) && (rest == "" || !IsDigit(rest[0]))
    ensures Value(s) > INT_MAX ==> Strtol(s + rest) == Number(INT_MAX, |s|, true)
  {
    hide Spaces, Digits, Value;
    var t := s + rest;
    SpacesAre(t, 0);
    assert t[0..] == t && t[0..|s|] == s && t[..|s|] == s;
    DigitsAre(t, |s|);
  }

  /** Digits alone are a numeral. */
  lemma DigitsAreNumeral(s: string)
    requires s != "" && AllDigits(s) && 0 <= Value(s) <= INT_MAX
    ensures IsNumeral(s) && Strtol(s) == Number(Value(s), |s|, false)
  {
    hide Spaces, Digits, Value;
    SpacesAre(s, 0);
    assert s[0..] == s && s[0..|s|] == s;
    DigitsAre(s, |s|);
  }

  lemma TwoDigits(a: char, b: char)
    requires IsDigit(a) && IsDigit(b)
    ensures IsNumeral([a, b]) && Strtol([a, b]) == Number(10 * Digit(a) + Digit(b), 2, false)
  {
    hide Value, Strtol, IsNumeral;
    ValueNext("", a);
    ValueNext([a], b);
    assert "" + [a] == [a] && [a] + [b] == [a, b];
    DigitsAreNumeral([a, b]);
  }

  lemma Format02IsNumeral(n: int)
    requires 0 <= n < 100
    ensures IsNumeral(Format02(n)) && Strtol(Format02(n)) == Number(n, 2, false)
  {
    hide Format02, Strtol, IsNumeral;
    Format02Is(n);
    TwoDigits(('0' as int + n / 10) as char, ('0' as int + n % 10) as char);
  }

  lemma RemainderOf(k: int, r: int)
    ensures (3600 * k + r) % 3600 == r % 3600
  {
  }

  lemma RemainderOfMinutes(k: int, r: int)
    ensures (60 * k + r) % 60 == r % 60
  {
  }

  lemma ClockTime(offset: int, h: int, m: int)
    requires offset >= 0 && h == offset % 86400 / 3600 && m == offset % 3600 / 60
    ensures 0 <= h <= 23 && 0 <= m <= 59 && h * 3600 + m * 60 == offset % 86400 - offset % 60
  {
    var day, hour := offset % 86400, offset % 3600;
    assert day % 3600 == hour by {
      RemainderOf(offset / 86400 * 24, day);
    }
    assert hour % 60 == offset % 60 by {
      RemainderOfMinutes(offset / 3600 * 60, hour);
    }
    assert day == 3600 * h + hour && hour == 60 * m + hour % 60;
  }

  /** The offset is the time that was written as long as it fits 32 bits. */
  lemma OffsetIsExact(hours: int, minutes: int)
    requires 0 <= hours <= INT_MAX && 0 <= minutes <= 59
    ensures OffsetOf(hours, minutes) == hours * SECONDS_PER_HOUR + minutes * SECONDS_PER_MINUTE
       <==> hours * SECONDS_PER_HOUR + minutes * SECONDS_PER_MINUTE <= INT_MAX
  {
  }

  lemma MultipleOf(k: int)
    ensures 4294967296 * k % 4294967296 == 0
  {
  }

  lemma WrapsBy(n: int)
    ensures (Wrap32(n) - n) % 4294967296 == 0
  {
    MultipleOf(-((n + 0x8000_0000) / 0x1_0000_0000));
  }

  /** If it does not fit, it is the time that was written up to a multiple of 4294967296. */
  lemma OffsetWraps(hours: int, minutes: int)
    ensures -2147483648 <= OffsetOf(hours, minutes) <= 2147483647
    ensures (OffsetOf(hours, minutes) - (3600 * hours + 60 * minutes)) % 4294967296 == 0
  {
    var a := Wrap32(hours * 3600);
    WrapsBy(hours * 3600);
    WrapsBy(a + minutes * 60);
    var p, q := (a - hours * 3600) / 4294967296, (OffsetOf(hours, minutes) - (a + minutes * 60)) / 4294967296;
    assert OffsetOf(hours, minutes) - (3600 * hours + 60 * minutes) == 4294967296 * (p + q);
    MultipleOf(p + q);
  }

  lemma NameSays(name: string, action: Action)
    requires |name| == |Name(action)|
    requires forall i :: 0 <= i < |name| ==>
               name[i] == Name(action)[i] || name[i] as int == Name(action)[i] as int + 32
    ensures SameText(name, Name(action))
  {
    ActionNamedInAnyCase(name, action);
    ActionNamedExactly(name, action);
  }

  /**
   * A text by its characters: nothing, an at sign or an exclamation mark;
   * hours and minutes in decimal digits; white space or none; and the name in
   * any case. In hours and minutes of one day it means what it says.
   */
  lemma TextIsRead(prefix: string, hours: string, minutes: string, gap: string, name: string, kind: Kind,
                   action: Action)
    requires match kind case Daily => prefix == "" case Interval => prefix == "@" case Once => prefix == "!"
    requires hours != "" && minutes != "" && AllDigits(hours) && AllDigits(minutes)
    requires 0 <= Value(hours) <= 23 && 0 <= Value(minutes) <= 59
    requires AllSpaces(gap)
    requires |name| == |Name(action)|
    requires forall i :: 0 <= i < |name| ==>
               name[i] == Name(action)[i] || name[i] as int == Name(action)[i] as int + 32
    ensures ParseEvent(prefix + hours + ":" + minutes + gap + name, false)
         == TextReading(Some(EventSpec(kind, action, 3600 * Value(hours) + 60 * Value(minutes))), false)
  {
    hide ParseEvent, Strtol, Value, Name, SameText, OffsetOf, IsNumeral, ActionNamed;
    var h, m := Value(hours), Value(minutes);
    DigitsAreNumeral(hours);
    DigitsAreNumeral(minutes);
    NameSays(name, action);
    OffsetIsExact(h, m);
    Accepted(Parts(hours, minutes, gap, name), EventSpec(kind, action, 3600 * h + 60 * m));
  }

  /** Seconds and whole days are all that printing loses. */
  lemma PrintedParses(e: EventSpec)
    requires e.offset >= 0
    ensures ParseEvent(EventString(e), false)
         == TextReading(Some(e.(offset := e.offset % SECONDS_PER_DAY - e.offset % SECONDS_PER_MINUTE)), false)
  {
    hide ParseEvent, Strtol, Format02, Wrap32;
    var h, m := GetHours(e.offset), GetMinutes(e.offset);
    ClockTime(e.offset, h, m);
    Format02IsNumeral(h);
    Format02IsNumeral(m);
    OffsetIsExact(h, m);
    var p := Parts(Format02(h), Format02(m), " ", Name(e.action));
    Accepted(p, e.(offset := e.offset % SECONDS_PER_DAY - e.offset % SECONDS_PER_MINUTE));
  }

  lemma WholeMinutesOfADay(offset: int)
    requires offset >= 0
    ensures offset % 86400 - offset % 60 == offset <==> offset < 86400 && offset % 60 == 0
  {
  }

  lemma ManyHoursValue()
    ensures Value("1193047") == 1193047
  {
    var s := "1193047";
    assert s[..6] == "119304" && s[..6][..4] == "1193" && s[..6][..5] == "11930";
    assert Value("1193") == 1193 by {
      assert "1193"[..3] == "119" && "119"[..2] == "11" && "11"[..1] == "1" && "1"[..0] == "";
      assert Value("11") == 11;
    }
    assert "11930"[..4] == "1193" && "119304"[..5] == "11930";
    assert Value("119304") == 119304;
  }

  lemma ManyHours()
    ensures IsNumeral("1193047") && Strtol("1193047") == Number(1193047, 7, false)
  {
    hide Value, Strtol, IsNumeral;
    ManyHoursValue();
    DigitsAreNumeral("1193047");
  }

  /** A time that does not fit may wrap around to an offset that is accepted. */
  lemma WrapIsAccepted()
    ensures ParseEvent("@1193047:00 WATCHDOG", false).event == Some(EventSpec(Interval, Watchdog, 1904))
  {
    hide ParseEvent, Strtol, Format02;
    var p := Parts("1193047", "00", " ", "WATCHDOG");
    ManyHours();
    Format02Is(0);
    Format02IsNumeral(0);
    Accepted(p, EventSpec(Interval, Watchdog, 1904));
    assert Assembled(Interval, p) == "@1193047:00 WATCHDOG";
  }

  lemma OffsetsAreNotNegative(s: string, errno: bool)
    ensures ParseEvent(s, errno).event.Some? ==> ParseEvent(s, errno).event.value.offset >= 0
  {
    hide Strtol, Spaces, ActionNamed, OffsetOf;
  }

  /** What is printed is read back exactly for minutes of one day. */
  lemma PrintRoundTripExactly(e: EventSpec)
    ensures ParseEvent(EventString(e), false).event == Some(e)
       <==> 0 <= e.offset < SECONDS_PER_DAY && e.offset % SECONDS_PER_MINUTE == 0
  {
    hide ParseEvent, EventString;
    if e.offset >= 0 {
      PrintedParses(e);
      WholeMinutesOfADay(e.offset);
    } else {
      OffsetsAreNotNegative(EventString(e), false);
    }
  }

  /** A RESUME may come at intervals. */
  lemma IntervalResumeIsAccepted()
    ensures ParseEvent("@01:00 RESUME", false).event == Some(EventSpec(Interval, Resume, SECONDS_PER_HOUR))
  {
    hide ParseEvent, Strtol, Format02;
    var e := EventSpec(Interval, Resume, 3600);
    Format02Is(1);
    Format02Is(0);
    PrintRoundTripExactly(e);
    assert EventString(e) == "@01:00 RESUME";
  }

  /** An interval of nothing at all is accepted. */
  lemma ZeroIntervalIsAccepted()
    ensures ParseEvent("@00:00 WATCHDOG", false).event == Some(EventSpec(Interval, Watchdog, 0))
  {
    hide ParseEvent, Format02;
    Format02Is(0);
    PrintRoundTripExactly(EventSpec(Interval, Watchdog, 0));
    assert EventString(EventSpec(Interval, Watchdog, 0)) == "@00:00 WATCHDOG";
  }

  // ---------- Lists of events ----------

  /** Whether errno stands at ERANGE after the texts. */
  predicate ErrnoAfter(texts: seq<string>) {
    texts != [] && ParseEvent(texts[|texts| - 1], ErrnoAfter(texts[..|texts| - 1])).errno
  }

  /** What becomes of the i-th text of a list. */
  function EventAt(texts: seq<string>, i: nat): Option<EventSpec>
    requires i < |texts|
  {
    ParseEvent(texts[i], ErrnoAfter(texts[..i])).event
  }

  /** The accepted events of the first n texts, in order, and the number of discarded ones. */
  function AcceptedTo(texts: seq<string>, n: nat): seq<EventSpec>
    requires n <= |texts|
  {
    if n == 0 then []
    else AcceptedTo(texts, n - 1) + if EventAt(texts, n - 1).Some? then [EventAt(texts, n - 1).value] else []
  }

  function DiscardedTo(texts: seq<string>, n: nat): nat
    requires n <= |texts|
  {
    if n == 0 then 0 else DiscardedTo(texts, n - 1) + if EventAt(texts, n - 1).None? then 1 else 0
  }

  lemma {:induction false} NothingUncounted(texts: seq<string>, n: nat)
    requires n <= |texts|
    ensures |AcceptedTo(texts, n)| + DiscardedTo(texts, n) == n
  {
    hide EventAt;
    if n > 0 {
      NothingUncounted(texts, n - 1);
    }
  }

  /** A number out of range in a text by itself. */
  predicate OutOfRange(s: string) {
    ParseEvent(s, false).errno
  }

  lemma ErrnoStays(s: string)
    requires s != ""
    ensures ParseEvent(s, true) == TextReading(None, true)
  {
  }

  lemma {:induction false} ErrnoIsSticky(texts: seq<string>)
    requires forall k :: 0 <= k < |texts| ==> texts[k] != ""
    ensures ErrnoAfter(texts) <==> exists i :: 0 <= i < |texts| && OutOfRange(texts[i])
  {
    hide ParseEvent;
    if texts != [] {
      var front, last := texts[..|texts| - 1], texts[|texts| - 1];
      ErrnoIsSticky(front);
      ErrnoStays(last);
      assert forall i :: 0 <= i < |front| ==> texts[i] == front[i];
    }
  }

  /** An event is accepted if and only if it is well formed and no text up to it held a number out of range. */
  lemma AcceptedExactly(texts: seq<string>, i: nat)
    requires i < |texts| && forall k :: 0 <= k < |texts| ==> texts[k] != ""
    ensures EventAt(texts, i) ==
      if exists j :: 0 <= j < i && OutOfRange(texts[j]) then None else ParseEvent(texts[i], false).event
  {
    hide ParseEvent;
    var front := texts[..i];
    ErrnoIsSticky(front);
    ErrnoStays(texts[i]);
    assert forall j :: 0 <= j < i ==> front[j] == texts[j];
  }

  lemma {:induction false} ValueIsPositive(digits: string)
    requires AllDigits(digits)
    ensures Value(digits) >= 0
    decreases |digits|
  {
    if digits != "" {
      ValueIsPositive(digits[..|digits| - 1]);
    }
  }

  /** What strtol() makes of a sign and digits at the start of a text. */
  predicate ReadAs(t: string, sign: string, digits: string) {
    var v := if sign == "-" then -Value(digits) else Value(digits);
    Strtol(t) == Number(if v > INT_MAX then INT_MAX else if v < INT_MIN then INT_MIN else v, |sign| + |digits|,
                        v < INT_MIN || v > INT_MAX)
  }

  lemma NumberRead(sign: string, digits: string, rest: string)
    requires sign == "" || sign == "+" || sign == "-"
    requires digits != "" && AllDigits(digits) && (rest != "" ==> !IsDigit(rest[0]))
    ensures ReadAs(sign + (digits + rest), sign, digits)
  {
    hide Strtol, Value;
    var t := sign + (digits + rest);
    assert "" + sign + (digits + rest) == t;
    StrtolMeans(t, "", sign, digits, rest);
  }

  /** A text of a prefix and hours, by its characters. */
  lemma HoursRead(prefix: string, kind: Kind, sign: string, hours: string, rest: string)
    requires match kind case Daily => prefix == "" case Interval => prefix == "@" case Once => prefix == "!"
    requires sign == "" || sign == "+" || sign == "-"
    requires hours != "" && AllDigits(hours) && (rest != "" ==> !IsDigit(rest[0]))
    ensures var t := sign + (hours + rest);
            var s := prefix + t;
            && s != "" && KindOf(s) == kind && |Prefix(kind)| <= |s| && s[|Prefix(kind)|..] == t
    ensures ReadAs(sign + (hours + rest), sign, hours)
  {
    hide Strtol, Value, ReadAs;
    NumberRead(sign, hours, rest);
    DigitsFollow(hours, rest);
    var t := sign + (hours + rest);
    assert t[0] == if sign == "" then hours[0] else sign[0];
    assert t[0] != '@' && t[0] != '!';
    assert "" + t == t;
  }

  lemma BehindColon(sign: string, hours: string, u: string)
    ensures var t, n := sign + (hours + (":" + u)), |sign| + |hours|;
            t[n] == ':' && t[n + 1..] == u
  {
    var t, n := sign + (hours + (":" + u)), |sign| + |hours|;
    assert t[n..] == ":" + u;
  }

  /** Hours that do not fit 32 bits set errno, whatever follows them. */
  lemma HoursOutOfRange(prefix: string, kind: Kind, hours: string, rest: string)
    requires match kind case Daily => prefix == "" case Interval => prefix == "@" case Once => prefix == "!"
    requires hours != "" && AllDigits(hours) && (rest != "" ==> !IsDigit(rest[0])) && Value(hours) > INT_MAX
    ensures ParseEvent(prefix + (hours + rest), false) == TextReading(None, true)
  {
    hide Strtol, Value, KindOf, Prefix, ReadHours, ParseRest;
    HoursRead(prefix, kind, "", hours, rest);
    ValueIsPositive(hours);
    assert "" + (hours + rest) == hours + rest;
  }

  /** The two numbers of a text and where they are, for numbers with a sign or none. */
  lemma NumbersRead(s: string, prefix: string, kind: Kind, sign: string, hours: string, t: string,
                    minuteSign: string, minutes: string, rest: string, u: string)
    requires match kind case Daily => prefix == "" case Interval => prefix == "@" case Once => prefix == "!"
    requires (sign == "" || sign == "+" || sign == "-") && hours != "" && AllDigits(hours)
    requires (minuteSign == "" || minuteSign == "+" || minuteSign == "-") && minutes != "" && AllDigits(minutes)
    requires rest != "" ==> !IsDigit(rest[0])
    requires u == minuteSign + (minutes + rest) && t == sign + (hours + (":" + u)) && s == prefix + t
    ensures s != "" && KindOf(s) == kind && |Prefix(kind)| <= |s| && s[|Prefix(kind)|..] == t
    ensures ReadAs(t, sign, hours) && ReadAs(u, minuteSign, minutes)
    ensures var n := |sign| + |hours|; n < |t| && t[n] == ':' && t[n + 1..] == u
  {
    hide Strtol, Value, KindOf, Prefix, ReadAs, AllDigits;
    assert (":" + u)[0] == ':';
    HoursRead(prefix, kind, sign, hours, ":" + u);
    NumberRead(minuteSign, minutes, rest);
    BehindColon(sign, hours, u);
  }

  /** What the two numbers of a text decide. */
  lemma NumbersDecide(s: string, kind: Kind, t: string, n: nat, u: string)
    requires s != "" && KindOf(s) == kind && |Prefix(kind)| <= |s| && s[|Prefix(kind)|..] == t
    requires n < |t| && t[n] == ':' && t[n + 1..] == u && Strtol(t).length == n > 0
    ensures ParseEvent(s, false).event.Some? ==>
      && 0 <= Strtol(t).value && (kind.Daily? ==> Strtol(t).value <= 23) && 0 <= Strtol(u).value <= 59
      && !Strtol(t).range && !Strtol(u).range
    ensures !Strtol(t).range && 0 <= Strtol(t).value <= (if kind.Daily? then 23 else INT_MAX) ==>
      (ParseEvent(s, false).errno <==> Strtol(u).range)
  {
    hide Strtol, KindOf, Prefix, Spaces, ActionNamed, OffsetOf;
  }

  /**
   * Of numbers with a sign or none, only hours from 0, up to 23 if DAILY, and
   * minutes from 0 to 59 are accepted, whatever follows them.
   */
  lemma OnlyTimesAccepted(s: string, prefix: string, kind: Kind, sign: string, hours: string, t: string,
                          minuteSign: string, minutes: string, rest: string, u: string)
    requires match kind case Daily => prefix == "" case Interval => prefix == "@" case Once => prefix == "!"
    requires (sign == "" || sign == "+" || sign == "-") && hours != "" && AllDigits(hours)
    requires (minuteSign == "" || minuteSign == "+" || minuteSign == "-") && minutes != "" && AllDigits(minutes)
    requires rest != "" ==> !IsDigit(rest[0])
    requires u == minuteSign + (minutes + rest) && t == sign + (hours + (":" + u)) && s == prefix + t
    requires ParseEvent(s, false).event.Some?
    ensures var h := if sign == "-" then -Value(hours) else Value(hours);
            var m := if minuteSign == "-" then -Value(minutes) else Value(minutes);
            0 <= h && (kind.Daily? ==> h <= 23) && 0 <= m <= 59
  {
    hide Strtol, Value, KindOf, Prefix, ParseEvent, AllDigits, IsDigit;
    NumbersRead(s, prefix, kind, sign, hours, t, minuteSign, minutes, rest, u);
    NumbersDecide(s, kind, t, |sign| + |hours|, u);
  }

  /** Minutes behind hours in range set errno if and only if they do not fit 32 bits, whatever follows them. */
  lemma MinutesOutOfRangeExactly(s: string, prefix: string, kind: Kind, sign: string, hours: string, t: string,
                                 minuteSign: string, minutes: string, rest: string, u: string)
    requires match kind case Daily => prefix == "" case Interval => prefix == "@" case Once => prefix == "!"
    requires (sign == "" || sign == "+" || sign == "-") && hours != "" && AllDigits(hours)
    requires (minuteSign == "" || minuteSign == "+" || minuteSign == "-") && minutes != "" && AllDigits(minutes)
    requires rest != "" ==> !IsDigit(rest[0])
    requires u == minuteSign + (minutes + rest) && t == sign + (hours + (":" + u)) && s == prefix + t
    requires 0 <= (if sign == "-" then -Value(hours) else Value(hours)) <= if kind.Daily? then 23 else INT_MAX
    ensures ParseEvent(s, false).errno <==>
            !(INT_MIN <= (if minuteSign == "-" then -Value(minutes) else Value(minutes)) <= INT_MAX)
  {
    hide Strtol, Value, KindOf, Prefix, ParseEvent, AllDigits, IsDigit;
    NumbersRead(s, prefix, kind, sign, hours, t, minuteSign, minutes, rest, u);
    NumbersDecide(s, kind, t, |sign| + |hours|, u);
  }

  lemma TooManyHoursValue()
    ensures Value("2147483648") == 2147483648
  {
    assert "21474"[..4] == "2147" && "2147"[..3] == "214" && "214"[..2] == "21" && "21"[..1] == "2" && "2"[..0] == "";
    assert Value("21") == 21;
    assert Value("2147") == 2147;
    hide Value;
    ValueNext("2147", '4');
    ValueNext("21474", '8');
    ValueNext("214748", '3');
    ValueNext("2147483", '6');
    ValueNext("21474836", '4');
    ValueNext("214748364", '8');
    assert "2147" + ['4'] == "21474" && "21474" + ['8'] == "214748" && "214748" + ['3'] == "2147483";
    assert "2147483" + ['6'] == "21474836" && "21474836" + ['4'] == "214748364";
    assert "214748364" + ['8'] == "2147483648";
  }

  lemma TooManyHours()
    ensures OutOfRange("2147483648:00 SUSPEND")
  {
    hide Strtol, Value;
    var s := "2147483648:00 SUSPEND";
    TooManyHoursValue();
    DigitsRead("2147483648", ":00 SUSPEND");
    assert "2147483648" + ":00 SUSPEND" == s && s[0..] == s;
  }

  lemma ParsesAsPrinted()
    ensures ParseEvent("22:00 RESUME", false).event == Some(EventSpec(Daily, Resume, 22 * SECONDS_PER_HOUR))
  {
    hide ParseEvent, Format02;
    var e := EventSpec(Daily, Resume, 79200);
    Format02Is(22);
    Format02Is(0);
    PrintRoundTripExactly(e);
    assert EventString(e) == "22:00 RESUME";
  }

  /** A text with a number out of range, and a well-formed one that is discarded for coming after it. */
  lemma GoodTextDiscarded()
    ensures var texts := ["2147483648:00 SUSPEND", "22:00 RESUME"];
            && OutOfRange(texts[0]) && EventAt(texts, 1) == None
            && ParseEvent(texts[1], false).event == Some(EventSpec(Daily, Resume, 22 * SECONDS_PER_HOUR))
  {
    var texts := ["2147483648:00 SUSPEND", "22:00 RESUME"];
    TooManyHours();
    ParsesAsPrinted();
    hide ParseEvent;
    assert texts[..1][0] == texts[0];
    AcceptedExactly(texts, 1);
  }

  /** The offset of an accepted DAILY event is a time of day. */
  lemma DailyIsTimeOfDay(s: string)
    ensures var event := ParseEvent(s, false).event;
            event.Some? && event.value.kind.Daily? ==> 0 <= event.value.offset < SECONDS_PER_DAY
  {
    hide ParseEvent, Strtol, PartsOf, Assembled;
    if ParseEvent(s, false).event.Some? && ParseEvent(s, false).event.value.kind.Daily? {
      var p := PartsOf(s);
      AcceptedSays(s);
      OffsetIsExact(Strtol(p.hours).value, Strtol(p.minutes).value);
    }
  }

  /** An offset is not negative, and that of a DAILY event a time of day. */
  predicate InDay(e: EventSpec) {
    0 <= e.offset && (e.kind.Daily? ==> e.offset < SECONDS_PER_DAY)
  }

  lemma NothingParsed()
    ensures ParseEvent("", true).event == ParseEvent("", false).event == None
  {
  }

  lemma EventAtInDay(texts: seq<string>, i: nat)
    requires i < |texts|
    ensures EventAt(texts, i).Some? ==> InDay(EventAt(texts, i).value)
  {
    hide ParseEvent;
    OffsetsAreNotNegative(texts[i], ErrnoAfter(texts[..i]));
    DailyIsTimeOfDay(texts[i]);
    if texts[i] != "" {
      ErrnoStays(texts[i]);
    } else {
      NothingParsed();
    }
  }

  /** The offsets of all events accepted from a list are such. */
  lemma {:induction false} AcceptedInDay(texts: seq<string>, n: nat)
    requires n <= |texts|
    ensures forall i :: 0 <= i < |AcceptedTo(texts, n)| ==> InDay(AcceptedTo(texts, n)[i])
  {
    hide EventAt;
    if n > 0 {
      AcceptedInDay(texts, n - 1);
      EventAtInDay(texts, n - 1);
    }
  }

  /** If nothing is discarded, every text gave its event. */
  lemma {:induction false} NoneDiscarded(texts: seq<string>, n: nat)
    requires n <= |texts| && DiscardedTo(texts, n) == 0
    ensures |AcceptedTo(texts, n)| == n && forall i :: 0 <= i < n ==> EventAt(texts, i) == Some(AcceptedTo(texts, n)[i])
  {
    hide EventAt;
    if n > 0 {
      NoneDiscarded(texts, n - 1);
    }
  }
}
