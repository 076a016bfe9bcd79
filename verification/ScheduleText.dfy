/**
 * A whole schedule as configured (config.c): events printed, joined into one
 * list string, split again (util.c) and parsed (event.c).
 */
module ScheduleText {
  import opened CText
  import opened EventText
  import opened Events
  import opened ListText

  function EventStrings(specs: seq<EventSpec>): seq<string> {
    seq(|specs|, i requires 0 <= i < |specs| => EventString(specs[i]))
  }

  predicate Plain(c: char) {
    !IsSpace(c) && !IsDelimiter(c)
  }

  predicate AllPlain(s: string) {
    forall i :: 0 <= i < |s| ==> Plain(s[i])
  }

  lemma {:induction false} DecimalIsPlain(n: nat)
    ensures Decimal(n) != "" && AllPlain(Decimal(n))
  {
    if n >= 10 {
      DecimalIsPlain(n / 10);
    }
  }

  lemma Format02IsPlain(n: int)
    ensures Format02(n) != "" && AllPlain(Format02(n))
  {
    hide Decimal;
    DecimalIsPlain(if n < 0 then -n else n);
  }

  lemma NameIsPlain(action: Action)
    ensures Name(action) != "" && AllPlain(Name(action))
  {
  }

  /** A printed event is one trimmed item of a list. */
  lemma EventStringIsItem(e: EventSpec)
    ensures EventString(e) != "" && PlainItem(EventString(e))
  {
    hide Format02, Name, Decimal;
    var h, m := Format02(GetHours(e.offset)), Format02(GetMinutes(e.offset));
    Format02IsPlain(GetHours(e.offset));
    Format02IsPlain(GetMinutes(e.offset));
    NameIsPlain(e.action);
    var s := Prefix(e.kind) + h + ":" + m + " " + Name(e.action);
    assert s[|s| - 1] == Name(e.action)[|Name(e.action)| - 1];
    assert e.kind.Daily? ==> s[0] == h[0];
  }

  lemma {:induction false} NonEmptyIsAll(items: seq<string>)
    requires forall i :: 0 <= i < |items| ==> items[i] != ""
    ensures NonEmpty(items) == items
  {
    if items != [] {
      NonEmptyIsAll(items[..|items| - 1]);
    }
  }

  /** The texts that reach the parser are the printed ones. */
  lemma TextsSurvive(specs: seq<EventSpec>)
    requires specs != []
    ensures NonEmpty(Trims(Items(Join(EventStrings(specs))))) == EventStrings(specs)
  {
    hide EventString, PlainItem, Trims, Items, NonEmpty, Join;
    var items := EventStrings(specs);
    forall i | 0 <= i < |items| ensures items[i] != "" && PlainItem(items[i]) {
      EventStringIsItem(specs[i]);
    }
    JoinRoundTripExactly(items);
    NonEmptyIsAll(items);
  }

  lemma {:induction false} ErrnoStaysClear(specs: seq<EventSpec>, n: nat)
    requires n <= |specs| && forall i :: 0 <= i < |specs| ==> specs[i].offset >= 0
    ensures !ErrnoAfter(EventStrings(specs)[..n])
  {
    hide ParseEvent, EventString;
    if n > 0 {
      ErrnoStaysClear(specs, n - 1);
      PrintedParses(specs[n - 1]);
      assert EventStrings(specs)[..n][..n - 1] == EventStrings(specs)[..n - 1];
    }
  }

  predicate MinuteOfDay(offset: int) {
    0 <= offset < SECONDS_PER_DAY && offset % SECONDS_PER_MINUTE == 0
  }

  lemma {:induction false} AllAccepted(specs: seq<EventSpec>, n: nat)
    requires n <= |specs| && forall i :: 0 <= i < |specs| ==> MinuteOfDay(specs[i].offset)
    ensures AcceptedTo(EventStrings(specs), n) == specs[..n] && DiscardedTo(EventStrings(specs), n) == 0
  {
    hide ParseEvent, EventString, ErrnoAfter;
    if n > 0 {
      AllAccepted(specs, n - 1);
      ErrnoStaysClear(specs, n - 1);
      PrintRoundTripExactly(specs[n - 1]);
      assert specs[..n] == specs[..n - 1] + [specs[n - 1]];
    }
  }

  /** What is accepted in a list is what would be accepted alone. */
  lemma AcceptedAlone(texts: seq<string>, i: nat)
    requires i < |texts| && texts[i] != "" && EventAt(texts, i).Some?
    ensures ParseEvent(texts[i], false).event == EventAt(texts, i)
  {
    hide ParseEvent;
    ErrnoStays(texts[i]);
  }

  /** A schedule survives being written as a list and configured again for exactly the minutes of one day. */
  lemma ScheduleRoundTripExactly(specs: seq<EventSpec>)
    requires specs != []
    ensures var texts := NonEmpty(Trims(Items(Join(EventStrings(specs)))));
            AcceptedTo(texts, |texts|) == specs <==> forall i :: 0 <= i < |specs| ==> MinuteOfDay(specs[i].offset)
  {
    hide Trims, Items, NonEmpty, Join, AcceptedTo, DiscardedTo, EventString, EventAt;
    var texts := EventStrings(specs);
    TextsSurvive(specs);
    if forall i :: 0 <= i < |specs| ==> MinuteOfDay(specs[i].offset) {
      AllAccepted(specs, |specs|);
      assert specs[..|specs|] == specs;
    }
    if AcceptedTo(texts, |texts|) == specs {
      NothingUncounted(texts, |texts|);
      NoneDiscarded(texts, |texts|);
      forall i | 0 <= i < |specs| ensures MinuteOfDay(specs[i].offset) {
        EventStringIsItem(specs[i]);
        AcceptedAlone(texts, i);
        PrintRoundTripExactly(specs[i]);
      }
    }
  }
}
