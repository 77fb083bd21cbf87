/**
 The single fields of a log line: what their texts denote, how long they are, and which of them need the time.
 */
module FieldLayout {
  import opened Calendar
  import opened FileNames
  import opened LineLayout
  import opened LogFields
  import opened Options
  import opened Padding
  import opened ParseInt
  import opened PatternFormatter
  import opened PatternSyntax
  import opened TimeCache

  // What the time fields denote.

  predicate Reads(text: Option<string>, n: int) {
    text.Some? && text.value != "" && AllDigits(text.value) && Value(text.value) == n
  }

  /** The numbers read back: year, month, day, hour, minute, second, and the hour on a clock of twelve. */
  lemma NumbersReadBack(tm: Tm)
    requires InRange(tm)
    ensures Reads(ClockText('Y', tm), tm.year + 1900) && Reads(ClockText('m', tm), tm.mon + 1)
    ensures Reads(ClockText('d', tm), tm.mday) && Reads(ClockText('H', tm), tm.hour)
    ensures Reads(ClockText('M', tm), tm.min) && Reads(ClockText('S', tm), tm.sec)
    ensures Reads(ClockText('I', tm), if tm.hour <= 12 then tm.hour else tm.hour - 12)
    ensures tm.year >= 0 ==> Reads(ClockText('C', tm), tm.year % 100)
  {
    hide AllDigits, Value, Pad2, AppendInt;
    YearReads(tm.year + 1900);
    Pad2Reads(tm.mon + 1);
    Pad2Reads(tm.mday);
    Pad2Reads(tm.hour);
    Pad2Reads(tm.min);
    Pad2Reads(tm.sec);
    Pad2Reads(To12h(tm));
    if tm.year >= 0 {
      Pad2Reads(tm.year % 100);
    }
  }

  /** The texts of a message are shown as they are, and its numbers read back. */
  lemma MessageReadsBack(env: Env, msg: LogMsg, tm: Tm)
    ensures FieldText(env, 'n', msg, tm) == msg.name && FieldText(env, 'l', msg, tm) == msg.level
    ensures FieldText(env, 'v', msg, tm) == msg.payload
    ensures Reads(Some(FieldText(env, 'E', msg, tm)), msg.second)
    ensures msg.millis <= 999 ==> Reads(Some(FieldText(env, 'e', msg, tm)), msg.millis)
  {
    hide AllDigits, Value, Pad3, Decimal;
    DecimalValue(msg.second);
    if msg.millis <= 999 {
      Pad3Reads(msg.millis);
    }
  }

  /** A source is shown whole or in part, and an unknown one not at all. */
  lemma SourceReadsBack(env: Env, msg: LogMsg, tm: Tm)
    ensures msg.source.line <= 0 ==> forall flag :: flag in "sg#@" ==> FieldText(env, flag, msg, tm) == ""
    ensures msg.source.line > 0 ==>
              && FieldText(env, 's', msg, tm) == msg.source.Basename()
              && FieldText(env, 'g', msg, tm) == msg.source.filename
              && Reads(Some(FieldText(env, '#', msg, tm)), msg.source.line)
              && FieldText(env, '@', msg, tm) == msg.source.filename + ":" + FieldText(env, '#', msg, tm)
  {
    hide AllDigits, Value, Decimal, Source.Basename;
    if msg.source.line > 0 {
      DecimalValue(msg.source.line);
    }
  }

  /** The long date: weekday, month, day, clock and year. */
  lemma LongDateIs(tm: Tm)
    ensures var f := (flag: char) => if ClockText(flag, tm).Some? then ClockText(flag, tm).value else "";
            f('c') == f('a') + " " + f('b') + " " + AppendInt(tm.mday) + " " + f('T') + " " + f('Y')
  {
    hide Pad2, Name, AppendInt;
    var lead := Name(DAYS, tm.wday) + " " + Name(MONTHS, tm.mon) + " " + AppendInt(tm.mday) + " ";
  }

  /** The hour of a twelve-hour clock runs from 1 to 12, except at midnight, which is shown as 0. */
  lemma TwelveHoursIff(tm: Tm)
    requires InRange(tm)
    ensures (exists hour :: 1 <= hour <= 12 && Reads(ClockText('I', tm), hour)) <==> tm.hour != 0
  {
    NumbersReadBack(tm);
  }

  /** The compound fields are made of the simple ones. */
  lemma CompoundFields(tm: Tm)
    ensures var f := (flag: char) => if ClockText(flag, tm).Some? then ClockText(flag, tm).value else "";
            && f('D') == f('x') == f('m') + "/" + f('d') + "/" + f('C')
            && f('R') == f('H') + ":" + f('M')
            && f('T') == f('X') == f('R') + ":" + f('S')
            && f('r') == f('I') + ":" + f('M') + ":" + f('S') + " " + f('p')
            && f('p') == if tm.hour < 12 then "AM" else "PM"
  {
    hide Pad2, TruncMod, Name, AppendInt, To12h;
  }

  /** The short names are the first three letters of the long ones. */
  lemma ShortNames(tm: Tm)
    requires InRange(tm)
    ensures |Name(FULL_DAYS, tm.wday)| >= 3 && ClockText('a', tm) == Some(Name(FULL_DAYS, tm.wday)[..3])
    ensures |Name(FULL_MONTHS, tm.mon)| >= 3 && ClockText('b', tm) == Some(Name(FULL_MONTHS, tm.mon)[..3])
    ensures ClockText('h', tm) == ClockText('b', tm)
    ensures ClockText('A', tm) == Some(Name(FULL_DAYS, tm.wday)) && ClockText('B', tm) == Some(Name(FULL_MONTHS, tm.mon))
  {
    ShortDay(tm.wday);
    ShortMonth(tm.mon);
  }

  lemma ShortDay(i: int)
    requires 0 <= i <= 6
    ensures |FULL_DAYS[i]| >= 3 && DAYS[i] == FULL_DAYS[i][..3]
  {
  }

  lemma ShortMonth(i: int)
    requires 0 <= i <= 11
    ensures |FULL_MONTHS[i]| >= 3 && MONTHS[i] == FULL_MONTHS[i][..3]
  {
  }

  // How long they are.

  lemma Pad2Length(n: int)
    requires -99 <= n <= 99
    ensures |Pad2(n)| == if n <= -10 then 3 else 2
  {
    if n >= 0 {
      Pad2Reads(n);
    } else {
      DecimalLength(-n);
      DecimalLength(-n / 10);
    }
  }

  lemma RemainderRange(n: int)
    ensures -99 <= TruncMod(n, 100) <= 99
  {
  }

  /**
   A time field has the size it declares, except the long date on a day of one digit, and the two-digit
   year of a year before 1900 whose remainder has two digits and a sign.
   */
  lemma ClockSizeIff(env: Env, flag: char, msg: LogMsg, tm: Tm)
    requires InRange(tm) && flag != 'z' && ClockText(flag, tm).Some?
    ensures |FieldText(env, flag, msg, tm)| == FieldSize(env, flag, msg, tm)
       <==> !(flag == 'c' && tm.mday < 10) && !(flag in "CDx" && TruncMod(tm.year, 100) <= -10)
  {
    hide AllDigits, Value, Pad2, AppendInt, TruncMod;
    RemainderRange(tm.year);
    YearReads(tm.year + 1900);
    Pad2Length(tm.mon + 1);
    Pad2Length(tm.mday);
    Pad2Length(tm.hour);
    Pad2Length(tm.min);
    Pad2Length(tm.sec);
    Pad2Length(To12h(tm));
    Pad2Length(TruncMod(tm.year, 100));
    if flag == 'c' {
      LongDateLength(tm);
    }
  }

  lemma LongDateLength(tm: Tm)
    requires InRange(tm)
    ensures ClockText('c', tm).Some? && |ClockText('c', tm).value| == if tm.mday < 10 then 23 else 24
  {
    hide AllDigits, Value, Pad2;
    YearReads(tm.year + 1900);
    DecimalLength(tm.mday);
    DecimalLength(tm.mday / 10);
    Pad2Length(tm.hour);
    Pad2Length(tm.min);
    Pad2Length(tm.sec);
    ShortDay(tm.wday);
    ShortMonth(tm.mon);
  }

  /** A padded long date has the right width exactly from the tenth of the month on, or where its width does not matter. */
  lemma PaddedLongDateIff(text: string, tm: Tm, padding: PaddingInfo)
    requires InRange(tm) && ClockText('c', tm).Some?
    ensures var body := ClockText('c', tm).value;
            |Padded(text, body, ClockSize('c'), padding)| == |text| + FieldLength(body, padding)
            <==> tm.mday >= 10 || (padding.width <= 23 && !padding.truncate) || (padding.width == 0 && text == "")
  {
    LongDateLength(tm);
    hide ClockText;
    var body := ClockText('c', tm).value;
    if padding.width > 0 || text != "" || tm.mday >= 10 {
      FieldLengthIff(text, body, 24, padding);
    } else {
      assert Spaces(0) == "";
    }
  }

  /** A field with padding is what was there, and then its body justified or cut as the padding says; without, the body. */
  lemma FieldIsPadded(env: Env, text: string, flag: char, padding: PaddingInfo, date: string, msg: LogMsg, tm: Tm)
    requires FieldSize(env, flag, msg, tm) == |FieldText(env, flag, msg, tm)|
    ensures var body, after := FieldText(env, flag, msg, tm), Written(env, text, Field(flag, padding), date, msg, tm);
            && text <= after
            && var field := after[|text|..];
            && (!padding.enabled ==> field == body)
            && (padding.enabled && |body| <= padding.width ==>
                  exists left: nat, right: nat :: Justified(field, body, padding, left, right))
            && (padding.enabled && |body| > padding.width ==>
                  field == if padding.truncate then body[..padding.width] else body)
  {
    hide FieldText, FieldSize, Justified;
    var body := FieldText(env, flag, msg, tm);
    ExactField(text, body, padding);
  }

  // Which flags need the time.

  /** The broken-down time shows in what a flag writes exactly for the flags that ask for it. */
  lemma ShowsTimeIff(flag: char)
    ensures (exists tm, tm' :: ClockText(flag, tm) != ClockText(flag, tm'))
       <==> UsesTime(Field(flag, NO_PADDING)) && flag !in "+z"
  {
    if UsesTime(Field(flag, NO_PADDING)) && flag !in "+z" {
      TimesDiffer(flag);
      assert ClockText(flag, NEW_YEAR) != ClockText(flag, OTHER_DAY);
    }
  }

  const NEW_YEAR := Tm(0, 0, 0, 1, 0, 100, 0, 0)
  const OTHER_DAY := Tm(1, 1, 13, 2, 1, 101, 1, 1)

  lemma TimesDiffer(flag: char)
    requires flag in "aAbhBcCYDxmdHMSIprRTX"
    ensures ClockText(flag, NEW_YEAR) != ClockText(flag, OTHER_DAY)
  {
    if flag in "CYmdHMSI" {
      NumbersReadBack(NEW_YEAR);
      NumbersReadBack(OTHER_DAY);
    } else if flag in "aAbhBpc" {
      NamesDiffer(flag);
    } else {
      PrefixesDiffer(flag);
    }
  }

  lemma NamesDiffer(flag: char)
    requires flag in "aAbhBpc"
    ensures ClockText(flag, NEW_YEAR) != ClockText(flag, OTHER_DAY)
  {
    hide Pad2, AppendInt;
    var text, text' := ClockText(flag, NEW_YEAR).value, ClockText(flag, OTHER_DAY).value;
    assert text[0] != text'[0];
  }

  lemma PrefixesDiffer(flag: char)
    requires flag in "DxrRTX"
    ensures ClockText(flag, NEW_YEAR) != ClockText(flag, OTHER_DAY)
  {
    hide AllDigits, Value, Pad2, TruncMod;
    var lead := if flag in "Dx" then 'm' else if flag == 'r' then 'I' else 'H';
    TimesDifferInNumbers(lead);
    Pad2Reads(0);
    Pad2Reads(1);
    Pad2Reads(2);
    Pad2Reads(13);
    var text, text' := ClockText(flag, NEW_YEAR).value, ClockText(flag, OTHER_DAY).value;
    assert text[..2] == ClockText(lead, NEW_YEAR).value && text'[..2] == ClockText(lead, OTHER_DAY).value;
  }

  lemma TimesDifferInNumbers(flag: char)
    requires flag in "mIH"
    ensures ClockText(flag, NEW_YEAR) != ClockText(flag, OTHER_DAY)
  {
    NumbersReadBack(NEW_YEAR);
    NumbersReadBack(OTHER_DAY);
  }

  /** Neither the time, nor a date, nor a formatter of the user's. */
  predicate Timeless(parts: seq<Part>) {
    !Timed(parts) && forall i :: 0 <= i < |parts| ==> !parts[i].Custom?
  }

  lemma TimelessPart(env: Env, text: string, part: Part, date: string, date': string, msg: LogMsg, tm: Tm, tm': Tm)
    requires !UsesTime(part) && !part.Custom?
    ensures Written(env, text, part, date, msg, tm) == Written(env, text, part, date', msg, tm')
  {
    hide Padded, MessageText;
  }

  lemma TimelessTail(parts: seq<Part>)
    requires Timeless(parts) && parts != []
    ensures !UsesTime(parts[0]) && !parts[0].Custom? && Timeless(parts[1..])
  {
    forall i | 0 <= i < |parts[1..]| ensures !UsesTime(parts[1..][i]) {
      assert !UsesTime(parts[i + 1]);
    }
  }

  lemma {:induction false} TimelessRenders(env: Env, text: string, parts: seq<Part>, caches: seq<DateCache>, msg: LogMsg,
                                           tm: Tm, tm': Tm)
    requires |parts| == |caches| && Timeless(parts)
    ensures RenderedCached(env, text, parts, caches, msg, tm) == Rendered(env, text, parts, msg, tm', tm')
    decreases |parts|
  {
    hide Written, Timeless, DateText, Cached;
    if parts != [] {
      TimelessTail(parts);
      var date, date' := Cached(caches[0], msg.second, tm).text, DateText(tm');
      TimelessPart(env, text, parts[0], date, date', msg, tm, tm');
      TimelessRenders(env, Written(env, text, parts[0], date', msg, tm'), parts[1..], caches[1..], msg, tm, tm');
    }
  }

  /** A pattern that asks for no time needs none: whatever the caches hold, its output is as if the time were computed. */
  lemma TimelessIsDirect(env: Env, st: State, msg: LogMsg)
    requires st.Valid() && Timeless(st.parts)
    ensures FormatOutput(env, st, "", msg) == DirectOutput(env, st.parts, msg)
  {
    TimelessRenders(env, "", st.parts, st.caches, msg, Refreshed(env, st, msg).tm, env.getTime(msg.second));
  }
}
