/**
 What a log line looks like: which characters stand where, and which numbers its digits denote.
 */
module LineLayout {
  import opened Calendar
  import opened FileNames
  import opened LogFields
  import opened ParseInt
  import opened Sequences

  /** The digits between two positions denote a number. */
  predicate NumberAt(s: string, from: nat, to: nat, n: int) {
    from < to <= |s| && AllDigits(s[from..to]) && Value(s[from..to]) == n
  }

  lemma NumberIn(s: string, p: nat, digits: string, n: int)
    requires At(s, p, digits) && digits != "" && AllDigits(digits) && Value(digits) == n
    ensures NumberAt(s, p, p + |digits|, n)
  {
    AtSlice(s, p, digits);
  }

  lemma CharAt(s: string, p: nat, c: char)
    requires At(s, p, [c])
    ensures p < |s| && s[p] == c
  {
    assert [c][0] == s[p + 0];
  }

  lemma {:induction false} DecimalLength(n: nat)
    ensures |Decimal(n)| == if n < 10 then 1 else 1 + |Decimal(n / 10)|
  {
  }

  lemma FourDigits(n: nat)
    requires 1000 <= n <= 9999
    ensures |Decimal(n)| == 4
  {
    DecimalLength(n);
    DecimalLength(n / 10);
    DecimalLength(n / 10 / 10);
    DecimalLength(n / 10 / 10 / 10);
  }

  lemma LeadingZero(digits: string)
    requires AllDigits(digits)
    ensures AllDigits("0" + digits) && Value("0" + digits) == Value(digits)
  {
    LeadingZeros(digits);
  }

  lemma {:induction false} LeadingZeros(digits: string)
    ensures Value("0" + digits) == Value(digits)
  {
    if digits == "" {
      assert ("0" + "")[..0] == "";
    } else {
      var rest := digits[..|digits| - 1];
      LeadingZeros(rest);
      assert ("0" + digits)[..|digits|] == "0" + rest;
    }
  }

  lemma Pad2Reads(n: int)
    requires 0 <= n <= 99
    ensures |Pad2(n)| == 2 && AllDigits(Pad2(n)) && Value(Pad2(n)) == n
  {
    DecimalLength(n);
    DecimalLength(n / 10);
    DecimalValue(n);
    LeadingZero(Decimal(n));
  }

  lemma Pad3Reads(n: nat)
    requires n <= 999
    ensures |Pad3(n)| == 3 && AllDigits(Pad3(n)) && Value(Pad3(n)) == n
  {
    DecimalLength(n);
    DecimalLength(n / 10);
    DecimalLength(n / 10 / 10);
    DecimalValue(n);
    LeadingZero(Decimal(n));
    LeadingZero("0" + Decimal(n));
    assert "0" + ("0" + Decimal(n)) == "00" + Decimal(n);
  }

  /** The fields of a broken-down time are in the ranges of the C standard, and the year has four digits. */
  predicate InRange(tm: Tm) {
    && 0 <= tm.sec <= 60 && 0 <= tm.min <= 59 && 0 <= tm.hour <= 23
    && 1 <= tm.mday <= 31 && 0 <= tm.mon <= 11 && 0 <= tm.wday <= 6
    && 1000 <= tm.year + 1900 <= 9999
  }

  // The date of the full formatter.

  lemma DayLayout(s: string, p: nat, tm: Tm)
    requires InRange(tm) && At(s, p, DayText(tm))
    ensures |DayText(tm)| == 15 && p + 15 <= |s|
    ensures NumberAt(s, p, p + 2, tm.mon + 1) && s[p + 2] == '-'
    ensures NumberAt(s, p + 3, p + 5, tm.mday) && s[p + 5] == ' '
    ensures NumberAt(s, p + 6, p + 8, tm.hour) && s[p + 8] == ':'
    ensures NumberAt(s, p + 9, p + 11, tm.min) && s[p + 11] == ':'
    ensures NumberAt(s, p + 12, p + 14, tm.sec) && s[p + 14] == '.'
  {
    hide Pad2, NumberAt, AllDigits, Value, At;
    var mon, mday, hour, min, sec := Pad2(tm.mon + 1), Pad2(tm.mday), Pad2(tm.hour), Pad2(tm.min), Pad2(tm.sec);
    Pad2Reads(tm.mon + 1);
    Pad2Reads(tm.mday);
    Pad2Reads(tm.hour);
    Pad2Reads(tm.min);
    Pad2Reads(tm.sec);
    AtConcat(s, p, mon + "-" + mday + " " + hour + ":" + min + ":" + sec, ".");
    AtConcat(s, p, mon + "-" + mday + " " + hour + ":" + min + ":", sec);
    AtConcat(s, p, mon + "-" + mday + " " + hour + ":" + min, ":");
    AtConcat(s, p, mon + "-" + mday + " " + hour + ":", min);
    AtConcat(s, p, mon + "-" + mday + " " + hour, ":");
    AtConcat(s, p, mon + "-" + mday + " ", hour);
    AtConcat(s, p, mon + "-" + mday, " ");
    AtConcat(s, p, mon + "-", mday);
    AtConcat(s, p, mon, "-");
    CharAt(s, p + 2, '-');
    CharAt(s, p + 5, ' ');
    CharAt(s, p + 8, ':');
    CharAt(s, p + 11, ':');
    CharAt(s, p + 14, '.');
    NumberIn(s, p, mon, tm.mon + 1);
    NumberIn(s, p + 3, mday, tm.mday);
    NumberIn(s, p + 6, hour, tm.hour);
    NumberIn(s, p + 9, min, tm.min);
    NumberIn(s, p + 12, sec, tm.sec);
  }

  lemma YearReads(n: int)
    requires 1000 <= n <= 9999
    ensures |AppendInt(n)| == 4 && AllDigits(AppendInt(n)) && Value(AppendInt(n)) == n
  {
    FourDigits(n);
    DecimalValue(n);
  }

  lemma DateLayout(s: string, p: nat, tm: Tm)
    requires InRange(tm) && At(s, p, DateText(tm))
    ensures |DateText(tm)| == 21 && p + 21 <= |s|
    ensures s[p] == '[' && NumberAt(s, p + 1, p + 5, tm.year + 1900) && s[p + 5] == '-'
    ensures At(s, p + 6, DayText(tm))
  {
    hide DayText, NumberAt, AllDigits, Value, AppendInt, At;
    var year := AppendInt(tm.year + 1900);
    YearReads(tm.year + 1900);
    AtConcat(s, p, "[" + year + "-", DayText(tm));
    AtConcat(s, p, "[" + year, "-");
    AtConcat(s, p, "[", year);
    CharAt(s, p, '[');
    CharAt(s, p + 5, '-');
    NumberIn(s, p + 1, year, tm.year + 1900);
    DayLayout(s, p + 6, tm);
  }

  /** The date reads back: year, month, day, hour, minute and second, in this order and in these places. */
  lemma DateReadsBack(tm: Tm)
    requires InRange(tm)
    ensures var t := DateText(tm);
            && |t| == 21 && t[0] == '['
            && NumberAt(t, 1, 5, tm.year + 1900) && t[5] == '-'
            && NumberAt(t, 6, 8, tm.mon + 1) && t[8] == '-'
            && NumberAt(t, 9, 11, tm.mday) && t[11] == ' '
            && NumberAt(t, 12, 14, tm.hour) && t[14] == ':'
            && NumberAt(t, 15, 17, tm.min) && t[17] == ':'
            && NumberAt(t, 18, 20, tm.sec) && t[20] == '.'
  {
    hide DateText, DayText, NumberAt;
    assert At(DateText(tm), 0, DateText(tm));
    hide At;
    DateLayout(DateText(tm), 0, tm);
    DayLayout(DateText(tm), 6, tm);
  }

  // The rest of the line.

  /** The base name of a path: what follows its last slash, or all of it. */
  lemma BasenameIs(source: Source) returns (start: nat)
    ensures start <= |source.filename| && source.Basename() == source.filename[start..]
    ensures start > 0 ==> source.filename[start - 1] == '/'
    ensures forall j :: start <= j < |source.filename| ==> source.filename[j] != '/'
  {
    hide LastOf;
    start := LastOf(source.filename, FOLDER_SEPS) + 1;
  }

  /** A known source: its base name and its line, between brackets. */
  ghost predicate SourceAt(text: string, source: Source) {
    var colon := 1 + |source.Basename()|;
    && colon + 2 < |text| - 1
    && text[0] == '[' && At(text, 1, source.Basename()) && text[colon] == ':'
    && NumberAt(text, colon + 1, |text| - 2, source.line) && At(text, |text| - 2, "] ")
  }

  /**
   After the date come the milliseconds in three digits, the name if there is one, the level, the base
   name and line of the source if it is known, and the message.
   */
  lemma TailReadsBack(msg: LogMsg) returns (name: string, source: string)
    requires msg.millis <= 999
    ensures NumberAt(FullTail(msg), 0, 3, msg.millis)
    ensures FullTail(msg)[3..] == "] " + name + "[" + msg.level + "] " + source + msg.payload
    ensures name == if msg.name == "" then "" else "[" + msg.name + "] "
    ensures if msg.source.line <= 0 then source == "" else SourceAt(source, msg.source)
  {
    hide SourceAt, NumberAt;
    name, source := if msg.name == "" then "" else Bracketed(msg.name), SourceText(msg.source);
    MillisLead(msg, name, source);
    if msg.source.line > 0 {
      SourceLayout(msg.source);
    }
  }

  lemma MillisLead(msg: LogMsg, name: string, source: string)
    requires msg.millis <= 999
    requires name == (if msg.name == "" then "" else Bracketed(msg.name)) && source == SourceText(msg.source)
    ensures NumberAt(FullTail(msg), 0, 3, msg.millis)
    ensures FullTail(msg)[3..] == "] " + name + "[" + msg.level + "] " + source + msg.payload
  {
    hide Pad3, SourceText, AllDigits, Value, NumberAt;
    Pad3Reads(msg.millis);
    var head, rest := Pad3(msg.millis), "] " + name + "[" + msg.level + "] " + source + msg.payload;
    assert FullTail(msg) == head + rest;
    hide FullTail, Bracketed;
    assert At(head + rest, 0, head);
    NumberIn(FullTail(msg), 0, head, msg.millis);
  }

  lemma SourceLayout(source: Source)
    requires source.line > 0
    ensures SourceAt(SourceText(source), source)
  {
    hide AllDigits, Value, NumberAt, Decimal, Source.Basename, Bracketed, At;
    DecimalValue(source.line);
    BracketsAndColon(source.Basename(), Decimal(source.line), source.line);
  }

  lemma BracketLayout(text: string, inner: string)
    requires text == Bracketed(inner)
    ensures |text| == |inner| + 3 && text[0] == '[' && At(text, 1, inner) && At(text, |inner| + 1, "] ")
  {
  }

  lemma ColonLayout(text: string, p: nat, base: string, digits: string)
    requires At(text, p, base + ":" + digits)
    ensures p + |base| < |text| && At(text, p, base) && text[p + |base|] == ':' && At(text, p + |base| + 1, digits)
  {
    hide At;
    AtConcat(text, p, base + ":", digits);
    AtConcat(text, p, base, ":");
    CharAt(text, p + |base|, ':');
  }

  lemma BracketsAndColon(base: string, digits: string, n: int)
    requires digits != "" && AllDigits(digits) && Value(digits) == n
    ensures var text, colon := Bracketed(base + ":" + digits), 1 + |base|;
            && |text| == |base| + |digits| + 4 && text[0] == '[' && At(text, 1, base)
            && text[colon] == ':' && NumberAt(text, colon + 1, |text| - 2, n) && At(text, |text| - 2, "] ")
  {
    hide AllDigits, Value, NumberAt, At, Bracketed;
    var text := Bracketed(base + ":" + digits);
    BracketLayout(text, base + ":" + digits);
    ColonLayout(text, 1, base, digits);
    NumberIn(text, |base| + 2, digits, n);
  }
}
