/**
 Patterns of texts and unpadded flags: what they write, and the one that spells out the default pattern.
 */
module SpelledPatterns {
  import opened LogFields
  import opened Calendar
  import opened Padding
  import opened ParseInt
  import opened PatternFormatter
  import opened PatternSyntax
  import opened Sequences
  import opened TimeCache

  /** Each flag after its text. */
  function Woven(texts: seq<string>, flags: string): seq<Token>
    requires |texts| == |flags|
  {
    if texts == [] then [] else [Chars(texts[0]), Flag(flags[0], NO_PADDING)] + Woven(texts[1..], flags[1..])
  }

  function WovenPattern(texts: seq<string>, flags: string): string
    requires |texts| == |flags|
  {
    if texts == [] then "" else texts[0] + ("%" + [flags[0]]) + WovenPattern(texts[1..], flags[1..])
  }

  function WovenText(env: Env, texts: seq<string>, flags: string, msg: LogMsg, tm: Tm): string
    requires |texts| == |flags|
  {
    if texts == [] then ""
    else texts[0] + FieldText(env, flags[0], msg, tm) + WovenText(env, texts[1..], flags[1..], msg, tm)
  }

  predicate IsFieldFlag(flag: char) {
    flag != '+' && (flag in TIME_FLAGS || flag in OTHER_FLAGS)
  }

  /** Texts that are texts, and flags that stand for fields. */
  predicate Weavable(texts: seq<string>, flags: string, custom: set<char>) {
    && |texts| == |flags|
    && (forall i :: 0 <= i < |texts| ==> IsText(texts[i]))
    && (forall i :: 0 <= i < |flags| ==> IsFieldFlag(flags[i]) && flags[i] !in custom)
  }

  lemma FieldFlag(flag: char)
    requires IsFieldFlag(flag)
    ensures !IsDigit(flag) && SideOf(flag) == Left && CanonicalFlag(flag, NO_PADDING)
  {
  }

  lemma WeavableTail(texts: seq<string>, flags: string, custom: set<char>)
    requires Weavable(texts, flags, custom) && texts != []
    ensures Weavable(texts[1..], flags[1..], custom)
  {
  }

  lemma {:induction false} WovenIsCanonical(texts: seq<string>, flags: string, custom: set<char>)
    requires Weavable(texts, flags, custom)
    ensures Canonical(Woven(texts, flags))
  {
    if texts != [] {
      FieldFlag(flags[0]);
      WeavableTail(texts, flags, custom);
      hide IsText, IsFieldFlag, CanonicalFlag, Canonical, SideOf, IsDigit;
      WovenIsCanonical(texts[1..], flags[1..], custom);
      var flag, rest := Flag(flags[0], NO_PADDING), Woven(texts[1..], flags[1..]);
    } else {
      assert Woven(texts, flags) == [];
    }
  }

  lemma JoinedStep(text: string, texts: seq<string>)
    ensures Joined([text] + texts) == text + Joined(texts)
  {
    assert ([text] + texts)[1..] == texts;
  }

  lemma {:induction false} WovenPrints(texts: seq<string>, flags: string, custom: set<char>)
    requires Weavable(texts, flags, custom)
    ensures Print(Woven(texts, flags)) == WovenPattern(texts, flags)
  {
    if texts != [] {
      hide Joined, IsText, IsFieldFlag;
      FieldFlag(flags[0]);
      WeavableTail(texts, flags, custom);
      WovenPrints(texts[1..], flags[1..], custom);
      var rest := Texts(Woven(texts[1..], flags[1..]));
      var flag := "%" + [flags[0]];
      assert PrintToken(Flag(flags[0], NO_PADDING)) == flag;
      assert Texts(Woven(texts, flags)) == [texts[0]] + ([flag] + rest);
      JoinedStep(texts[0], [flag] + rest);
      JoinedStep(flag, rest);
      Associates(texts[0], flag, Joined(rest));
    }
  }

  /** The parts of a token list from its front, instead of from its back. */
  lemma {:induction false} AllPartsConcat(a: seq<Token>, b: seq<Token>, custom: set<char>)
    ensures AllParts(a + b, custom) == AllParts(a, custom) + AllParts(b, custom)
    decreases |b|
  {
    hide PartsOf;
    if b == [] {
      assert a + b == a;
    } else {
      var last := |b| - 1;
      assert (a + b)[..|a| + last] == a + b[..last];
      AllPartsConcat(a, b[..last], custom);
    }
  }

  lemma WovenParts(text: string, flag: char, rest: seq<Token>, custom: set<char>)
    requires IsFieldFlag(flag) && flag !in custom
    ensures AllParts([Chars(text), Flag(flag, NO_PADDING)] + rest, custom)
         == [Raw(text), Field(flag, NO_PADDING)] + AllParts(rest, custom)
  {
    var pair := [Chars(text), Flag(flag, NO_PADDING)];
    AllPartsConcat(pair, rest, custom);
    assert PartsOf(pair[1], custom) == [Field(flag, NO_PADDING)] && PartsOf(pair[0], custom) == [Raw(text)];
    hide PartsOf;
    assert pair[..1][..0] == [];
    assert AllParts(pair[..1], custom) == AllParts([], custom) + PartsOf(pair[0], custom) == [Raw(text)];
    assert AllParts(pair, custom) == [Raw(text)] + [Field(flag, NO_PADDING)];
  }

  lemma NothingWoven(env: Env, before: string, custom: set<char>, msg: LogMsg, tm: Tm, date: Tm)
    ensures Rendered(env, before, AllParts(Woven([], ""), custom), msg, tm, date) == before
  {
  }

  lemma {:induction false} WovenRenders(env: Env, before: string, texts: seq<string>, flags: string, custom: set<char>,
                                       msg: LogMsg, tm: Tm, date: Tm)
    requires Weavable(texts, flags, custom)
    ensures Rendered(env, before, AllParts(Woven(texts, flags), custom), msg, tm, date)
         == before + WovenText(env, texts, flags, msg, tm)
    decreases |texts|
  {
    hide FieldText, IsText, IsFieldFlag, AllParts;
    if texts == [] {
      NothingWoven(env, before, custom, msg, tm, date);
    } else {
      hide Rendered;
      var rest := Woven(texts[1..], flags[1..]);
      var field := FieldText(env, flags[0], msg, tm);
      WovenParts(texts[0], flags[0], rest, custom);
      WeavableTail(texts, flags, custom);
      WovenRenders(env, before + texts[0] + field, texts[1..], flags[1..], custom, msg, tm, date);
      var tail := WovenText(env, texts[1..], flags[1..], msg, tm);
    }
  }

  /** A pattern of texts and plain flags writes just that: each text, and then what its flag stands for. */
  lemma WovenPatternMeans(env: Env, texts: seq<string>, flags: string, custom: set<char>, msg: LogMsg)
    requires Weavable(texts, flags, custom)
    ensures DirectOutput(env, PatternParts(WovenPattern(texts, flags), custom), msg)
         == WovenText(env, texts, flags, msg, env.getTime(msg.second))
  {
    hide Tokens, Print, Canonical, Rendered, Woven, WovenPattern, WovenText, IsText, IsFieldFlag;
    WovenIsCanonical(texts, flags, custom);
    WovenPrints(texts, flags, custom);
    PrintedCompiles(Woven(texts, flags));
    var tm := env.getTime(msg.second);
    WovenRenders(env, "", texts, flags, custom, msg, tm, tm);
    assert "" + WovenText(env, texts, flags, msg, tm) == WovenText(env, texts, flags, msg, tm);
  }

  // The default pattern spelled out.

  /** The spelled-out pattern, cut before its milliseconds. */
  const DATE_TEXTS := ["[", "-", "-", " ", ":", ":"]
  const DATE_FLAGS := "YmdHMS"
  const TAIL_TEXTS := [".", "] [", "] [", "] [", ":", "] "]
  const TAIL_FLAGS := "enls#v"

  lemma {:induction false} WovenTextConcat(env: Env, a: seq<string>, f: string, b: seq<string>, g: string, msg: LogMsg, tm: Tm)
    requires |a| == |f| && |b| == |g|
    ensures WovenText(env, a + b, f + g, msg, tm) == WovenText(env, a, f, msg, tm) + WovenText(env, b, g, msg, tm)
    decreases |a|
  {
    hide FieldText;
    if a == [] {
      assert a + b == b && f + g == g;
    } else {
      assert (a + b)[1..] == a[1..] + b && (f + g)[1..] == f[1..] + g;
      WovenTextConcat(env, a[1..], f[1..], b, g, msg, tm);
      Associates(a[0] + FieldText(env, f[0], msg, tm), WovenText(env, a[1..], f[1..], msg, tm), WovenText(env, b, g, msg, tm));
    }
  }

  lemma WovenAt(env: Env, t: seq<string>, f: string, i: nat, msg: LogMsg, tm: Tm)
    requires i < |t| == |f|
    ensures WovenText(env, t[i..], f[i..], msg, tm)
         == t[i] + FieldText(env, f[i], msg, tm) + WovenText(env, t[i + 1..], f[i + 1..], msg, tm)
  {
    hide FieldText;
    assert t[i..][1..] == t[i + 1..] && f[i..][1..] == f[i + 1..];
  }

  lemma WovenSix(env: Env, t: seq<string>, f: string, msg: LogMsg, tm: Tm)
    requires |t| == |f| == 6
    ensures WovenText(env, t, f, msg, tm) ==
      t[0] + FieldText(env, f[0], msg, tm) + (t[1] + FieldText(env, f[1], msg, tm) + (t[2] + FieldText(env, f[2], msg, tm)
      + (t[3] + FieldText(env, f[3], msg, tm) + (t[4] + FieldText(env, f[4], msg, tm) + (t[5] + FieldText(env, f[5], msg, tm))))))
  {
    hide FieldText;
    assert t[0..] == t && f[0..] == f && t[6..] == [] && f[6..] == "";
    assert WovenText(env, t[6..], f[6..], msg, tm) == "";
    hide WovenText;
    WovenAt(env, t, f, 0, msg, tm);
    WovenAt(env, t, f, 1, msg, tm);
    WovenAt(env, t, f, 2, msg, tm);
    WovenAt(env, t, f, 3, msg, tm);
    WovenAt(env, t, f, 4, msg, tm);
    WovenAt(env, t, f, 5, msg, tm);
  }

  // The same with the pieces of the full formatter.

  lemma BracketRegroups(s: string, rest: string)
    ensures "] [" + s + ("] " + rest) == "] " + (Bracketed(s) + rest)
  {
    assert "] [" == "] " + "[";
  }

  /** What follows the milliseconds. */
  lemma TailRegroups(name: string, level: string, base: string, line: string, payload: string)
    ensures "] [" + name + ("] [" + level + ("] [" + base + (":" + line + ("] " + payload))))
         == "] " + (Bracketed(name) + (Bracketed(level) + (Bracketed(base + ":" + line) + payload)))
  {
    hide Bracketed;
    assert "] [" + base + ":" + line == "] [" + (base + ":" + line);
    BracketRegroups(base + ":" + line, payload);
    BracketRegroups(level, Bracketed(base + ":" + line) + payload);
    BracketRegroups(name, Bracketed(level) + (Bracketed(base + ":" + line) + payload));
  }
  lemma WovenPatternAt(t: seq<string>, f: string, i: nat)
    requires i < |t| == |f|
    ensures WovenPattern(t[i..], f[i..]) == t[i] + ("%" + [f[i]]) + WovenPattern(t[i + 1..], f[i + 1..])
  {
    assert t[i..][1..] == t[i + 1..] && f[i..][1..] == f[i + 1..];
  }

  lemma WovenPatternSix(t: seq<string>, f: string)
    requires |t| == |f| == 6
    ensures WovenPattern(t, f) == t[0] + ("%" + [f[0]]) + (t[1] + ("%" + [f[1]]) + (t[2] + ("%" + [f[2]])
                                  + (t[3] + ("%" + [f[3]]) + (t[4] + ("%" + [f[4]]) + (t[5] + ("%" + [f[5]]))))))
  {
    assert t[0..] == t && f[0..] == f && t[6..] == [] && f[6..] == "";
    assert WovenPattern(t[6..], f[6..]) == "";
    hide WovenPattern;
    WovenPatternAt(t, f, 0);
    WovenPatternAt(t, f, 1);
    WovenPatternAt(t, f, 2);
    WovenPatternAt(t, f, 3);
    WovenPatternAt(t, f, 4);
    WovenPatternAt(t, f, 5);
  }

  lemma {:induction false} WovenPatternConcat(a: seq<string>, f: string, b: seq<string>, g: string)
    requires |a| == |f| && |b| == |g|
    ensures WovenPattern(a + b, f + g) == WovenPattern(a, f) + WovenPattern(b, g)
    decreases |a|
  {
    if a == [] {
      assert a + b == b && f + g == g;
    } else {
      assert (a + b)[1..] == a[1..] + b && (f + g)[1..] == f[1..] + g;
      WovenPatternConcat(a[1..], f[1..], b, g);
      Associates(a[0] + ("%" + [f[0]]), WovenPattern(a[1..], f[1..]), WovenPattern(b, g));
    }
  }

  lemma SpelledPattern()
    ensures WovenPattern(DATE_TEXTS + TAIL_TEXTS, DATE_FLAGS + TAIL_FLAGS) == SPELLED
  {
    hide WovenPattern;
    WovenPatternConcat(DATE_TEXTS, DATE_FLAGS, TAIL_TEXTS, TAIL_FLAGS);
    DatePattern();
    TailPattern();
  }

  lemma DatePattern()
    ensures WovenPattern(DATE_TEXTS, DATE_FLAGS) == "[%Y-%m-%d %H:%M:%S"
  {
    hide WovenPattern;
    WovenPatternSix(DATE_TEXTS, DATE_FLAGS);
  }

  lemma TailPattern()
    ensures WovenPattern(TAIL_TEXTS, TAIL_FLAGS) == ".%e] [%n] [%l] [%s:%#] %v"
  {
    hide WovenPattern;
    WovenPatternSix(TAIL_TEXTS, TAIL_FLAGS);
  }

  lemma SpelledWeaves()
    ensures Weavable(DATE_TEXTS + TAIL_TEXTS, DATE_FLAGS + TAIL_FLAGS, {})
  {
    assert forall i :: 0 <= i < 6 ==> IsText(DATE_TEXTS[i]) && IsText(TAIL_TEXTS[i]);
    assert forall i :: 0 <= i < 6 ==> IsFieldFlag(DATE_FLAGS[i]) && IsFieldFlag(TAIL_FLAGS[i]);
  }

  lemma DateFields(env: Env, msg: LogMsg, tm: Tm)
    ensures FieldText(env, 'Y', msg, tm) == AppendInt(tm.year + 1900)
    ensures FieldText(env, 'm', msg, tm) == Pad2(tm.mon + 1) && FieldText(env, 'd', msg, tm) == Pad2(tm.mday)
    ensures FieldText(env, 'H', msg, tm) == Pad2(tm.hour) && FieldText(env, 'M', msg, tm) == Pad2(tm.min)
    ensures FieldText(env, 'S', msg, tm) == Pad2(tm.sec)
  {
  }

  lemma TailFields(env: Env, msg: LogMsg, tm: Tm)
    ensures FieldText(env, 'e', msg, tm) == Pad3(msg.millis)
    ensures FieldText(env, 'n', msg, tm) == msg.name && FieldText(env, 'l', msg, tm) == msg.level
    ensures FieldText(env, 's', msg, tm) == if msg.source.Empty() then "" else msg.source.Basename()
    ensures FieldText(env, '#', msg, tm) == if msg.source.Empty() then "" else AppendInt(msg.source.line)
    ensures FieldText(env, 'v', msg, tm) == msg.payload
  {
  }

  lemma SpelledDate(env: Env, msg: LogMsg, tm: Tm, rest: string)
    ensures WovenText(env, DATE_TEXTS, DATE_FLAGS, msg, tm) + ("." + rest) == DateText(tm) + rest
  {
    hide FieldText, WovenText, Pad2, AppendInt;
    WovenSix(env, DATE_TEXTS, DATE_FLAGS, msg, tm);
    DateFields(env, msg, tm);
  }

  /** The fields behind the date; an unknown source has neither a name nor a line. */
  lemma SpelledTail(env: Env, msg: LogMsg, tm: Tm)
    ensures var base := if msg.source.Empty() then "" else msg.source.Basename();
            var line := if msg.source.Empty() then "" else AppendInt(msg.source.line);
            WovenText(env, TAIL_TEXTS, TAIL_FLAGS, msg, tm) ==
              "." + (Pad3(msg.millis) + ("] " + (Bracketed(msg.name) + (Bracketed(msg.level)
                                                 + (Bracketed(base + ":" + line) + msg.payload)))))
  {
    hide FieldText, WovenText, Pad3, AppendInt, Source.Basename, Bracketed;
    WovenSix(env, TAIL_TEXTS, TAIL_FLAGS, msg, tm);
    TailFields(env, msg, tm);
    var base := if msg.source.Empty() then "" else msg.source.Basename();
    var line := if msg.source.Empty() then "" else AppendInt(msg.source.line);
    TailRegroups(msg.name, msg.level, base, line, msg.payload);
    Associates(".", Pad3(msg.millis), "] " + (Bracketed(msg.name) + (Bracketed(msg.level)
                                              + (Bracketed(base + ":" + line) + msg.payload))));
  }

  lemma FullTailPieces(msg: LogMsg, name: string, source: string)
    requires name == (if msg.name == "" then "" else Bracketed(msg.name)) && source == SourceText(msg.source)
    ensures FullTail(msg) == Pad3(msg.millis) + ("] " + (name + (Bracketed(msg.level) + (source + msg.payload))))
  {
    hide Pad3, SourceText, Bracketed;
    Associates(Pad3(msg.millis) + "] " + name + Bracketed(msg.level), source, msg.payload);
    Associates(Pad3(msg.millis) + "] " + name, Bracketed(msg.level), source + msg.payload);
    Associates(Pad3(msg.millis) + "] ", name, Bracketed(msg.level) + (source + msg.payload));
    Associates(Pad3(msg.millis), "] ", name + (Bracketed(msg.level) + (source + msg.payload)));
  }

  const SPELLED := "[%Y-%m-%d %H:%M:%S.%e] [%n] [%l] [%s:%#] %v"

  lemma SpelledOutput(env: Env, msg: LogMsg)
    ensures DirectOutput(env, PatternParts(SPELLED, {}), msg)
         == WovenText(env, DATE_TEXTS + TAIL_TEXTS, DATE_FLAGS + TAIL_FLAGS, msg, env.getTime(msg.second))
  {
    hide DirectOutput, PatternParts, WovenText, Weavable;
    SpelledWeaves();
    SpelledPattern();
    WovenPatternMeans(env, DATE_TEXTS + TAIL_TEXTS, DATE_FLAGS + TAIL_FLAGS, {}, msg);
  }

  /**
   The default pattern writes what the documentation spells it out as, exactly for messages that have
   a logger name and a source: it leaves out the brackets of a part that is missing.
   */
  lemma DefaultIsSpelledIff(env: Env, msg: LogMsg)
    ensures DirectOutput(env, PatternParts("[%Y-%m-%d %H:%M:%S.%e] [%n] [%l] [%s:%#] %v", {}), msg)
              == DirectOutput(env, PatternParts("%+", {}), msg)
       <==> msg.name != "" && msg.source.line > 0
  {
    var tm := env.getTime(msg.second);
    SpelledOutput(env, msg);
    DefaultPattern();
    FullRenders(env, msg, tm, tm);
    hide PatternParts, Rendered, WovenText, DateText, FullTail, Pad3, AppendInt, Source.Basename;
    WovenTextConcat(env, DATE_TEXTS, DATE_FLAGS, TAIL_TEXTS, TAIL_FLAGS, msg, tm);
    SpelledTail(env, msg, tm);
    var base := if msg.source.Empty() then "" else msg.source.Basename();
    var line := if msg.source.Empty() then "" else AppendInt(msg.source.line);
    var name, source := if msg.name == "" then "" else Bracketed(msg.name), SourceText(msg.source);
    var rest := Pad3(msg.millis) + ("] " + (Bracketed(msg.name) + (Bracketed(msg.level)
                                            + (Bracketed(base + ":" + line) + msg.payload))));
    SpelledDate(env, msg, tm, rest);
    FullTailPieces(msg, name, source);
    assert "" + DateText(tm) == DateText(tm);
    assert |DateText(tm) + rest| == |DateText(tm)| + |rest|;
    assert |"" + DateText(tm) + FullTail(msg)| == |DateText(tm)| + |FullTail(msg)|;
  }

  // A flag alone.

  lemma OneFlag(flag: char, padding: PaddingInfo, custom: set<char>)
    requires CanonicalFlag(flag, padding)
    ensures PatternParts(PrintToken(Flag(flag, padding)), custom) == PartsOf(Flag(flag, padding), custom)
  {
    hide PartsOf, Tokens, PrintToken;
    var tokens := [Flag(flag, padding)];
    assert tokens[1..] == [] && Canonical(tokens);
    assert Texts(tokens) == [PrintToken(tokens[0])] + [];
    JoinedStep(PrintToken(tokens[0]), []);
    assert Joined([]) == "" && PrintToken(tokens[0]) + "" == PrintToken(tokens[0]);
    PrintedCompiles(tokens);
    assert tokens[..0] == [];
    assert AllParts(tokens, custom) == AllParts([], custom) + PartsOf(tokens[0], custom) == PartsOf(tokens[0], custom);
  }

  lemma RenderedOne(env: Env, text: string, part: Part, msg: LogMsg, tm: Tm, date: Tm)
    ensures Rendered(env, text, [part], msg, tm, date) == Written(env, text, part, DateText(date), msg, tm)
  {
    hide Written, DateText;
    assert [part][1..] == [];
  }

  lemma RenderedTwo(env: Env, first: Part, second: Part, msg: LogMsg, tm: Tm, date: Tm)
    ensures Rendered(env, "", [first, second], msg, tm, date)
         == Written(env, Written(env, "", first, DateText(date), msg, tm), second, DateText(date), msg, tm)
  {
    hide Written, DateText;
    assert [first, second][1..] == [second];
    RenderedOne(env, Written(env, "", first, DateText(date), msg, tm), second, msg, tm, date);
  }

  /** A flag of the user's own comes before the built-in one of that letter, and is handed its padding. */
  lemma CustomFlagFirst(env: Env, flag: char, padding: PaddingInfo, custom: set<char>, msg: LogMsg)
    requires CanonicalFlag(flag, padding) && flag in custom
    ensures DirectOutput(env, PatternParts(PrintToken(Flag(flag, padding)), custom), msg)
         == env.custom(flag, padding, "", msg, env.getTime(msg.second))
  {
    hide PatternParts, Rendered, PrintToken;
    var tm := env.getTime(msg.second);
    OneFlag(flag, padding, custom);
    RenderedOne(env, "", Custom(flag, padding), msg, tm, tm);
  }

  lemma MarkedParts(flag: char, padding: PaddingInfo)
    requires padding.truncate && !IsFieldFlag(flag) && flag != '+' && flag != '%' && flag != '^' && flag != '$'
    ensures PartsOf(Flag(flag, padding), {}) == [Field('!', padding.(truncate := false)), Raw([flag])]
  {
  }

  lemma FunctionField(env: Env, text: string, padding: PaddingInfo, date: string, msg: LogMsg, tm: Tm)
    requires padding.enabled
    ensures Written(env, text, Field('!', padding), date, msg, tm)
         == Padded(text, env.plain('!', msg), env.plainSize('!', msg), padding)
  {
    hide Padded;
  }

  /** A truncation mark before a letter that is no flag is the flag of the function name, and the letter stays. */
  lemma TruncationMarkIsFlag(env: Env, flag: char, padding: PaddingInfo, msg: LogMsg)
    requires CanonicalFlag(flag, padding) && padding.enabled && padding.truncate
    requires !IsFieldFlag(flag) && flag != '+' && flag != '%' && flag != '^' && flag != '$'
    ensures DirectOutput(env, PatternParts(PrintToken(Flag(flag, padding)), {}), msg)
         == Padded("", env.plain('!', msg), env.plainSize('!', msg), padding.(truncate := false)) + [flag]
  {
    hide PatternParts, Rendered, PrintToken, PartsOf, Padded, FieldText, FieldSize, IsFieldFlag;
    var tm, cut := env.getTime(msg.second), padding.(truncate := false);
    OneFlag(flag, padding, {});
    MarkedParts(flag, padding);
    FunctionField(env, "", cut, DateText(tm), msg, tm);
    RenderedTwo(env, Field('!', cut), Raw([flag]), msg, tm, tm);
  }

  lemma PercentPart()
    ensures PartsOf(Flag('%', NO_PADDING), {}) == [Raw("%")]
  {
  }

  lemma ColourPart(flag: char)
    requires flag == '^' || flag == '$'
    ensures PartsOf(Flag(flag, NO_PADDING), {}) == [Raw("")]
  {
  }

  /** "%%" is a percent sign, and the colour flags write nothing. */
  lemma PercentAndColours(env: Env, msg: LogMsg)
    ensures DirectOutput(env, PatternParts("%%", {}), msg) == "%"
    ensures DirectOutput(env, PatternParts("%^", {}), msg) == ""
    ensures DirectOutput(env, PatternParts("%$", {}), msg) == ""
  {
    hide DirectOutput, PatternParts, PartsOf;
    PercentPart();
    ColourPart('^');
    ColourPart('$');
    RawFlag(env, '%', "%", msg);
    RawFlag(env, '^', "", msg);
    RawFlag(env, '$', "", msg);
    assert "%" + ['%'] == "%%" && "%" + ['^'] == "%^" && "%" + ['$'] == "%$";
  }

  /** A flag that stands for nothing appears as it is. */
  lemma UnknownFlag(env: Env, flag: char, msg: LogMsg)
    requires !IsFieldFlag(flag) && flag != '+' && flag != '%' && flag != '^' && flag != '$'
    requires !IsDigit(flag) && flag != '-' && flag != '='
    ensures DirectOutput(env, PatternParts("%" + [flag], {}), msg) == "%" + [flag]
  {
    assert SideOf(flag) == Left && PartsOf(Flag(flag, NO_PADDING), {}) == [Raw(['%', flag])];
    hide DirectOutput, PatternParts, PartsOf;
    RawFlag(env, flag, ['%', flag], msg);
    assert ['%', flag] == "%" + [flag];
  }

  lemma RawFlag(env: Env, flag: char, text: string, msg: LogMsg)
    requires !IsDigit(flag) && SideOf(flag) == Left && PartsOf(Flag(flag, NO_PADDING), {}) == [Raw(text)]
    ensures DirectOutput(env, PatternParts("%" + [flag], {}), msg) == text
  {
    hide PatternParts, Rendered, PartsOf;
    var tm := env.getTime(msg.second);
    assert PrintToken(Flag(flag, NO_PADDING)) == "%" + [flag] by {
      assert PrintPadding(flag, NO_PADDING) == "";
      assert "%" + "" + [flag] == "%" + [flag];
    }
    OneFlag(flag, NO_PADDING, {});
    RenderedOne(env, "", Raw(text), msg, tm, tm);
    assert "" + text == text;
  }
}
