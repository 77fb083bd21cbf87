/**
 The pattern formatter: a list of flag formatters fed with a broken-down time that is recomputed
 only when the second changes; the full formatter (`%+`) keeps its date text on the same terms.
 */
module PatternFormatter {

  import opened Calendar
  import opened LogFields
  import opened Padding
  import opened PatternSyntax

  const ZERO_TM := Tm(0, 0, 0, 0, 0, 0, 0, 0)

  const TIME_FLAGS := "+aAbhBcCYDxmdHIMSprRTXz"
  const OTHER_FLAGS := "nlLtvefFEP@sg#!uioO&"
  const COLOR_FLAGS := "^$"

  datatype Part =
    | Raw(text: string)
    | Field(flag: char, padding: PaddingInfo)
    | Full
    | Custom(flag: char, padding: PaddingInfo)

  /** handle_flag_; custom flags come first, and do not ask for the time. */
  function PartsOf(t: Token, custom: set<char>): seq<Part> {
    match t
    case Chars(text) => [Raw(text)]
    case Flag(flag, padding) =>
      if flag in custom then [Custom(flag, padding)]
      else if flag == '+' then [Full]
      else if flag in TIME_FLAGS || flag in OTHER_FLAGS then [Field(flag, padding)]
      else if flag in COLOR_FLAGS then [Raw("")]
      else if flag == '%' then [Raw("%")]
      else if !padding.truncate then [Raw(['%', flag])]
      else [Field('!', padding.(truncate := false)), Raw([flag])]
  }

  function AllParts(tokens: seq<Token>, custom: set<char>): seq<Part> {
    if tokens == [] then [] else AllParts(tokens[..|tokens| - 1], custom) + PartsOf(tokens[|tokens| - 1], custom)
  }

  predicate UsesTime(part: Part) {
    part.Full? || (part.Field? && part.flag in TIME_FLAGS)
  }

  predicate Timed(parts: seq<Part>) {
    exists i :: 0 <= i < |parts| && UsesTime(parts[i])
  }

  function PatternParts(pattern: string, custom: set<char>): seq<Part> {
    AllParts(Tokens(pattern), custom)
  }

  // The caches, on values.

  datatype DateCache = DateCache(timestamp: nat, text: string)

  const NO_DATE := DateCache(0, "")

  function Cached(c: DateCache, second: nat, tm: Tm): DateCache {
    if c.timestamp != second || c.text == "" then DateCache(second, DateText(tm)) else c
  }

  /** What one formatter makes of the buffer. */
  function Written(env: Env, text: string, part: Part, date: string, msg: LogMsg, tm: Tm): string {
    match part
    case Raw(t) => text + t
    case Field(flag, padding) =>
      var body := FieldText(env, flag, msg, tm);
      if padding.enabled then Padded(text, body, FieldSize(env, flag, msg, tm), padding) else text + body
    case Full => text + date + FullTail(msg)
    case Custom(flag, padding) => env.custom(flag, padding, text, msg, tm)
  }

  /** The plain meaning of a list of formatters, given the time that fields show and the one full dates show. */
  function Rendered(env: Env, text: string, parts: seq<Part>, msg: LogMsg, tm: Tm, date: Tm): string
    decreases |parts|
  {
    if parts == [] then text
    else Rendered(env, Written(env, text, parts[0], DateText(date), msg, tm), parts[1..], msg, tm, date)
  }

  function RenderedCached(env: Env, text: string, parts: seq<Part>, caches: seq<DateCache>, msg: LogMsg, tm: Tm): string
    requires |parts| == |caches|
    decreases |parts|
  {
    if parts == [] then text
    else
      var date := Cached(caches[0], msg.second, tm).text;
      RenderedCached(env, Written(env, text, parts[0], date, msg, tm), parts[1..], caches[1..], msg, tm)
  }

  datatype State = State(
    tm: Tm,
    lastSecond: nat,
    needLocaltime: bool,
    custom: set<char>,
    parts: seq<Part>,
    caches: seq<DateCache>)
  {
    predicate Valid() {
      |parts| == |caches|
    }
  }

  function NoCaches(n: nat): seq<DateCache> {
    seq(n, _ => NO_DATE)
  }

  function Initial(pattern: string, custom: set<char>): State {
    WithPattern(State(ZERO_TM, 0, false, custom, [], []), pattern)
  }

  /** Without a pattern there is a full formatter. */
  const DEFAULT_STATE := State(ZERO_TM, 0, true, {}, [Full], [NO_DATE])

  function WithPattern(st: State, pattern: string): State {
    var parts := PatternParts(pattern, st.custom);
    st.(needLocaltime := Timed(parts), parts := parts, caches := NoCaches(|parts|))
  }

  function Refreshed(env: Env, st: State, msg: LogMsg): State {
    if st.needLocaltime && msg.second != st.lastSecond then
      st.(tm := env.getTime(msg.second), lastSecond := msg.second)
    else st
  }

  function NewCaches(parts: seq<Part>, caches: seq<DateCache>, second: nat, tm: Tm): (r: seq<DateCache>)
    requires |parts| == |caches|
  {
    seq(|parts|, i requires 0 <= i < |parts| =>
      if parts[i].Full? then Cached(caches[i], second, tm) else caches[i])
  }

  function AfterFormat(env: Env, st: State, msg: LogMsg): (r: State)
    requires st.Valid()
    ensures r.Valid()
  {
    var now := Refreshed(env, st, msg);
    now.(caches := NewCaches(st.parts, st.caches, msg.second, now.tm))
  }

  function FormatOutput(env: Env, st: State, text: string, msg: LogMsg): string
    requires st.Valid()
  {
    RenderedCached(env, text, st.parts, st.caches, msg, Refreshed(env, st, msg).tm)
  }

  // The classes.

  class FlagFormatter {
    const part: Part
    var cacheTimestamp: nat
    var cachedDatetime: string

    constructor (part: Part)
      ensures this.part == part && Cache() == NO_DATE
    {
      this.part := part;
      cacheTimestamp, cachedDatetime := 0, "";
    }

    function Cache(): DateCache
      reads this
    {
      DateCache(cacheTimestamp, cachedDatetime)
    }

    method Format(env: Env, msg: LogMsg, tm: Tm, dest: MemoryBuf)
      requires part.Field? ==> part.padding.width <= MAX_WIDTH
      modifies this, dest
      ensures Cache() == if part.Full? then Cached(old(Cache()), msg.second, tm) else old(Cache())
      ensures dest.text == Written(env, old(dest.text), part, Cached(old(Cache()), msg.second, tm).text, msg, tm)
    {
      match part {
        case Raw(text) =>
          dest.text := dest.text + text;
        case Field(flag, padding) =>
          var body := FieldText(env, flag, msg, tm);
          if padding.enabled {
            WriteField(body, FieldSize(env, flag, msg, tm), padding, dest);
          } else {
            dest.text := dest.text + body;
          }
        case Full =>
          if cacheTimestamp != msg.second || |cachedDatetime| == 0 {
            cachedDatetime := DateText(tm);
            cacheTimestamp := msg.second;
          }
          dest.text := dest.text + cachedDatetime;
          dest.text := dest.text + FullTail(msg);
        case Custom(flag, padding) =>
          dest.text := env.custom(flag, padding, dest.text, msg, tm);
      }
    }
  }

  predicate PaddingsFit(parts: seq<Part>) {
    forall i :: 0 <= i < |parts| && parts[i].Field? ==> parts[i].padding.width <= MAX_WIDTH
  }

  class PatternFormatter {
    const env: Env
    const eol: string
    var needLocaltime: bool
    var cachedTm: Tm
    var lastLogSecs: nat
    var customHandlers: set<char>
    var formatters: seq<FlagFormatter>

    ghost predicate Valid()
      reads this`formatters
    {
      && (forall i, j :: 0 <= i < j < |formatters| ==> formatters[i] != formatters[j])
      && PaddingsFit(Parts())
    }

    function Parts(): seq<Part>
      reads this`formatters
    {
      var fs := formatters;
      seq(|fs|, i requires 0 <= i < |fs| => fs[i].part)
    }

    ghost function Caches(): (r: seq<DateCache>)
      reads this`formatters, formatters
      ensures |r| == |formatters|
    {
      var fs := formatters;
      seq(|fs|, i requires 0 <= i < |fs| reads fs => fs[i].Cache())
    }

    ghost function Abstract(): (st: State)
      reads this, formatters
      ensures st.Valid()
    {
      State(cachedTm, lastLogSecs, needLocaltime, customHandlers, Parts(), Caches())
    }

    constructor (env: Env, pattern: string, eol: string, customFlags: set<char>)
      ensures Valid() && fresh(formatters) && this.env == env && this.eol == eol
      ensures Abstract() == Initial(pattern, customFlags)
    {
      this.env, this.eol := env, eol;
      needLocaltime, cachedTm, lastLogSecs, formatters, customHandlers := false, ZERO_TM, 0, [], customFlags;
      new;
      SetPattern(pattern);
    }

    /** The constructor without a pattern. */
    constructor Default(env: Env, eol: string)
      ensures Valid() && fresh(formatters) && this.env == env && this.eol == eol
      ensures Abstract() == DEFAULT_STATE
    {
      this.env, this.eol := env, eol;
      needLocaltime, cachedTm, lastLogSecs, customHandlers := true, ZERO_TM, 0, {};
      var full := new FlagFormatter(Full);
      formatters := [full];
      new;
      assert Parts() == [Full] && Caches() == [NO_DATE];
    }

    method SetPattern(pattern: string)
      modifies this`needLocaltime, this`formatters
      ensures Valid() && fresh(formatters)
      ensures Abstract() == WithPattern(old(Abstract()), pattern)
    {
      hide PartsOf, Tokens;
      needLocaltime := false;
      formatters := [];
      var tokens := CompilePattern(pattern);
      CompiledPaddings(pattern);
      var i := 0;
      while i < |tokens|
        invariant i <= |tokens| && Valid() && fresh(formatters)
        invariant Parts() == AllParts(tokens[..i], customHandlers) && Caches() == NoCaches(|formatters|)
        invariant needLocaltime == Timed(Parts())
      {
        assert tokens[..i + 1][..i] == tokens[..i];
        HandleFlag(tokens[i]);
        i := i + 1;
      }
      assert tokens[..i] == tokens;
    }

    /** Pushes what a token stands for. */
    method HandleFlag(t: Token)
      requires Valid() && (t.Flag? ==> t.padding.width <= MAX_WIDTH)
      modifies this`needLocaltime, this`formatters
      ensures Valid() && fresh(set f | f in formatters && f !in old(formatters))
      ensures Parts() == old(Parts()) + PartsOf(t, customHandlers)
      ensures Caches() == old(Caches()) + NoCaches(|PartsOf(t, customHandlers)|)
      ensures old(needLocaltime) == Timed(old(Parts())) ==> needLocaltime == Timed(Parts())
    {
      hide UsesTime, Timed;
      PaddingsOfParts(t, customHandlers);
      var parts := PartsOf(t, customHandlers);
      hide PartsOf;
      assert Parts() == old(Parts()) + parts[..0] && Caches() == old(Caches()) + NoCaches(0);
      for k := 0 to |parts|
        invariant Valid() && fresh(set f | f in formatters && f !in old(formatters))
        invariant Parts() == old(Parts()) + parts[..k] && Caches() == old(Caches()) + NoCaches(k)
        invariant old(needLocaltime) == Timed(old(Parts())) ==> needLocaltime == Timed(Parts())
      {
        TimedPush(Parts(), parts[k]);
        PushBack(parts[k]);
        assert parts[..k + 1] == parts[..k] + [parts[k]];
        assert NoCaches(k + 1) == NoCaches(k) + [NO_DATE];
      }
      assert parts[..|parts|] == parts;
    }

    /** formatters_.push_back, and need_localtime_ for the flags that use the time. */
    method PushBack(part: Part)
      requires Valid() && (part.Field? ==> part.padding.width <= MAX_WIDTH)
      modifies this`needLocaltime, this`formatters
      ensures Valid() && Parts() == old(Parts()) + [part] && Caches() == old(Caches()) + [NO_DATE]
      ensures |formatters| == |old(formatters)| + 1 && old(formatters) == formatters[..|old(formatters)|]
      ensures fresh(formatters[|old(formatters)|])
      ensures needLocaltime == (old(needLocaltime) || UsesTime(part))
    {
      var f := new FlagFormatter(part);
      assert f !in formatters;
      formatters := formatters + [f];
      if UsesTime(part) {
        needLocaltime := true;
      }
      assert Parts() == old(Parts()) + [part];
      assert Caches() == old(Caches()) + [NO_DATE];
    }

    /** A custom flag is looked up the next time a pattern is compiled. */
    method AddFlag(flag: char)
      modifies this`customHandlers
      ensures Abstract() == old(Abstract()).(custom := old(customHandlers) + {flag})
    {
      customHandlers := customHandlers + {flag};
    }

    method NeedLocaltime(need: bool)
      modifies this`needLocaltime
      ensures Abstract() == old(Abstract()).(needLocaltime := need)
    {
      needLocaltime := need;
    }

    method Format(msg: LogMsg, dest: MemoryBuf)
      requires Valid()
      modifies this`cachedTm, this`lastLogSecs, formatters, dest
      ensures Valid() && Abstract() == AfterFormat(env, old(Abstract()), msg)
      ensures dest.text == FormatOutput(env, old(Abstract()), old(dest.text), msg) + eol
    {
      if needLocaltime && msg.second != lastLogSecs {
        cachedTm := env.getTime(msg.second);
        lastLogSecs := msg.second;
      }
      assert Caches() == old(Caches());
      RunFormatters(msg, dest);
      dest.text := dest.text + eol;
    }

    method RunFormatters(msg: LogMsg, dest: MemoryBuf)
      requires Valid()
      modifies formatters, dest
      ensures Valid() && Caches() == NewCaches(Parts(), old(Caches()), msg.second, cachedTm)
      ensures dest.text == RenderedCached(env, old(dest.text), Parts(), old(Caches()), msg, cachedTm)
    {
      hide Written, RenderedCached, Cached;
      ghost var parts, before, after := Parts(), Caches(), NewCaches(Parts(), Caches(), msg.second, cachedTm);
      var i := 0;
      while i < |formatters|
        invariant i <= |formatters|
        invariant forall k :: 0 <= k < i ==> formatters[k].Cache() == after[k]
        invariant forall k :: i <= k < |formatters| ==> formatters[k].Cache() == before[k]
        invariant RenderedCached(env, dest.text, parts[i..], before[i..], msg, cachedTm)
               == RenderedCached(env, old(dest.text), parts, before, msg, cachedTm)
      {
        RenderedStep(env, dest.text, parts, before, i, msg, cachedTm);
        formatters[i].Format(env, msg, cachedTm, dest);
        i := i + 1;
      }
      assert Caches() == after;
      assert parts[i..] == [] && before[i..] == [];
      RenderedNothing(env, dest.text, msg, cachedTm);
    }
  }

  lemma RenderedNothing(env: Env, text: string, msg: LogMsg, tm: Tm)
    ensures RenderedCached(env, text, [], [], msg, tm) == text
  {
  }

  lemma RenderedStep(env: Env, text: string, parts: seq<Part>, caches: seq<DateCache>, i: nat, msg: LogMsg, tm: Tm)
    requires |parts| == |caches| && i < |parts|
    ensures RenderedCached(env, text, parts[i..], caches[i..], msg, tm)
         == RenderedCached(env, Written(env, text, parts[i], Cached(caches[i], msg.second, tm).text, msg, tm),
                           parts[i + 1..], caches[i + 1..], msg, tm)
  {
    assert parts[i..][1..] == parts[i + 1..] && caches[i..][1..] == caches[i + 1..];
  }

  lemma PaddingsOfParts(t: Token, custom: set<char>)
    requires t.Flag? ==> t.padding.width <= MAX_WIDTH
    ensures PaddingsFit(PartsOf(t, custom))
  {
  }

  lemma TimedPush(parts: seq<Part>, part: Part)
    ensures Timed(parts + [part]) <==> Timed(parts) || UsesTime(part)
  {
    if Timed(parts) {
      var i :| 0 <= i < |parts| && UsesTime(parts[i]);
      assert UsesTime((parts + [part])[i]);
    }
    assert (parts + [part])[|parts|] == part;
  }

  lemma DefaultPattern()
    ensures PatternParts("%+", {}) == [Full]
  {
    assert PadSpecAt("%+", 1) == PadSpec(NO_PADDING, 1);
    var tokens := Tokens("%+");
    assert tokens == Pending("") + ([Flag('+', NO_PADDING)] + TokensFrom("%+", 2, ""));
    assert tokens == [Flag('+', NO_PADDING)];
    assert AllParts(tokens, {}) == AllParts([], {}) + [Full];
  }

  /** That is what the pattern "%+" gives. */
  lemma InitialDefault()
    ensures Initial("%+", {}) == DEFAULT_STATE
  {
    hide PatternParts;
    DefaultPattern();
    assert UsesTime([Full][0]);
    assert NoCaches(1) == [NO_DATE];
  }

  lemma CompiledPaddings(pattern: string)
    ensures forall i :: 0 <= i < |Tokens(pattern)| && Tokens(pattern)[i].Flag? ==> Tokens(pattern)[i].padding.width <= MAX_WIDTH
  {
    CompiledIsCanonical(pattern, 0, "");
    forall i | 0 <= i < |Tokens(pattern)|
      ensures CanonicalToken(Tokens(pattern)[i])
    {
      CanonicalAt(Tokens(pattern), i);
    }
  }
}
