/**
 What the time caches of the pattern formatter do to its output, over any run of messages, pattern
 changes and other calls.
 */
module TimeCache {

  import opened Calendar
  import opened FileNames
  import opened LogFields
  import opened Options
  import opened PatternFormatter

  datatype Op = FormatOp(msg: LogMsg) | SetPatternOp(pattern: string) | NeedLocaltimeOp(need: bool) | AddFlagOp(flag: char)

  function Apply(env: Env, st: State, op: Op): (r: State)
    requires st.Valid()
    ensures r.Valid()
  {
    match op
    case FormatOp(msg) => AfterFormat(env, st, msg)
    case SetPatternOp(pattern) => WithPattern(st, pattern)
    case NeedLocaltimeOp(need) => st.(needLocaltime := need)
    case AddFlagOp(flag) => st.(custom := st.custom + {flag})
  }

  function AfterRun(env: Env, st: State, ops: seq<Op>): (r: State)
    requires st.Valid()
    ensures r.Valid()
    decreases |ops|
  {
    if ops == [] then st else AfterRun(env, Apply(env, st, ops[0]), ops[1..])
  }

  /** The text of each message of a run, each formatted into an empty buffer. */
  function Outputs(env: Env, st: State, ops: seq<Op>): seq<string>
    requires st.Valid()
    decreases |ops|
  {
    if ops == [] then []
    else
      (if ops[0].FormatOp? then [FormatOutput(env, st, "", ops[0].msg)] else []) +
      Outputs(env, Apply(env, st, ops[0]), ops[1..])
  }

  // One history in place of the caches.

  datatype Shown = Shown(second: nat, tm: Tm)

  /**
   What the outputs depend on. The formatter is warm once it has seen, while computing times, a second
   other than 0. `shown` is the time its last message showed; `streak` is the second of the current
   series of messages since the pattern was set, with the date that the first of the series showed.
   */
  datatype Plain = Plain(
    parts: seq<Part>,
    custom: set<char>,
    needLocaltime: bool,
    warm: bool,
    shown: Tm,
    streak: Option<Shown>)

  function PlainInitial(pattern: string, custom: set<char>): Plain {
    var parts := PatternParts(pattern, custom);
    Plain(parts, custom, Timed(parts), false, ZERO_TM, None)
  }

  function HandedTime(env: Env, warm: bool, second: nat): Tm {
    if warm || second != 0 then env.getTime(second) else ZERO_TM
  }

  /** The time that the fields of a message show: its own, while times are computed, and else the last one. */
  function ShownTime(env: Env, p: Plain, second: nat): Tm {
    if p.needLocaltime then HandedTime(env, p.warm, second) else p.shown
  }

  /** The date that %+ shows: that of the first of a series of messages of one second. */
  function ShownDate(env: Env, p: Plain, second: nat): Tm {
    if p.streak.Some? && p.streak.value.second == second then p.streak.value.tm else ShownTime(env, p, second)
  }

  function PlainApply(env: Env, p: Plain, op: Op): Plain {
    match op
    case FormatOp(msg) =>
      p.(warm := p.warm || (p.needLocaltime && msg.second != 0),
         shown := ShownTime(env, p, msg.second),
         streak := Some(Shown(msg.second, ShownDate(env, p, msg.second))))
    case SetPatternOp(pattern) =>
      var parts := PatternParts(pattern, p.custom);
      p.(parts := parts, needLocaltime := Timed(parts), streak := None)
    case NeedLocaltimeOp(need) => p.(needLocaltime := need)
    case AddFlagOp(flag) => p.(custom := p.custom + {flag})
  }

  function PlainRun(env: Env, p: Plain, ops: seq<Op>): Plain
    decreases |ops|
  {
    if ops == [] then p else PlainRun(env, PlainApply(env, p, ops[0]), ops[1..])
  }

  function PlainOutput(env: Env, p: Plain, msg: LogMsg): string {
    Rendered(env, "", p.parts, msg, ShownTime(env, p, msg.second), ShownDate(env, p, msg.second))
  }

  function PlainOutputs(env: Env, p: Plain, ops: seq<Op>): seq<string>
    decreases |ops|
  {
    if ops == [] then []
    else
      (match ops[0]
       case FormatOp(msg) => [PlainOutput(env, p, msg)]
       case _ => []) +
      PlainOutputs(env, PlainApply(env, p, ops[0]), ops[1..])
  }

  // The caches do the same.

  predicate CacheTracks(c: DateCache, streak: Option<Shown>) {
    match streak
    case None => c.text == ""
    case Some(shown) => c == DateCache(shown.second, DateText(shown.tm))
  }

  ghost predicate Tracks(env: Env, st: State, p: Plain) {
    && st.Valid() && st.parts == p.parts && st.needLocaltime == p.needLocaltime && st.custom == p.custom
    && st.tm == p.shown
    && (if p.warm then st.tm == env.getTime(st.lastSecond) else st.tm == ZERO_TM && st.lastSecond == 0)
    && forall i :: 0 <= i < |st.parts| && st.parts[i].Full? ==> CacheTracks(st.caches[i], p.streak)
  }

  lemma {:induction false} CachedRender(env: Env, text: string, parts: seq<Part>, caches: seq<DateCache>,
                                        msg: LogMsg, tm: Tm, date: Tm)
    requires |parts| == |caches|
    requires forall i :: 0 <= i < |parts| && parts[i].Full? ==> Cached(caches[i], msg.second, tm).text == DateText(date)
    ensures RenderedCached(env, text, parts, caches, msg, tm) == Rendered(env, text, parts, msg, tm, date)
    decreases |parts|
  {
    if parts != [] {
      CachedRender(env, Written(env, text, parts[0], DateText(date), msg, tm), parts[1..], caches[1..], msg, tm, date);
    }
  }

  lemma FormatIsPlain(env: Env, st: State, p: Plain, msg: LogMsg)
    requires Tracks(env, st, p)
    ensures FormatOutput(env, st, "", msg) == PlainOutput(env, p, msg)
  {
    CachedRender(env, "", st.parts, st.caches, msg, ShownTime(env, p, msg.second), ShownDate(env, p, msg.second));
  }

  lemma OpTracks(env: Env, st: State, p: Plain, op: Op)
    requires Tracks(env, st, p)
    ensures Tracks(env, Apply(env, st, op), PlainApply(env, p, op))
  {
  }

  /** In every run all the caches of the formatter come down to that one history. */
  lemma {:induction false} CachesAreTransparent(env: Env, st: State, p: Plain, ops: seq<Op>)
    requires st.Valid() && Tracks(env, st, p)
    ensures Outputs(env, st, ops) == PlainOutputs(env, p, ops)
    ensures Tracks(env, AfterRun(env, st, ops), PlainRun(env, p, ops))
    decreases |ops|
  {
    hide Tracks, FormatOutput, PlainOutput, PlainApply, Apply;
    if ops != [] {
      if ops[0].FormatOp? {
        FormatIsPlain(env, st, p, ops[0].msg);
      }
      OpTracks(env, st, p, ops[0]);
      CachesAreTransparent(env, Apply(env, st, ops[0]), PlainApply(env, p, ops[0]), ops[1..]);
    }
  }

  lemma RunIsPlain(env: Env, pattern: string, custom: set<char>, ops: seq<Op>)
    ensures Outputs(env, Initial(pattern, custom), ops) == PlainOutputs(env, PlainInitial(pattern, custom), ops)
    ensures Tracks(env, AfterRun(env, Initial(pattern, custom), ops), PlainRun(env, PlainInitial(pattern, custom), ops))
  {
    assert Tracks(env, Initial(pattern, custom), PlainInitial(pattern, custom));
    CachesAreTransparent(env, Initial(pattern, custom), PlainInitial(pattern, custom), ops);
  }

  // Against recomputing every time.

  function DirectOutput(env: Env, parts: seq<Part>, msg: LogMsg): string {
    Rendered(env, "", parts, msg, env.getTime(msg.second), env.getTime(msg.second))
  }

  function Direct(env: Env, parts: seq<Part>, msgs: seq<LogMsg>): seq<string> {
    seq(|msgs|, i requires 0 <= i < |msgs| => DirectOutput(env, parts, msgs[i]))
  }

  function Formats(msgs: seq<LogMsg>): seq<Op> {
    seq(|msgs|, i requires 0 <= i < |msgs| => FormatOp(msgs[i]))
  }

  lemma FormatsTail(msgs: seq<LogMsg>)
    requires msgs != []
    ensures Formats(msgs)[0] == FormatOp(msgs[0]) && Formats(msgs)[1..] == Formats(msgs[1..])
  {
  }

  /** If a message of this second is next, its date will be its own. */
  predicate DateFits(env: Env, p: Plain, second: nat) {
    ShownDate(env, p, second) == env.getTime(second)
  }

  lemma {:induction false} FittingIsDirect(env: Env, p: Plain, msgs: seq<LogMsg>)
    requires p.needLocaltime
    requires msgs != [] ==> (p.warm || msgs[0].second != 0) && DateFits(env, p, msgs[0].second)
    ensures PlainOutputs(env, p, Formats(msgs)) == Direct(env, p.parts, msgs)
    decreases |msgs|
  {
    hide Rendered;
    if msgs != [] {
      FormatsTail(msgs);
      FittingIsDirect(env, PlainApply(env, p, FormatOp(msgs[0])), msgs[1..]);
    }
  }

  /** How many messages at the start are of a given second. */
  function Leading(msgs: seq<LogMsg>, second: nat): (n: nat)
    ensures n <= |msgs| && forall i :: 0 <= i < n ==> msgs[i].second == second
  {
    if msgs == [] || msgs[0].second != second then 0 else 1 + Leading(msgs[1..], second)
  }

  /** These messages show the given time and date as if they were their own. */
  ghost predicate ShowSame(env: Env, parts: seq<Part>, msgs: seq<LogMsg>, tm: Tm, date: Tm) {
    forall i :: 0 <= i < |msgs| ==> Rendered(env, "", parts, msgs[i], tm, date) == DirectOutput(env, parts, msgs[i])
  }

  lemma ShowSameTail(env: Env, parts: seq<Part>, msgs: seq<LogMsg>, n: nat, tm: Tm, date: Tm)
    requires 0 < n <= |msgs|
    ensures ShowSame(env, parts, msgs[..n], tm, date)
       <==> Rendered(env, "", parts, msgs[0], tm, date) == DirectOutput(env, parts, msgs[0])
            && ShowSame(env, parts, msgs[1..][..n - 1], tm, date)
  {
    hide Rendered, DirectOutput;
    assert msgs[..n] == [msgs[0]] + msgs[1..][..n - 1];
  }

  /** The messages of a second agree on what they show; whatever comes after them is right. */
  lemma {:induction false} LeadingDecides(env: Env, p: Plain, msgs: seq<LogMsg>, second: nat)
    requires p.needLocaltime
    requires msgs == [] || msgs[0].second == second
             || ((p.warm || msgs[0].second != 0) && DateFits(env, p, msgs[0].second))
    ensures PlainOutputs(env, p, Formats(msgs)) == Direct(env, p.parts, msgs)
       <==> ShowSame(env, p.parts, msgs[..Leading(msgs, second)], ShownTime(env, p, second), ShownDate(env, p, second))
    decreases |msgs|
  {
    hide Rendered, DirectOutput;
    if msgs == [] || msgs[0].second != second {
      FittingIsDirect(env, p, msgs);
    } else {
      var after := PlainApply(env, p, FormatOp(msgs[0]));
      FormatsTail(msgs);
      ShowSameTail(env, p.parts, msgs, Leading(msgs, second), ShownTime(env, p, second), ShownDate(env, p, second));
      LeadingDecides(env, after, msgs[1..], second);
      HeadsAndTails(PlainOutput(env, p, msgs[0]), PlainOutputs(env, after, Formats(msgs[1..])),
                    DirectOutput(env, p.parts, msgs[0]), Direct(env, p.parts, msgs[1..]));
    }
  }

  lemma HeadsAndTails(a: string, x: seq<string>, b: string, y: seq<string>)
    ensures [a] + x == [b] + y <==> a == b && x == y
  {
    if [a] + x == [b] + y {
      assert a == ([a] + x)[0] && b == ([b] + y)[0];
      assert x == ([a] + x)[1..] && y == ([b] + y)[1..];
    }
  }

  /**
   After any run of any calls, while times are computed: the messages that follow are all formatted as
   if their times were computed for them, exactly if those up to the first change of the second
   show the time and the date that they are given as they would show their own.
   */
  lemma RunIsDirectIff(env: Env, pattern: string, custom: set<char>, before: seq<Op>, msgs: seq<LogMsg>)
    requires PlainRun(env, PlainInitial(pattern, custom), before).needLocaltime && msgs != []
    ensures var st, p := AfterRun(env, Initial(pattern, custom), before), PlainRun(env, PlainInitial(pattern, custom), before);
            var second := msgs[0].second;
            Outputs(env, st, Formats(msgs)) == Direct(env, st.parts, msgs)
            <==> ShowSame(env, st.parts, msgs[..Leading(msgs, second)], ShownTime(env, p, second), ShownDate(env, p, second))
  {
    hide ShowSame, Direct;
    var p, st := PlainRun(env, PlainInitial(pattern, custom), before), AfterRun(env, Initial(pattern, custom), before);
    RunIsPlain(env, pattern, custom, before);
    CachesAreTransparent(env, st, p, Formats(msgs));
    LeadingDecides(env, p, msgs, msgs[0].second);
  }

  predicate HasFull(parts: seq<Part>) {
    exists i :: 0 <= i < |parts| && parts[i].Full?
  }

  lemma {:induction false} DateDoesNotShow(env: Env, text: string, parts: seq<Part>, msg: LogMsg, tm: Tm, date: Tm, other: Tm)
    requires !HasFull(parts)
    ensures Rendered(env, text, parts, msg, tm, date) == Rendered(env, text, parts, msg, tm, other)
    decreases |parts|
  {
    if parts != [] {
      assert !parts[0].Full?;
      assert forall i :: 0 <= i < |parts[1..]| ==> parts[1..][i] == parts[i + 1];
      DateDoesNotShow(env, Written(env, text, parts[0], DateText(date), msg, tm), parts[1..], msg, tm, date, other);
    }
  }

  /**
   In particular they are from the first message on that is not in second 0, or at once if there has
   been one, unless %+ is in the pattern and goes on with a date that is not the second's own.
   */
  lemma WarmIsDirect(env: Env, pattern: string, custom: set<char>, before: seq<Op>, msgs: seq<LogMsg>)
    requires var p := PlainRun(env, PlainInitial(pattern, custom), before);
             && p.needLocaltime && (p.warm || msgs == [] || msgs[0].second != 0)
             && (msgs != [] && HasFull(p.parts) ==> DateFits(env, p, msgs[0].second))
    ensures var st := AfterRun(env, Initial(pattern, custom), before);
            Outputs(env, st, Formats(msgs)) == Direct(env, st.parts, msgs)
  {
    hide Rendered, HasFull;
    if msgs != [] {
      var p, second := PlainRun(env, PlainInitial(pattern, custom), before), msgs[0].second;
      RunIsPlain(env, pattern, custom, before);
      RunIsDirectIff(env, pattern, custom, before, msgs);
      forall i | 0 <= i < Leading(msgs, second) && !HasFull(p.parts)
        ensures Rendered(env, "", p.parts, msgs[i], env.getTime(second), ShownDate(env, p, second))
             == Rendered(env, "", p.parts, msgs[i], env.getTime(second), env.getTime(second))
      {
        DateDoesNotShow(env, "", p.parts, msgs[i], env.getTime(second), ShownDate(env, p, second), env.getTime(second));
      }
    }
  }

  /**
   With any pattern that shows the time: a whole run is as if recomputed each time exactly if every
   message of second 0 that it starts with shows the all-zero time like that of second 0.
   */
  lemma SecondZeroIff(env: Env, pattern: string, custom: set<char>, msgs: seq<LogMsg>)
    requires Timed(PatternParts(pattern, custom))
    ensures Outputs(env, Initial(pattern, custom), Formats(msgs)) == Direct(env, PatternParts(pattern, custom), msgs)
       <==> ShowSame(env, PatternParts(pattern, custom), msgs[..Leading(msgs, 0)], ZERO_TM, ZERO_TM)
  {
    hide PatternParts, Rendered;
    if msgs != [] {
      RunIsDirectIff(env, pattern, custom, [], msgs);
    }
  }

  // The date, in terms of the calls.

  lemma {:induction false} PlainRunLast(env: Env, p: Plain, ops: seq<Op>)
    requires ops != []
    ensures PlainRun(env, p, ops) == PlainApply(env, PlainRun(env, p, ops[..|ops| - 1]), ops[|ops| - 1])
    decreases |ops|
  {
    hide PlainApply;
    if |ops| == 1 {
      assert ops[1..] == [] && ops[..0] == [];
    } else {
      var next := PlainApply(env, p, ops[0]);
      PlainRunLast(env, next, ops[1..]);
      assert ops[1..][..|ops| - 2] == ops[..|ops| - 1][1..];
    }
  }

  /** The second of the last message since the pattern was set. */
  function LastSecond(ops: seq<Op>): Option<nat> {
    if ops == [] then None
    else
      match ops[|ops| - 1]
      case FormatOp(msg) => Some(msg.second)
      case SetPatternOp(_) => None
      case NeedLocaltimeOp(_) => LastSecond(ops[..|ops| - 1])
      case AddFlagOp(_) => LastSecond(ops[..|ops| - 1])
  }

  /** The calls before the first message of the series that the last message belongs to. */
  function BeforeSeries(ops: seq<Op>): (before: seq<Op>)
    requires LastSecond(ops).Some?
    ensures before <= ops
  {
    var rest := ops[..|ops| - 1];
    if ops[|ops| - 1].FormatOp? && LastSecond(rest) != LastSecond(ops) then rest else BeforeSeries(rest)
  }

  /** The date of a series is the time that its first message showed, and a series does not warm up in second 0. */
  lemma {:induction false} SeriesDate(env: Env, p: Plain, ops: seq<Op>)
    requires p.streak.None?
    ensures var r := PlainRun(env, p, ops);
            match LastSecond(ops) {
              case None => r.streak.None?
              case Some(second) =>
                var start := PlainRun(env, p, BeforeSeries(ops));
                && r.streak == Some(Shown(second, ShownTime(env, start, second)))
                && (second == 0 ==> r.warm == start.warm)
            }
  {
    if ops != [] {
      PlainRunLast(env, p, ops);
      SeriesDate(env, p, ops[..|ops| - 1]);
    }
  }

  /** The date of the next message is its own, except exactly if its series began while the time was off, with another. */
  lemma DateFitsIff(env: Env, pattern: string, custom: set<char>, before: seq<Op>, second: nat)
    requires var p := PlainRun(env, PlainInitial(pattern, custom), before); p.needLocaltime && (p.warm || second != 0)
    ensures var init := PlainInitial(pattern, custom);
            DateFits(env, PlainRun(env, init, before), second)
            <==> (LastSecond(before) == Some(second) ==>
                    var start := PlainRun(env, init, BeforeSeries(before));
                    start.needLocaltime || start.shown == env.getTime(second))
  {
    SeriesDate(env, PlainInitial(pattern, custom), before);
  }

  /**
   After any run of any calls that leaves the default pattern and the time on: a message, unless it is
   of second 0 and nothing else was seen, is formatted as if its time were computed for it, except
   exactly if its series began while the time was off, with another date left over from before.
   */
  lemma DateIsDirectIff(env: Env, pattern: string, custom: set<char>, before: seq<Op>, msg: LogMsg)
    requires var p := PlainRun(env, PlainInitial(pattern, custom), before);
             p.parts == [Full] && p.needLocaltime && (p.warm || msg.second != 0)
    ensures var wrong :=
              LastSecond(before) == Some(msg.second) &&
              var start := PlainRun(env, PlainInitial(pattern, custom), BeforeSeries(before));
              !start.needLocaltime && DateText(start.shown) != DateText(env.getTime(msg.second));
            FormatOutput(env, AfterRun(env, Initial(pattern, custom), before), "", msg) == DirectOutput(env, [Full], msg)
            <==> !wrong
  {
    hide PatternParts, DateText, FullTail, Rendered, FormatOutput;
    var init := PlainInitial(pattern, custom);
    var p, st := PlainRun(env, init, before), AfterRun(env, Initial(pattern, custom), before);
    var tm, date := env.getTime(msg.second), ShownDate(env, p, msg.second);
    RunIsPlain(env, pattern, custom, before);
    FormatIsPlain(env, st, p, msg);
    SeriesDate(env, init, before);
    FullRenders(env, msg, tm, date);
    FullRenders(env, msg, tm, tm);
    SameEnds(DateText(date), DateText(tm), FullTail(msg));
  }

  lemma SameEnds(a: string, b: string, tail: string)
    ensures "" + a + tail == "" + b + tail <==> a == b
  {
    if "" + a + tail == "" + b + tail {
      assert a == ("" + a + tail)[..|a|] && b == ("" + b + tail)[..|b|];
      assert |a| == |b|;
    }
  }

  /** Such a run: the time is switched off and on again within one second. */
  lemma SwitchedOffDateStays(env: Env, msg: LogMsg)
    requires msg.second != 0
    ensures var before := [NeedLocaltimeOp(false), FormatOp(msg), NeedLocaltimeOp(true)];
            var st := AfterRun(env, Initial("%+", {}), before);
            st.needLocaltime && FormatOutput(env, st, "", msg) == "" + DateText(ZERO_TM) + FullTail(msg)
  {
    DefaultPattern();
    hide PatternParts, DateText, FullTail, FormatOutput;
    var before := [NeedLocaltimeOp(false), FormatOp(msg), NeedLocaltimeOp(true)];
    var p0 := PlainInitial("%+", {});
    var p1 := PlainApply(env, p0, before[0]);
    var p2 := PlainApply(env, p1, before[1]);
    var p3 := PlainApply(env, p2, before[2]);
    assert before[1..][1..] == before[2..] && before[2..][1..] == [];
    assert PlainRun(env, p2, before[2..]) == p3;
    assert PlainRun(env, p1, before[1..]) == p3;
    assert PlainRun(env, p0, before) == p3;
    RunIsPlain(env, "%+", {}, before);
    FormatIsPlain(env, AfterRun(env, Initial("%+", {}), before), p3, msg);
    FullRenders(env, msg, env.getTime(msg.second), ZERO_TM);
  }

  // The default pattern.

  lemma Years()
    ensures Decimal(1900) == "1900" && Decimal(1969) == "1969" && Decimal(1970) == "1970"
  {
    assert Decimal(19) == "19";
    assert Decimal(190) == "190" && Decimal(196) == "196" && Decimal(197) == "197";
  }

  /** The date of the epoch is not the all-zero date, wherever one is. */
  lemma EpochShows(tm: Tm)
    requires tm.year == 69 || tm.year == 70
    ensures DateText(tm)[3] != DateText(ZERO_TM)[3]
  {
    Years();
  }

  lemma FullRenders(env: Env, msg: LogMsg, tm: Tm, date: Tm)
    ensures Rendered(env, "", [Full], msg, tm, date) == "" + DateText(date) + FullTail(msg)
  {
  }

  /** With the default pattern, the whole run is as if recomputed each time exactly when it does not start in second 0. */
  lemma DefaultPatternIff(env: Env, msgs: seq<LogMsg>)
    requires env.getTime(0).year == 69 || env.getTime(0).year == 70
    ensures Outputs(env, Initial("%+", {}), Formats(msgs)) == Direct(env, [Full], msgs)
       <==> msgs == [] || msgs[0].second != 0
  {
    DefaultPattern();
    assert UsesTime([Full][0]);
    SecondZeroIff(env, "%+", {}, msgs);
    hide PatternParts, Rendered, DateText, FullTail;
    if msgs != [] && msgs[0].second == 0 {
      FullRenders(env, msgs[0], ZERO_TM, ZERO_TM);
      FullRenders(env, msgs[0], env.getTime(0), env.getTime(0));
      EpochShows(env.getTime(0));
      SameEnds(DateText(ZERO_TM), DateText(env.getTime(0)), FullTail(msgs[0]));
      assert msgs[..Leading(msgs, 0)][0] == msgs[0];
    }
  }
}
