/**
 The pattern language of log lines: text, and flags such as `%v` with an optional padding
 specification (`%8v`, `%-8v`, `%=8!v`).
 */
module PatternSyntax {

  import opened FileNames
  import opened Padding
  import opened ParseInt
  import opened Sequences

  const SIZE_RANGE := 0x1_0000_0000_0000_0000

  datatype Token = Chars(text: string) | Flag(flag: char, padding: PaddingInfo)

  // handle_padspec_.

  datatype PadSpec = PadSpec(info: PaddingInfo, end: nat)

  function WrapSize(x: nat): nat {
    x % SIZE_RANGE
  }

  function Min(x: nat, y: nat): nat {
    if x < y then x else y
  }

  /** The width that a run of digits asks for. */
  function Width(digits: string): nat {
    Min(WrapSize(Value(digits)), MAX_WIDTH)
  }

  function SideOf(c: char): Side {
    if c == '-' then Right else if c == '=' then Center else Left
  }

  function SkipSide(s: string, p: nat): (d: nat)
    requires p <= |s|
    ensures p <= d <= |s|
  {
    if p < |s| && SideOf(s[p]) != Left then p + 1 else p
  }

  /** The padding at a position, and where it ends; a side without a width is skipped all the same. */
  function PadSpecAt(s: string, p: nat): (r: PadSpec)
    requires p <= |s|
    ensures p <= r.end <= |s| && r.info.width <= MAX_WIDTH
  {
    var d := SkipSide(s, p);
    if d == |s| || !IsDigit(s[d]) then PadSpec(NO_PADDING, d)
    else
      var e := RunEnd(s, d);
      var truncate := e < |s| && s[e] == '!';
      PadSpec(PaddingInfo(Width(s[d..e]), SideOf(s[p]), truncate, true), if truncate then e + 1 else e)
  }

  /** The width is a size_t and wraps. */
  method ReadWidth(s: string, first: nat) returns (width: nat, it: nat)
    requires first < |s| && IsDigit(s[first])
    ensures it == RunEnd(s, first)
    ensures width == WrapSize(Value(s[first..it]))
  {
    width := Digit(s[first]);
    it := first + 1;
    assert s[first..it] == [s[first]];
    assert s[first..it][..0] == "";
    while it < |s| && IsDigit(s[it])
      invariant first < it <= |s| && RunEnd(s, first) == RunEnd(s, it)
      invariant width == WrapSize(Value(s[first..it]))
    {
      var digit := Digit(s[it]);
      RunGrows(s, first, it);
      WrapSizeStep(Value(s[first..it]), digit);
      width := WrapSize(width * 10 + digit);
      it := it + 1;
    }
  }

  method HandlePadspec(s: string, begin: nat) returns (padding: PaddingInfo, it: nat)
    requires begin <= |s|
    ensures PadSpec(padding, it) == PadSpecAt(s, begin)
  {
    it := begin;
    if it == |s| {
      return NO_PADDING, it;
    }
    var side;
    match s[it] {
      case '-' =>
        side := Right;
        it := it + 1;
      case '=' =>
        side := Center;
        it := it + 1;
      case _ =>
        side := Left;
    }
    if it == |s| || !IsDigit(s[it]) {
      return NO_PADDING, it;
    }
    var width;
    width, it := ReadWidth(s, it);
    var truncate;
    if it < |s| && s[it] == '!' {
      truncate := true;
      it := it + 1;
    } else {
      truncate := false;
    }
    padding := PaddingInfo(Min(width, MAX_WIDTH), side, truncate, true);
  }

  lemma WrapSizeStep(v: nat, d: nat)
    ensures WrapSize(WrapSize(v) * 10 + d) == WrapSize(10 * v + d)
  {
    var q, m := v / SIZE_RANGE, v % SIZE_RANGE;
    assert 10 * v + d == m * 10 + d + SIZE_RANGE * (10 * q);
  }

  /** The width is the number asked for, at most 64, except where 64-bit wrapping brings it below that. */
  lemma WidthIsIdealIff(digits: string)
    ensures Width(digits) == Min(Value(digits), MAX_WIDTH)
       <==> Value(digits) < MAX_WIDTH || Value(digits) % SIZE_RANGE >= MAX_WIDTH
  {
    if Value(digits) < MAX_WIDTH {
      assert Value(digits) % SIZE_RANGE == Value(digits);
    }
  }

  /** Nineteen digits are too few to wrap. */
  lemma ShortWidthIsIdeal(digits: string)
    requires |digits| <= 19
    ensures Width(digits) == Min(Value(digits), MAX_WIDTH)
  {
    ValueBound(digits);
    Pow10Monotonic(|digits|, 19);
    assert Pow10(4) == 10000;
    assert Pow10(8) == 1_0000_0000;
    assert Pow10(12) == 1_0000_0000_0000;
    assert Pow10(16) == 1_0000_0000_0000_0000;
    assert Pow10(19) < SIZE_RANGE;
  }

  lemma WideSpecFails()
    ensures Width(Decimal(SIZE_RANGE + 1)) == 1
  {
    DecimalValue(SIZE_RANGE + 1);
  }

  // compile_pattern_.

  /** The text collected so far, as a token if there is any. */
  function Pending(chars: string): seq<Token> {
    if chars == "" then [] else [Chars(chars)]
  }

  /** The tokens from a position on; a flag without its letter is dropped. */
  function TokensFrom(s: string, p: nat, chars: string): seq<Token>
    requires p <= |s|
    decreases |s| - p
  {
    if p == |s| then Pending(chars)
    else if s[p] != '%' then TokensFrom(s, p + 1, chars + [s[p]])
    else
      var spec := PadSpecAt(s, p + 1);
      Pending(chars) +
      if spec.end == |s| then []
      else [Flag(s[spec.end], spec.info)] + TokensFrom(s, spec.end + 1, "")
  }

  function Tokens(pattern: string): seq<Token> {
    TokensFrom(pattern, 0, "")
  }

  method CompilePattern(pattern: string) returns (tokens: seq<Token>)
    ensures tokens == Tokens(pattern)
  {
    tokens := [];
    var userChars := "";
    var it := 0;
    while it < |pattern|
      invariant it <= |pattern|
      invariant tokens + TokensFrom(pattern, it, userChars) == Tokens(pattern)
    {
      if pattern[it] == '%' {
        ghost var before := tokens;
        if userChars != "" {
          tokens := tokens + [Chars(userChars)];
        }
        assert tokens == before + Pending(userChars);
        ghost var spec := PadSpecAt(pattern, it + 1);
        userChars := "";
        var padding;
        padding, it := HandlePadspec(pattern, it + 1);
        if it == |pattern| {
          break;
        }
        tokens := tokens + [Flag(pattern[it], padding)];
        it := it + 1;
      } else {
        userChars := userChars + [pattern[it]];
        it := it + 1;
      }
    }
    if userChars != "" {
      tokens := tokens + [Chars(userChars)];
    }
  }

  // Printing tokens back.

  predicate IsText(text: string) {
    text != "" && '%' !in text
  }

  /** What can be told apart from its surroundings once printed. */
  predicate CanonicalFlag(flag: char, padding: PaddingInfo) {
    && (IsDigit(flag) ==> padding.truncate)
    && (!padding.enabled ==> padding == NO_PADDING)
    && (padding.enabled ==> padding.width <= MAX_WIDTH && (!padding.truncate ==> flag != '!'))
  }

  predicate CanonicalToken(t: Token) {
    match t
    case Chars(text) => IsText(text)
    case Flag(flag, padding) => CanonicalFlag(flag, padding)
  }

  /** Texts are maximal: a flag or the end follows each. */
  predicate Canonical(tokens: seq<Token>)
    decreases |tokens|
  {
    tokens == [] ||
    (CanonicalToken(tokens[0]) && (tokens[0].Chars? ==> Separated(tokens[1..])) && Canonical(tokens[1..]))
  }

  predicate Separated(rest: seq<Token>) {
    rest == [] || rest[0].Flag?
  }

  function PrintSide(side: Side): string {
    match side
    case Left => ""
    case Right => "-"
    case Center => "="
  }

  function PrintPadding(flag: char, padding: PaddingInfo): string {
    if padding.enabled then PrintSide(padding.side) + Decimal(padding.width) + if padding.truncate then "!" else ""
    else if SideOf(flag) != Left then "-"
    else ""
  }

  function PrintToken(t: Token): string {
    match t
    case Chars(text) => text
    case Flag(flag, padding) => "%" + PrintPadding(flag, padding) + [flag]
  }

  function Joined(texts: seq<string>): string {
    if texts == [] then "" else texts[0] + Joined(texts[1..])
  }

  function Texts(tokens: seq<Token>): seq<string> {
    seq(|tokens|, i requires 0 <= i < |tokens| => PrintToken(tokens[i]))
  }

  function Print(tokens: seq<Token>): string {
    Joined(Texts(tokens))
  }

  lemma WidthPrinted(s: string, d: nat, width: nat)
    requires width <= MAX_WIDTH && At(s, d, Decimal(width))
    requires var e := d + |Decimal(width)|; e < |s| ==> !IsDigit(s[e])
    ensures var e := d + |Decimal(width)|;
            d < e && IsDigit(s[d]) && RunEnd(s, d) == e && Width(s[d..e]) == width
  {
    DecimalValue(width);
    assert Decimal(width)[0] == s[d];
    RunEndIs(s, d, Decimal(width));
    AtSlice(s, d, Decimal(width));
  }

  /** A side, a width and a mark are read back. */
  lemma ThreePartsRead(s: string, p: nat, side: Side, width: nat, truncate: bool)
    requires width <= MAX_WIDTH
    requires var d := p + |PrintSide(side)|;
             var e := d + |Decimal(width)|;
             && At(s, p, PrintSide(side)) && At(s, d, Decimal(width))
             && e < |s| && !IsDigit(s[e]) && (truncate <==> s[e] == '!')
    ensures PadSpecAt(s, p) == PadSpec(PaddingInfo(width, side, truncate, true),
                                       p + |PrintSide(side)| + |Decimal(width)| + if truncate then 1 else 0)
  {
    hide Decimal, Value, Width;
    var d := p + |PrintSide(side)|;
    WidthPrinted(s, d, width);
    if side != Left {
      assert PrintSide(side)[0] == s[p];
    }
  }

  lemma EnabledPrinted(s: string, p: nat, flag: char, padding: PaddingInfo)
    requires CanonicalFlag(flag, padding) && padding.enabled
    requires At(s, p, PrintPadding(flag, padding)) && At(s, p + |PrintPadding(flag, padding)|, [flag])
    ensures PadSpecAt(s, p) == PadSpec(padding, p + |PrintPadding(flag, padding)|)
  {
    var side, digits := PrintSide(padding.side), Decimal(padding.width);
    var mark := if padding.truncate then "!" else "";
    AtConcat(s, p, side + digits, mark);
    AtConcat(s, p, side, digits);
    var e := p + |side| + |digits|;
    assert s[e] == (if padding.truncate then mark[0] else [flag][0]);
    ThreePartsRead(s, p, padding.side, padding.width, padding.truncate);
  }

  /** A printed padding reads back, up to its flag. */
  lemma PadSpecPrinted(s: string, p: nat, flag: char, padding: PaddingInfo)
    requires CanonicalFlag(flag, padding)
    requires At(s, p, PrintPadding(flag, padding)) && At(s, p + |PrintPadding(flag, padding)|, [flag])
    ensures PadSpecAt(s, p) == PadSpec(padding, p + |PrintPadding(flag, padding)|)
  {
    var printed := PrintPadding(flag, padding);
    assert s[p + |printed|] == [flag][0];
    if padding.enabled {
      EnabledPrinted(s, p, flag, padding);
    } else if printed != "" {
      assert s[p] == printed[0] == '-';
    }
  }

  lemma {:induction false} TextRun(s: string, p: nat, text: string, chars: string)
    requires At(s, p, text) && '%' !in text
    ensures TokensFrom(s, p, chars) == TokensFrom(s, p + |text|, chars + text)
    decreases |text|
  {
    if text == "" {
      assert chars + text == chars;
    } else {
      assert text[0] == s[p] && text == [text[0]] + text[1..];
      AtConcat(s, p, [text[0]], text[1..]);
      TextRun(s, p + 1, text[1..], chars + [text[0]]);
      assert chars + [text[0]] + text[1..] == chars + text;
    }
  }

  lemma TextPrinted(s: string, p: nat, text: string)
    requires IsText(text) && At(s, p, text) && (p + |text| == |s| || s[p + |text|] == '%')
    ensures TokensFrom(s, p, "") == [Chars(text)] + TokensFrom(s, p + |text|, "")
  {
    TextRun(s, p, text, "");
    assert "" + text == text;
  }

  /** Where the parts of a printed flag are. */
  lemma FlagLayout(s: string, p: nat, flag: char, padding: PaddingInfo)
    requires At(s, p, PrintToken(Flag(flag, padding)))
    ensures var q := p + |PrintToken(Flag(flag, padding))| - 1;
            && q < |s| && s[p] == '%' && s[q] == flag && q == p + 1 + |PrintPadding(flag, padding)|
            && At(s, p + 1, PrintPadding(flag, padding))
  {
    var printed := PrintPadding(flag, padding);
    AtConcat(s, p, "%" + printed, [flag]);
    AtConcat(s, p, "%", printed);
    assert "%"[0] == s[p];
    assert [flag][0] == s[p + 1 + |printed|];
  }

  lemma FlagReads(s: string, p: nat, spec: PadSpec)
    requires p < |s| && s[p] == '%' && PadSpecAt(s, p + 1) == spec && spec.end < |s|
    ensures TokensFrom(s, p, "") == [Flag(s[spec.end], spec.info)] + TokensFrom(s, spec.end + 1, "")
  {
  }

  /** What one printed token compiles to. */
  ghost predicate Step(s: string, p: nat, q: nat, t: Token) {
    p <= |s| && q <= |s| && TokensFrom(s, p, "") == [t] + TokensFrom(s, q, "")
  }

  lemma TokenPrinted(s: string, p: nat, head: Token)
    requires CanonicalToken(head) && At(s, p, PrintToken(head))
    requires var q := p + |PrintToken(head)|; head.Chars? ==> q == |s| || s[q] == '%'
    ensures Step(s, p, p + |PrintToken(head)|, head)
  {
    match head {
      case Chars(text) =>
        TextPrinted(s, p, text);
      case Flag(flag, padding) =>
        FlagLayout(s, p, flag, padding);
        PadSpecPrinted(s, p + 1, flag, padding);
        FlagReads(s, p, PadSpec(padding, p + 1 + |PrintPadding(flag, padding)|));
    }
  }

  /** Where each text of a list starts, and where the last one ends. */
  function Ends(p: nat, texts: seq<string>): (r: seq<nat>)
    ensures |r| == |texts| + 1 && r[0] == p
    decreases |texts|
  {
    if texts == [] then [p] else [p] + Ends(p + |texts[0]|, texts[1..])
  }

  ghost predicate Placed(s: string, p: nat, q: nat, text: string) {
    q == p + |text| && At(s, p, text)
  }

  ghost predicate LaidOut(s: string, ends: seq<nat>, texts: seq<string>)
    requires |ends| == |texts| + 1
  {
    && (forall i, j | 0 <= i < |texts| && j == i + 1 :: Placed(s, ends[i], ends[j], texts[i]))
    && ends[|texts|] == |s|
  }

  lemma PlacedFirst(s: string, p: nat, ends: seq<nat>, texts: seq<string>)
    requires texts != [] && |ends| == |texts| && LaidOut(s, ends, texts[1..])
    requires Placed(s, p, ends[0], texts[0])
    ensures LaidOut(s, [p] + ends, texts)
  {
  }

  lemma {:induction false} JoinedLaysOut(s: string, p: nat, texts: seq<string>)
    requires At(s, p, Joined(texts)) && p + |Joined(texts)| == |s|
    ensures LaidOut(s, Ends(p, texts), texts)
    decreases |texts|
  {
    if texts != [] {
      AtConcat(s, p, texts[0], Joined(texts[1..]));
      JoinedLaysOut(s, p + |texts[0]|, texts[1..]);
      PlacedFirst(s, p, Ends(p + |texts[0]|, texts[1..]), texts);
    }
  }

  lemma {:induction false} CanonicalAt(tokens: seq<Token>, i: nat)
    requires Canonical(tokens) && i < |tokens|
    ensures CanonicalToken(tokens[i]) && (tokens[i].Chars? && i + 1 < |tokens| ==> tokens[i + 1].Flag?)
  {
    if i > 0 {
      CanonicalAt(tokens[1..], i - 1);
    }
  }

  /** Each printed token compiles to itself, whatever follows. */
  lemma PlacedStep(s: string, p: nat, q: nat, t: Token, next: seq<Token>)
    requires CanonicalToken(t) && Placed(s, p, q, PrintToken(t))
    requires |next| <= 1 && if next == [] then q == |s| else At(s, q, PrintToken(next[0]))
    requires t.Chars? ==> Separated(next)
    ensures Step(s, p, q, t)
  {
    if t.Chars? && next != [] {
      FlagLayout(s, q, next[0].flag, next[0].padding);
    }
    TokenPrinted(s, p, t);
  }

  ghost predicate Steps(s: string, ends: seq<nat>, tokens: seq<Token>)
    requires |ends| == |tokens| + 1
  {
    && (forall i, j | 0 <= i < |tokens| && j == i + 1 :: Step(s, ends[i], ends[j], tokens[i]))
    && ends[|tokens|] == |s|
  }

  lemma LaidOutStep(s: string, ends: seq<nat>, texts: seq<string>, tokens: seq<Token>, i: nat)
    requires |texts| == |tokens| == |ends| - 1 && LaidOut(s, ends, texts) && Canonical(tokens) && i < |tokens|
    requires texts[i] == PrintToken(tokens[i])
    requires i + 1 < |tokens| ==> texts[i + 1] == PrintToken(tokens[i + 1])
    ensures Step(s, ends[i], ends[i + 1], tokens[i])
  {
    CanonicalAt(tokens, i);
    var j := i + 1;
    assert Placed(s, ends[i], ends[j], texts[i]);
    if j < |tokens| {
      assert Placed(s, ends[j], ends[j + 1], texts[j]);
    }
    PlacedStep(s, ends[i], ends[j], tokens[i], if j < |tokens| then [tokens[j]] else []);
  }

  lemma {:induction false} StepsCompile(s: string, ends: seq<nat>, tokens: seq<Token>)
    requires |ends| == |tokens| + 1 && Steps(s, ends, tokens)
    ensures ends[0] <= |s| && TokensFrom(s, ends[0], "") == tokens
    decreases |tokens|
  {
    if tokens != [] {
      StepsCompile(s, ends[1..], tokens[1..]);
      assert Step(s, ends[0], ends[1], tokens[0]);
      assert tokens == [tokens[0]] + tokens[1..];
    }
  }

  /** Compiling what was printed gives the tokens back. */
  lemma PrintedCompiles(tokens: seq<Token>)
    requires Canonical(tokens)
    ensures Tokens(Print(tokens)) == tokens
  {
    var texts := Texts(tokens);
    var s, ends := Joined(texts), Ends(0, texts);
    JoinedLaysOut(s, 0, texts);
    forall i, j | 0 <= i < |tokens| && j == i + 1
      ensures Step(s, ends[i], ends[j], tokens[i])
    {
      LaidOutStep(s, ends, texts, tokens, i);
    }
    StepsCompile(s, ends, tokens);
  }

  /** And every pattern compiles to tokens of that form. */
  lemma {:induction false} CompiledIsCanonical(s: string, p: nat, chars: string)
    requires p <= |s| && '%' !in chars
    ensures Canonical(TokensFrom(s, p, chars))
    decreases |s| - p
  {
    if p < |s| && s[p] != '%' {
      CompiledIsCanonical(s, p + 1, chars + [s[p]]);
    } else if p < |s| {
      var spec := PadSpecAt(s, p + 1);
      if spec.end < |s| {
        PadSpecIsCanonical(s, p + 1);
        CompiledIsCanonical(s, spec.end + 1, "");
        FlagJoins(Flag(s[spec.end], spec.info), TokensFrom(s, spec.end + 1, ""), chars);
      }
    }
  }

  lemma FlagJoins(flag: Token, rest: seq<Token>, chars: string)
    requires flag.Flag? && CanonicalToken(flag) && Canonical(rest) && '%' !in chars
    ensures Canonical(Pending(chars) + ([flag] + rest))
  {
    assert ([flag] + rest)[1..] == rest;
    if chars == "" {
      assert Pending(chars) + ([flag] + rest) == [flag] + rest;
    } else {
      assert (Pending(chars) + ([flag] + rest))[1..] == [flag] + rest;
    }
  }

  lemma PadSpecIsCanonical(s: string, p: nat)
    requires p <= |s| && PadSpecAt(s, p).end < |s|
    ensures CanonicalFlag(s[PadSpecAt(s, p).end], PadSpecAt(s, p).info)
  {
  }
}
