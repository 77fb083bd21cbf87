/**
 Format strings, read twice: by the run-time parser, whose handler writes text and arguments as it
 goes, and by FMT_COMPILE, which turns the string into a tree of pieces that is written later. The
 grammar is text, escaped braces, and replacement fields with automatic or manual indices, each with
 an optional specification.
 */
module FormatString {
  import opened FileNames
  import opened ParseInt
  import opened Sequences

  datatype Error = InvalidFormat | UnmatchedClose | MixedIndexing | ArgumentNotFound | BadSpec | NamedArgument

  datatype Result<+T> = Ok(value: T) | Err(error: Error)

  /**
   The arguments: how many there are, how far the specification parser of an argument reads into the
   given text, and what an argument writes under a specification (the empty one for a plain field).
   */
  datatype Args = Args(n: nat, specLength: (nat, string) -> Result<nat>, write: (nat, string) -> string)

  /** next_arg_id_: the next automatic index, or this once manual indexing has begun. */
  const MANUAL := -1

  function Prefixed(text: string, rest: Result<string>): Result<string> {
    match rest
    case Ok(out) => Ok(text + out)
    case Err(e) => Err(e)
  }

  predicate IsNameStart(c: char) {
    'a' <= c <= 'z' || 'A' <= c <= 'Z' || c == '_'
  }

  datatype ArgId = ArgId(index: int, end: nat)

  /** parse_arg_id: a lone zero or a number without leading zeros, followed by '}' or ':'. */
  function ParseArgId(s: string, begin: nat): (r: Result<ArgId>)
    requires begin < |s|
    ensures r.Ok? ==> begin < r.value.end < |s| && r.value.index >= 0 && s[r.value.end] in "}:"
  {
    if IsDigit(s[begin]) then
      var end := if s[begin] != '0' then RunEnd(s, begin) else begin + 1;
      var index := if s[begin] != '0' then Parsed(s[begin..end], INT_MAX) else 0;
      if end == |s| || (s[end] != '}' && s[end] != ':') then Err(InvalidFormat) else Ok(ArgId(index, end))
    else if IsNameStart(s[begin]) then
      Err(NamedArgument)
    else
      Err(InvalidFormat)
  }

  /** A number without leading zeros, up to the end of its field or its specification. */
  ghost predicate IsArgId(s: string, begin: nat, end: nat) {
    && begin < end < |s| && AllDigits(s[begin..end]) && s[end] in "}:"
    && (s[begin] == '0' ==> end == begin + 1)
  }

  /** What parses as an index is exactly that, and the index is its value, or INT_MAX where that is too large. */
  lemma ArgIdIff(s: string, begin: nat)
    requires begin < |s|
    ensures var r := ParseArgId(s, begin);
            && (r.Ok? <==> exists end: nat :: IsArgId(s, begin, end))
            && (r.Ok? ==> IsArgId(s, begin, r.value.end)
                          && r.value.index == Ideal(s[begin..r.value.end], INT_MAX))
  {
    var r := ParseArgId(s, begin);
    if end: nat :| IsArgId(s, begin, end) {
      assert s[begin..end][0] == s[begin];
      RunEndIs(s, begin, s[begin..end]);
    }
    if r.Ok? {
      RunIsDigits(s, begin);
      var digits := s[begin..r.value.end];
      assert digits[0] == s[begin];
      if s[begin] == '0' {
        assert digits == "0" && digits[..0] == "";
        assert Value("0") == 0;
      } else {
        NoLeadingZeroIsIdeal(digits, INT_MAX);
      }
      assert IsArgId(s, begin, r.value.end);
    }
  }

  /** A printed index is read back. */
  lemma ArgIdPrinted(s: string, begin: nat, n: nat)
    requires At(s, begin, Decimal(n))
    requires var end := begin + |Decimal(n)|; end < |s| && s[end] in "}:"
    ensures ParseArgId(s, begin) == Ok(ArgId(if n <= INT_MAX then n else INT_MAX, begin + |Decimal(n)|))
  {
    var digits := Decimal(n);
    var end := begin + |digits|;
    DecimalValue(n);
    DecimalLead(n);
    AtSlice(s, begin, digits);
    RunEndIs(s, begin, digits);
    assert digits[0] == s[begin];
    if n > 0 {
      NoLeadingZeroIsIdeal(digits, INT_MAX);
    } else {
      assert digits == "0";
    }
  }

  // parse_context.

  class ParseContext {
    var nextArgId: int

    constructor ()
      ensures nextArgId == 0
    {
      nextArgId := 0;
    }

    method NextArgId() returns (r: Result<int>)
      modifies this
      ensures r == AutoIndex(old(nextArgId)) == if old(nextArgId) < 0 then Err(MixedIndexing) else Ok(old(nextArgId))
      ensures nextArgId == if r.Ok? then old(nextArgId) + 1 else old(nextArgId)
    {
      if nextArgId < 0 {
        return Err(MixedIndexing);
      }
      r := Ok(nextArgId);
      nextArgId := nextArgId + 1;
    }

    method CheckArgId(id: int) returns (r: Result<int>)
      modifies this
      ensures r == ManualIndex(old(nextArgId), id) == if old(nextArgId) > 0 then Err(MixedIndexing) else Ok(id)
      ensures nextArgId == if r.Ok? then MANUAL else old(nextArgId)
    {
      if nextArgId > 0 {
        return Err(MixedIndexing);
      }
      nextArgId := -1;
      r := Ok(id);
    }
  }

  function AutoIndex(next: int): Result<int> {
    if next < 0 then Err(MixedIndexing) else Ok(next)
  }

  function ManualIndex(next: int, id: int): Result<int> {
    if next > 0 then Err(MixedIndexing) else Ok(id)
  }

  // The run-time parser.

  /** What a replacement field or an escaped opening brace writes, where it ends, and the index state after it. */
  datatype FieldResult = FieldResult(out: string, end: nat, next: int)

  function WriteArg(args: Args, id: int, spec: string): Result<string> {
    if 0 <= id < args.n then Ok(args.write(id, spec)) else Err(ArgumentNotFound)
  }

  /** on_format_specs and the closing brace after it. */
  function SpecField(args: Args, s: string, begin: nat, id: int, next: int): (r: Result<FieldResult>)
    requires begin <= |s|
    ensures r.Ok? ==> begin < r.value.end <= |s|
  {
    if !(0 <= id < args.n) then Err(ArgumentNotFound)
    else
      match args.specLength(id, s[begin..])
      case Err(_) => Err(BadSpec)
      case Ok(length) =>
        var end := begin + length;
        if end >= |s| || s[end] != '}' then Err(BadSpec)
        else Ok(FieldResult(args.write(id, s[begin..end]), end + 1, next))
  }

  function PlainField(args: Args, end: nat, id: int, next: int): Result<FieldResult> {
    match WriteArg(args, id, "")
    case Err(e) => Err(e)
    case Ok(out) => Ok(FieldResult(out, end, next))
  }

  /** parse_replacement_field, on a '{' at pos. */
  function ReplacementField(args: Args, s: string, pos: nat, next: int): (r: Result<FieldResult>)
    requires pos < |s|
    ensures r.Ok? ==> pos < r.value.end <= |s|
  {
    var begin := pos + 1;
    if begin == |s| then Err(InvalidFormat)
    else if s[begin] == '}' then
      match AutoIndex(next)
      case Err(e) => Err(e)
      case Ok(id) => PlainField(args, begin + 1, id, next + 1)
    else if s[begin] == '{' then
      Ok(FieldResult(s[begin..begin + 1], begin + 1, next))
    else if s[begin] == ':' then
      match AutoIndex(next)
      case Err(e) => Err(e)
      case Ok(id) => SpecField(args, s, begin + 1, id, next + 1)
    else
      match ParseArgId(s, begin)
      case Err(e) => Err(e)
      case Ok(arg) =>
        match ManualIndex(next, arg.index)
        case Err(e) => Err(e)
        case Ok(id) =>
          if s[arg.end] == '}' then PlainField(args, arg.end + 1, id, MANUAL)
          else SpecField(args, s, arg.end + 1, id, MANUAL)
  }

  /** What is written from the pending text s[begin..p] on. */
  function Replay(args: Args, s: string, begin: nat, p: nat, next: int): Result<string>
    requires begin <= p <= |s|
    decreases |s| - p
  {
    if p == |s| then Ok(s[begin..])
    else if s[p] == '{' then
      match ReplacementField(args, s, p, next)
      case Err(e) => Err(e)
      case Ok(field) => Prefixed(s[begin..p] + field.out, Replay(args, s, field.end, field.end, field.next))
    else if s[p] == '}' then
      if p + 1 == |s| || s[p + 1] != '}' then Err(UnmatchedClose)
      else Prefixed(s[begin..p + 1], Replay(args, s, p + 2, p + 2, next))
    else
      Replay(args, s, begin, p + 1, next)
  }

  /** vformat: everything the run-time path writes, or the error it reports. */
  function RuntimeFormat(args: Args, s: string): Result<string> {
    Replay(args, s, 0, 0, 0)
  }

  lemma PrefixedTwice(a: string, b: string, r: Result<string>)
    ensures Prefixed(a, Prefixed(b, r)) == Prefixed(a + b, r)
  {
    if r.Ok? {
      assert a + (b + r.value) == a + b + r.value;
    }
  }

  lemma PrefixedNothing(r: Result<string>)
    ensures Prefixed("", r) == r
  {
    if r.Ok? {
      assert "" + r.value == r.value;
    }
  }

  /** parse_format_string with its handler: one pass over the string, appending to the output. */
  method ParseFormatString(args: Args, s: string) returns (r: Result<string>)
    ensures r == RuntimeFormat(args, s)
  {
    var out := "";
    var next := 0;
    var begin: nat, p: nat := 0, 0;
    PrefixedNothing(RuntimeFormat(args, s));
    while p != |s|
      invariant begin <= p <= |s|
      invariant RuntimeFormat(args, s) == Prefixed(out, Replay(args, s, begin, p, next))
      decreases |s| - p
    {
      var c := s[p];
      p := p + 1;
      if c == '{' {
        var field := ReplacementField(args, s, p - 1, next);
        if field.Err? {
          return Err(field.error);
        }
        PrefixedTwice(out, s[begin..p - 1] + field.value.out,
                      Replay(args, s, field.value.end, field.value.end, field.value.next));
        assert out + (s[begin..p - 1] + field.value.out) == out + s[begin..p - 1] + field.value.out;
        out := out + s[begin..p - 1];
        out := out + field.value.out;
        next := field.value.next;
        p := field.value.end;
        begin := p;
      } else if c == '}' {
        if p == |s| || s[p] != '}' {
          return Err(UnmatchedClose);
        }
        PrefixedTwice(out, s[begin..p], Replay(args, s, p + 1, p + 1, next));
        out := out + s[begin..p];
        p := p + 1;
        begin := p;
      }
    }
    r := Ok(out + s[begin..]);
  }

  // FMT_COMPILE.

  datatype Compiled =
    | Text(data: string)
    | CodeUnit(value: char)
    | Field(index: nat)
    | SpecdField(index: nat, spec: string)
    | Concat(lhs: Compiled, rhs: Compiled)

  /** parse_text: the end of the run of characters that are not braces. */
  function TextEnd(s: string, pos: nat): (end: nat)
    requires pos <= |s|
    ensures pos <= end <= |s|
    ensures forall i :: pos <= i < end ==> s[i] != '{' && s[i] != '}'
    ensures end < |s| ==> s[end] == '{' || s[end] == '}'
    decreases |s| - pos
  {
    if pos == |s| || s[pos] == '{' || s[pos] == '}' then pos else TextEnd(s, pos + 1)
  }

  method ParseText(s: string, pos: nat) returns (end: nat)
    requires pos <= |s|
    ensures end == TextEnd(s, pos)
  {
    end := pos;
    while end != |s|
      invariant pos <= end <= |s| && TextEnd(s, pos) == TextEnd(s, end)
    {
      if s[end] == '{' || s[end] == '}' {
        break;
      }
      end := end + 1;
    }
  }

  function ParseTail(args: Args, s: string, head: Compiled, pos: nat, id: int): Result<Compiled>
    requires pos <= |s|
    decreases |s| - pos, 1
  {
    if pos != |s| then
      match CompileFrom(args, s, pos, id)
      case Err(e) => Err(e)
      case Ok(tail) => Ok(Concat(head, tail))
    else
      Ok(head)
  }

  /** parse_replacement_field_then_tail, with the argument type looked up by get_type. */
  function FieldThenTail(args: Args, s: string, end: nat, index: int, nextId: int): Result<Compiled>
    requires end <= |s|
    decreases |s| - end, 0
  {
    if !(0 <= index < args.n) then Err(ArgumentNotFound)
    else if end != |s| && s[end] == '}' then ParseTail(args, s, Field(index), end + 1, nextId)
    else if end == |s| || s[end] != ':' then Err(InvalidFormat)
    else
      match args.specLength(index, s[end + 1..])
      case Err(_) => Err(BadSpec)
      case Ok(length) =>
        var specEnd := end + 1 + length;
        if specEnd >= |s| || s[specEnd] != '}' then Err(BadSpec)
        else ParseTail(args, s, SpecdField(index, s[end + 1..specEnd]), specEnd + 1, nextId)
  }

  function CompileFrom(args: Args, s: string, pos: nat, id: int): Result<Compiled>
    requires pos < |s|
    decreases |s| - pos, 0
  {
    if s[pos] == '{' then
      if pos + 1 == |s| then Err(InvalidFormat)
      else if s[pos + 1] == '{' then ParseTail(args, s, Text(s[pos..pos + 1]), pos + 2, id)
      else if s[pos + 1] == '}' || s[pos + 1] == ':' then
        if id == MANUAL then Err(MixedIndexing) else FieldThenTail(args, s, pos + 1, id, id + 1)
      else
        match ParseArgId(s, pos + 1)
        case Err(e) => Err(e)
        case Ok(arg) =>
          if id != MANUAL && id != 0 then Err(MixedIndexing)
          else FieldThenTail(args, s, arg.end, arg.index, MANUAL)
    else if s[pos] == '}' then
      if pos + 1 == |s| then Err(InvalidFormat)
      else ParseTail(args, s, Text(s[pos..pos + 1]), pos + 2, id)
    else
      var end := TextEnd(s, pos + 1);
      if end - pos > 1 then ParseTail(args, s, Text(s[pos..end]), end, id)
      else ParseTail(args, s, CodeUnit(s[pos]), end, id)
  }

  function Compile(args: Args, s: string): Result<Compiled> {
    if |s| == 0 then Ok(Text("")) else CompileFrom(args, s, 0, 0)
  }

  /** The format members of the pieces. */
  function Format(args: Args, piece: Compiled): string {
    match piece
    case Text(data) => data
    case CodeUnit(value) => [value]
    case Field(index) => args.write(index, "")
    case SpecdField(index, spec) => args.write(index, spec)
    case Concat(lhs, rhs) => Format(args, lhs) + Format(args, rhs)
  }

  function FormatResult(args: Args, piece: Result<Compiled>): Result<string> {
    match piece
    case Err(e) => Err(e)
    case Ok(p) => Ok(Format(args, p))
  }

  // Both readings agree.

  /** Text without braces only waits to be written. */
  lemma {:induction false} ReplaySkipsText(args: Args, s: string, begin: nat, p: nat, end: nat, next: int)
    requires begin <= p <= end <= |s|
    requires forall i :: p <= i < end ==> s[i] != '{' && s[i] != '}'
    ensures Replay(args, s, begin, p, next) == Replay(args, s, begin, end, next)
    decreases end - p
  {
    if p < end {
      ReplaySkipsText(args, s, begin, p + 1, end, next);
    }
  }

  lemma {:induction false} ReplayPending(args: Args, s: string, begin: nat, p: nat, next: int)
    requires begin <= p <= |s|
    ensures Replay(args, s, begin, p, next) == Prefixed(s[begin..p], Replay(args, s, p, p, next))
    decreases |s| - p
  {
    if p == |s| {
      assert s[begin..] == s[begin..p] + s[p..];
    } else if s[p] == '{' {
      var field := ReplacementField(args, s, p, next);
      if field.Ok? {
        assert s[p..p] + field.value.out == field.value.out;
        PrefixedTwice(s[begin..p], field.value.out, Replay(args, s, field.value.end, field.value.end, field.value.next));
      }
    } else if s[p] == '}' {
      if p + 1 < |s| {
        assert s[begin..p + 1] == s[begin..p] + s[p..p + 1];
        PrefixedTwice(s[begin..p], s[p..p + 1], Replay(args, s, p + 2, p + 2, next));
      }
    } else {
      ReplayPending(args, s, begin, p + 1, next);
      ReplayPending(args, s, p, p + 1, next);
      assert s[begin..p + 1] == s[begin..p] + s[p..p + 1];
      PrefixedTwice(s[begin..p], s[p..p + 1], Replay(args, s, p + 1, p + 1, next));
    }
  }

  /** The two agree on a rest of the string, unless the run-time parser finds an unmatched '}' there. */
  ghost predicate AgreesFrom(args: Args, s: string, pos: nat, id: int)
    requires pos <= |s|
  {
    var runtime := Replay(args, s, pos, pos, id);
    var tail := if pos == |s| then Ok("") else FormatResult(args, CompileFrom(args, s, pos, id));
    runtime == Err(UnmatchedClose) || if runtime.Ok? then tail == runtime else tail.Err?
  }

  lemma TailAgrees(args: Args, s: string, head: Compiled, pos: nat, id: int)
    requires pos <= |s| && AgreesFrom(args, s, pos, id)
    ensures var runtime := Prefixed(Format(args, head), Replay(args, s, pos, pos, id));
            var compiled := FormatResult(args, ParseTail(args, s, head, pos, id));
            runtime == Err(UnmatchedClose) || if runtime.Ok? then compiled == runtime else compiled.Err?
  {
    if pos == |s| {
      assert Format(args, head) + "" == Format(args, head);
    }
  }

  lemma FieldAgrees(args: Args, s: string, end: nat, index: nat, next: int)
    requires end < |s| && s[end] in "}:" && index < args.n
    requires forall p :: end < p <= |s| ==> AgreesFrom(args, s, p, next)
    ensures var field := if s[end] == '}' then PlainField(args, end + 1, index, next)
                         else SpecField(args, s, end + 1, index, next);
            var runtime := if field.Err? then Err(field.error)
                           else Prefixed(field.value.out, Replay(args, s, field.value.end, field.value.end, next));
            var compiled := FormatResult(args, FieldThenTail(args, s, end, index, next));
            runtime == Err(UnmatchedClose) || if runtime.Ok? then compiled == runtime else compiled.Err?
  {
    if s[end] == '}' {
      TailAgrees(args, s, Field(index), end + 1, next);
    } else {
      var length := args.specLength(index, s[end + 1..]);
      if length.Ok? {
        var specEnd := end + 1 + length.value;
        if specEnd < |s| && s[specEnd] == '}' {
          TailAgrees(args, s, SpecdField(index, s[end + 1..specEnd]), specEnd + 1, next);
        }
      }
    }
  }

  lemma {:induction false} CompileAgreesFrom(args: Args, s: string, pos: nat, id: int)
    requires pos <= |s| && id >= MANUAL
    ensures AgreesFrom(args, s, pos, id)
    decreases |s| - pos
  {
    if pos == |s| {
      assert s[pos..] == "";
    } else if s[pos] == '{' {
      OpenBraceAgrees(args, s, pos, id);
    } else if s[pos] == '}' {
      if pos + 1 < |s| && s[pos + 1] == '}' {
        CompileAgreesFrom(args, s, pos + 2, id);
        TailAgrees(args, s, Text(s[pos..pos + 1]), pos + 2, id);
      }
    } else {
      var end := TextEnd(s, pos + 1);
      CompileAgreesFrom(args, s, end, id);
      ReplaySkipsText(args, s, pos, pos, end, id);
      ReplayPending(args, s, pos, end, id);
      TailAgrees(args, s, if end - pos > 1 then Text(s[pos..end]) else CodeUnit(s[pos]), end, id);
      assert end - pos == 1 ==> s[pos..end] == [s[pos]];
    }
  }

  lemma {:induction false} OpenBraceAgrees(args: Args, s: string, pos: nat, id: int)
    requires pos < |s| && id >= MANUAL && s[pos] == '{'
    ensures AgreesFrom(args, s, pos, id)
    decreases |s| - pos, 0
  {
    forall p, next | pos < p <= |s| && next >= MANUAL ensures AgreesFrom(args, s, p, next) {
      CompileAgreesFrom(args, s, p, next);
    }
    if pos + 1 < |s| && s[pos + 1] == '{' {
      assert s[pos..pos] == "";
      assert s[pos..pos + 1] == s[pos + 1..pos + 2];
      TailAgrees(args, s, Text(s[pos..pos + 1]), pos + 2, id);
      var field := ReplacementField(args, s, pos, id);
      assert "" + field.value.out == field.value.out;
    } else {
      ArgumentAgrees(args, s, pos, id);
    }
  }

  lemma ArgumentAgrees(args: Args, s: string, pos: nat, id: int)
    requires pos < |s| && id >= MANUAL && s[pos] == '{' && (pos + 1 < |s| ==> s[pos + 1] != '{')
    requires forall p, next | pos < p <= |s| && next >= MANUAL :: AgreesFrom(args, s, p, next)
    ensures AgreesFrom(args, s, pos, id)
  {
    assert s[pos..pos] == "";
    var field := ReplacementField(args, s, pos, id);
    if field.Ok? {
      assert "" + field.value.out == field.value.out;
      if s[pos + 1] == '}' || s[pos + 1] == ':' {
        if 0 <= id < args.n {
          FieldAgrees(args, s, pos + 1, id, id + 1);
        }
      } else {
        var arg := ParseArgId(s, pos + 1);
        if arg.Ok? && id <= 0 && arg.value.index < args.n {
          FieldAgrees(args, s, arg.value.end, arg.value.index, MANUAL);
        }
      }
    }
  }

  /** Whatever the run-time parser accepts is compiled to a tree that writes the same. */
  lemma CompilationPreservesMeaning(args: Args, s: string)
    requires RuntimeFormat(args, s).Ok?
    ensures Compile(args, s).Ok? && Format(args, Compile(args, s).value) == RuntimeFormat(args, s).value
  {
    if |s| > 0 {
      CompileAgreesFrom(args, s, 0, 0);
    }
  }

  /** Where a field ends, and the automatic index after it. */
  datatype Extent = Extent(end: nat, next: int)

  function SpecExtent(args: Args, s: string, begin: nat, id: int, next: int): Result<Extent>
    requires begin <= |s|
  {
    if id < 0 then Err(BadSpec)
    else
      match args.specLength(id, s[begin..])
      case Err(_) => Err(BadSpec)
      case Ok(length) => if begin + length < |s| then Ok(Extent(begin + length + 1, next)) else Err(BadSpec)
  }

  /**
   The extent of a field, or of an escaped opening brace, by the text alone: only where there is a
   specification, its length depends on which argument it is for.
   */
  function FieldExtent(args: Args, s: string, pos: nat, next: int): (r: Result<Extent>)
    requires pos < |s|
    ensures r.Ok? ==> pos < r.value.end <= |s|
  {
    var begin := pos + 1;
    if begin == |s| then Err(InvalidFormat)
    else if s[begin] == '}' then Ok(Extent(begin + 1, next + 1))
    else if s[begin] == '{' then Ok(Extent(begin + 1, next))
    else if s[begin] == ':' then SpecExtent(args, s, begin + 1, next, next + 1)
    else
      match ParseArgId(s, begin)
      case Err(e) => Err(e)
      case Ok(arg) =>
        if s[arg.end] == '}' then Ok(Extent(arg.end + 1, MANUAL))
        else SpecExtent(args, s, arg.end + 1, arg.index, MANUAL)
  }

  /** Outside the replacement fields there is a '}' that is not followed by another. */
  predicate HasLoneClose(args: Args, s: string, pos: nat, next: int)
    requires pos <= |s|
    decreases |s| - pos
  {
    pos < |s| &&
    if s[pos] == '{' then
      match FieldExtent(args, s, pos, next)
      case Err(_) => false
      case Ok(field) => HasLoneClose(args, s, field.end, field.next)
    else if s[pos] == '}' then
      pos + 1 == |s| || s[pos + 1] != '}' || HasLoneClose(args, s, pos + 2, next)
    else
      HasLoneClose(args, s, pos + 1, next)
  }

  lemma FieldHasExtent(args: Args, s: string, pos: nat, next: int)
    requires pos < |s|
    ensures var field := ReplacementField(args, s, pos, next);
            && (field.Ok? ==> FieldExtent(args, s, pos, next) == Ok(Extent(field.value.end, field.value.next)))
            && field != Err(UnmatchedClose)
  {
  }

  /** If nothing else is wrong, the run-time parser stops at the first lone '}', or not at all. */
  lemma {:induction false} UnmatchedCloseIff(args: Args, s: string, begin: nat, p: nat, next: int)
    requires begin <= p <= |s|
    requires var r := Replay(args, s, begin, p, next); r.Ok? || r == Err(UnmatchedClose)
    ensures Replay(args, s, begin, p, next) == Err(UnmatchedClose) <==> HasLoneClose(args, s, p, next)
    decreases |s| - p
  {
    hide ReplacementField, FieldExtent;
    if p < |s| {
      if s[p] == '{' {
        FieldHasExtent(args, s, p, next);
        var field := ReplacementField(args, s, p, next);
        UnmatchedCloseIff(args, s, field.value.end, field.value.end, field.value.next);
      } else if s[p] != '}' {
        UnmatchedCloseIff(args, s, begin, p + 1, next);
      } else if p + 1 < |s| && s[p + 1] == '}' {
        UnmatchedCloseIff(args, s, p + 2, p + 2, next);
      }
    }
  }

  /** And what it rejects is rejected, but for one thing: the compiler does not look at what follows a '}'. */
  lemma CompiledIsAcceptedIff(args: Args, s: string)
    requires Compile(args, s).Ok?
    ensures RuntimeFormat(args, s).Ok? <==> !HasLoneClose(args, s, 0, 0)
  {
    hide HasLoneClose;
    if |s| > 0 {
      CompileAgreesFrom(args, s, 0, 0);
    }
    UnmatchedCloseIff(args, s, 0, 0, 0);
  }

  /** For instance "}x" compiles, to a lone brace, and is an error at run time. */
  lemma UnmatchedCloseCompiles(args: Args)
    ensures RuntimeFormat(args, "}x") == Err(UnmatchedClose)
    ensures Compile(args, "}x") == Ok(Text("}"))
  {
    assert "}x"[0..1] == "}";
  }

  // What a format string means, apart from any parser.

  /** A character, or a field with an automatic or a given index and a specification, which may be empty. */
  datatype Piece = Literal(c: char) | Automatic(spec: string) | Manual(index: nat, spec: string)

  function PrintSpec(spec: string): string {
    if spec == "" then "" else ":" + spec
  }

  function PrintPiece(piece: Piece): string {
    match piece
    case Literal(c) => if c == '{' || c == '}' then [c, c] else [c]
    case Automatic(spec) => "{" + (PrintSpec(spec) + "}")
    case Manual(index, spec) => "{" + (Decimal(index) + (PrintSpec(spec) + "}"))
  }

  function Print(pieces: seq<Piece>): string {
    if pieces == [] then "" else PrintPiece(pieces[0]) + Print(pieces[1..])
  }

  /** How indices are given so far: only automatically, so many times, or only by number. */
  datatype Indexing = Counted(n: nat) | Numbered

  function FieldMeaning(args: Args, index: nat, spec: string, rest: Result<string>): Result<string> {
    if index < args.n then Prefixed(args.write(index, spec), rest) else Err(ArgumentNotFound)
  }

  /** Characters stand for themselves; automatic indices count up from zero, and do not mix with given ones. */
  function Meaning(args: Args, pieces: seq<Piece>, before: Indexing): Result<string> {
    if pieces == [] then Ok("")
    else
      match pieces[0]
      case Literal(c) => Prefixed([c], Meaning(args, pieces[1..], before))
      case Automatic(spec) =>
        if before == Numbered then Err(MixedIndexing)
        else FieldMeaning(args, before.n, spec, Meaning(args, pieces[1..], Counted(before.n + 1)))
      case Manual(index, spec) =>
        if before != Numbered && before.n > 0 then Err(MixedIndexing)
        else FieldMeaning(args, index, spec, Meaning(args, pieces[1..], Numbered))
  }

  /** The specification is one for every argument: it is read up to its end, whatever follows the brace. */
  ghost predicate Understood(args: Args, spec: string) {
    spec == "" || forall id: nat, rest: string :: id < args.n ==> args.specLength(id, spec + ("}" + rest)) == Ok(|spec|)
  }

  ghost predicate AllUnderstood(args: Args, pieces: seq<Piece>) {
    forall i :: 0 <= i < |pieces| ==> pieces[i].Literal? || Understood(args, pieces[i].spec)
  }

  lemma LiteralReplays(args: Args, s: string, p: nat, c: char, next: int)
    requires At(s, p, PrintPiece(Literal(c)))
    ensures var q := p + |PrintPiece(Literal(c))|;
            Replay(args, s, p, p, next) == Prefixed([c], Replay(args, s, q, q, next))
  {
    assert PrintPiece(Literal(c))[0] == s[p];
    assert s[p..p] == "" && s[p..p + 1] == [c];
    if c == '{' || c == '}' {
      assert PrintPiece(Literal(c))[1] == s[p + 1];
      assert s[p + 1..p + 2] == [c];
      assert "" + [c] == [c];
    } else {
      ReplayPending(args, s, p, p + 1, next);
    }
  }

  /** What a field of a known index writes, if that argument exists. */
  function FieldAt(args: Args, index: int, spec: string, end: nat, next: int): Result<FieldResult> {
    if 0 <= index < args.n then Ok(FieldResult(args.write(index, spec), end, next)) else Err(ArgumentNotFound)
  }

  lemma FieldReplays(args: Args, s: string, p: nat, index: nat, spec: string, q: nat, next: int, next': int)
    requires p < q <= |s| && s[p] == '{'
    requires ReplacementField(args, s, p, next) == FieldAt(args, index, spec, q, next')
    ensures Replay(args, s, p, p, next) == FieldMeaning(args, index, spec, Replay(args, s, q, q, next'))
  {
    hide ReplacementField;
    if index < args.n {
      assert s[p..p] + args.write(index, spec) == args.write(index, spec);
    }
  }

  lemma CharAt(s: string, p: nat, c: char, rest: string)
    requires At(s, p, [c] + rest)
    ensures p < |s| && s[p] == c && At(s, p + 1, rest)
  {
    AtConcat(s, p, [c], rest);
    assert [c][0] == s[p];
  }

  /** A closing brace, or a specification and one. */
  lemma SpecIsRead(args: Args, s: string, p: nat, index: nat, spec: string, next: int)
    requires spec != "" && Understood(args, spec) && At(s, p, spec + "}")
    ensures SpecField(args, s, p, index, next) == FieldAt(args, index, spec, p + |spec| + 1, next)
  {
    var end := p + |spec|;
    AtConcat(s, p, spec, "}");
    assert "}"[0] == s[end];
    AtSlice(s, p, spec);
    assert s[p..] == spec + ("}" + s[end + 1..]);
  }

  lemma AutomaticReplays(args: Args, s: string, p: nat, spec: string, next: nat)
    requires Understood(args, spec) && At(s, p, PrintPiece(Automatic(spec)))
    ensures var q := p + |PrintPiece(Automatic(spec))|;
            && p < q <= |s| && s[p] == '{'
            && ReplacementField(args, s, p, next) == FieldAt(args, next, spec, q, next + 1)
            && ReplacementField(args, s, p, MANUAL) == Err(MixedIndexing)
  {
    CharAt(s, p, '{', PrintSpec(spec) + "}");
    if spec == "" {
      assert PrintSpec(spec) + "}" == ['}'] + "";
      CharAt(s, p + 1, '}', "");
    } else {
      Associates(":", spec, "}");
      CharAt(s, p + 1, ':', spec + "}");
      SpecIsRead(args, s, p + 2, next, spec, next + 1);
    }
  }

  lemma ManualLayout(s: string, p: nat, n: nat, spec: string)
    requires At(s, p, PrintPiece(Manual(n, spec)))
    ensures var end := p + 1 + |Decimal(n)|;
            && end < |s| && p + |PrintPiece(Manual(n, spec))| == end + |PrintSpec(spec)| + 1 <= |s| && Decimal(n) != ""
            && s[p] == '{' && At(s, p + 1, Decimal(n)) && IsDigit(s[p + 1])
            && s[end] == (if spec == "" then '}' else ':') && (spec != "" ==> At(s, end + 1, spec + "}"))
  {
    hide Decimal, AllDigits, Value;
    var digits := Decimal(n);
    var end := p + 1 + |digits|;
    DecimalValue(n);
    CharAt(s, p, '{', digits + (PrintSpec(spec) + "}"));
    AtConcat(s, p + 1, digits, PrintSpec(spec) + "}");
    FirstDigit(s, p + 1, digits);
    if spec == "" {
      assert PrintSpec(spec) + "}" == ['}'] + "";
      CharAt(s, end, '}', "");
    } else {
      Associates(":", spec, "}");
      CharAt(s, end, ':', spec + "}");
    }
  }

  lemma FirstDigit(s: string, p: nat, digits: string)
    requires At(s, p, digits) && digits != "" && AllDigits(digits)
    ensures p < |s| && IsDigit(s[p])
  {
    assert digits[0] == s[p];
  }

  lemma ManualReplays(args: Args, s: string, p: nat, n: nat, spec: string, next: int)
    requires args.n <= INT_MAX && Understood(args, spec) && At(s, p, PrintPiece(Manual(n, spec)))
    ensures var q := p + |PrintPiece(Manual(n, spec))|;
            && p < q <= |s| && s[p] == '{'
            && ReplacementField(args, s, p, next)
                 == if next > 0 then Err(MixedIndexing) else FieldAt(args, n, spec, q, MANUAL)
  {
    hide Decimal, ParseArgId, PrintPiece, Understood;
    ManualLayout(s, p, n, spec);
    ArgIdPrinted(s, p + 1, n);
    var end := p + 1 + |Decimal(n)|;
    if spec != "" {
      SpecIsRead(args, s, end + 1, n, spec, MANUAL);
      if n > INT_MAX {
        SpecIsRead(args, s, end + 1, INT_MAX, spec, MANUAL);
      }
    }
  }

  function NextOf(before: Indexing): int {
    match before
    case Counted(n) => n
    case Numbered => MANUAL
  }

  lemma PieceReplays(args: Args, s: string, p: nat, piece: Piece, before: Indexing)
    requires args.n <= INT_MAX && (piece.Literal? || Understood(args, piece.spec)) && At(s, p, PrintPiece(piece))
    ensures var q := p + |PrintPiece(piece)|;
            && p < q <= |s|
            && Replay(args, s, p, p, NextOf(before)) ==
                 match piece {
                   case Literal(c) => Prefixed([c], Replay(args, s, q, q, NextOf(before)))
                   case Automatic(spec) =>
                     if before == Numbered then Err(MixedIndexing)
                     else FieldMeaning(args, before.n, spec, Replay(args, s, q, q, NextOf(Counted(before.n + 1))))
                   case Manual(index, spec) =>
                     if before != Numbered && before.n > 0 then Err(MixedIndexing)
                     else FieldMeaning(args, index, spec, Replay(args, s, q, q, NextOf(Numbered)))
                 }
  {
    hide ReplacementField, FieldMeaning, FieldAt, Understood;
    var q := p + |PrintPiece(piece)|;
    match piece {
      case Literal(c) =>
        LiteralReplays(args, s, p, c, NextOf(before));
      case Automatic(spec) =>
        var n := if before == Numbered then 0 else before.n;
        hide PrintPiece;
        AutomaticReplays(args, s, p, spec, n);
        if before != Numbered {
          FieldReplays(args, s, p, n, spec, q, n, n + 1);
        }
      case Manual(index, spec) =>
        hide PrintPiece;
        ManualReplays(args, s, p, index, spec, NextOf(before));
        if NextOf(before) <= 0 {
          FieldReplays(args, s, p, index, spec, q, NextOf(before), MANUAL);
        }
    }
  }

  lemma {:induction false} PrintedFrom(args: Args, s: string, p: nat, pieces: seq<Piece>, before: Indexing)
    requires args.n <= INT_MAX && AllUnderstood(args, pieces) && At(s, p, Print(pieces)) && p + |Print(pieces)| == |s|
    ensures Replay(args, s, p, p, NextOf(before)) == Meaning(args, pieces, before)
    decreases |pieces|
  {
    hide PrintPiece, Understood, FieldMeaning;
    if pieces == [] {
      assert s[p..] == "";
    } else {
      hide Replay;
      var head, rest := pieces[0], pieces[1..];
      var q := p + |PrintPiece(head)|;
      AtConcat(s, p, PrintPiece(head), Print(rest));
      PieceReplays(args, s, p, head, before);
      match head {
        case Literal(c) => PrintedFrom(args, s, q, rest, before);
        case Automatic(_) =>
          if before != Numbered {
            PrintedFrom(args, s, q, rest, Counted(before.n + 1));
          }
        case Manual(_, _) => PrintedFrom(args, s, q, rest, Numbered);
      }
    }
  }

  /**
   Text, escapes, automatic and manual fields, with or without specifications and however they are
   combined, are formatted as they read.
   */
  lemma PrintedFormatMeans(args: Args, pieces: seq<Piece>)
    requires args.n <= INT_MAX && AllUnderstood(args, pieces)
    ensures RuntimeFormat(args, Print(pieces)) == Meaning(args, pieces, Counted(0))
  {
    PrintedFrom(args, Print(pieces), 0, pieces, Counted(0));
  }
}
