/**
 The fields of a log line: what each flag writes, and the size it declares to its padder.
 */
module LogFields {
  import opened Calendar
  import opened FileNames
  import opened Options
  import opened Padding

  /** Where a message comes from; without a positive line it counts as unknown. */
  datatype Source = Source(filename: string, line: int) {
    predicate Empty() {
      line <= 0
    }

    /** The name without its directories. */
    function Basename(): string {
      filename[LastOf(filename, FOLDER_SEPS) + 1..]
    }
  }

  /** A message at or after the epoch: its second, the milliseconds within, and its texts. */
  datatype LogMsg = LogMsg(second: nat, millis: nat, name: string, level: string, source: Source, payload: string)

  /**
   The broken-down time of a second, the time zone, what the remaining flags write and the size they
   declare, and what a custom flag makes of the buffer when it is given whether and how to pad.
   */
  datatype Env = Env(
    getTime: nat -> Tm,
    zone: (LogMsg, Tm) -> string,
    plain: (char, LogMsg) -> string,
    plainSize: (char, LogMsg) -> nat,
    custom: (char, PaddingInfo, string, LogMsg, Tm) -> string)

  // Numbers and names.

  function AppendInt(n: int): string {
    if n < 0 then "-" + Decimal(-n) else Decimal(n)
  }

  function Pad2(n: int): string {
    if 0 <= n < 10 then "0" + Decimal(n) else AppendInt(n)
  }

  function Pad3(n: nat): string {
    if n < 10 then "00" + Decimal(n) else if n < 100 then "0" + Decimal(n) else Decimal(n)
  }

  const DAYS := ["Sun", "Mon", "Tue", "Wed", "Thu", "Fri", "Sat"]
  const FULL_DAYS := ["Sunday", "Monday", "Tuesday", "Wednesday", "Thursday", "Friday", "Saturday"]
  const MONTHS := ["Jan", "Feb", "Mar", "Apr", "May", "Jun", "Jul", "Aug", "Sep", "Oct", "Nov", "Dec"]
  const FULL_MONTHS := ["January", "February", "March", "April", "May", "June", "July", "August", "September",
                        "October", "November", "December"]

  /** A broken-down time never indexes outside of its table. */
  function Name(names: seq<string>, i: int): string {
    if 0 <= i < |names| then names[i] else ""
  }

  function AmPm(tm: Tm): string {
    if tm.hour >= 12 then "PM" else "AM"
  }

  function To12h(tm: Tm): int {
    if tm.hour > 12 then tm.hour - 12 else tm.hour
  }

  // The full formatter.

  function DateText(tm: Tm): string {
    "[" + AppendInt(tm.year + 1900) + "-" + DayText(tm)
  }

  function DayText(tm: Tm): string {
    Pad2(tm.mon + 1) + "-" + Pad2(tm.mday) + " " + Pad2(tm.hour) + ":" + Pad2(tm.min) + ":" + Pad2(tm.sec) + "."
  }

  function Bracketed(s: string): string {
    "[" + s + "] "
  }

  function SourceText(source: Source): string {
    if source.Empty() then "" else Bracketed(source.Basename() + ":" + AppendInt(source.line))
  }

  /** What the full formatter writes after the date. */
  function FullTail(msg: LogMsg): string {
    Pad3(msg.millis) + "] " + (if msg.name == "" then "" else Bracketed(msg.name)) + Bracketed(msg.level)
    + SourceText(msg.source) + msg.payload
  }

  // The flags.

  /** What the flags write that read the broken-down time and nothing else. */
  function ClockText(flag: char, tm: Tm): Option<string> {
    match flag
    case 'a' => Some(Name(DAYS, tm.wday))
    case 'A' => Some(Name(FULL_DAYS, tm.wday))
    case 'b' => Some(Name(MONTHS, tm.mon))
    case 'h' => Some(Name(MONTHS, tm.mon))
    case 'B' => Some(Name(FULL_MONTHS, tm.mon))
    case 'c' => Some(Name(DAYS, tm.wday) + " " + Name(MONTHS, tm.mon) + " " + AppendInt(tm.mday) + " "
                     + Pad2(tm.hour) + ":" + Pad2(tm.min) + ":" + Pad2(tm.sec) + " " + AppendInt(tm.year + 1900))
    case 'C' => Some(Pad2(TruncMod(tm.year, 100)))
    case 'Y' => Some(AppendInt(tm.year + 1900))
    case 'D' => Some(Pad2(tm.mon + 1) + "/" + Pad2(tm.mday) + "/" + Pad2(TruncMod(tm.year, 100)))
    case 'x' => Some(Pad2(tm.mon + 1) + "/" + Pad2(tm.mday) + "/" + Pad2(TruncMod(tm.year, 100)))
    case 'm' => Some(Pad2(tm.mon + 1))
    case 'd' => Some(Pad2(tm.mday))
    case 'H' => Some(Pad2(tm.hour))
    case 'I' => Some(Pad2(To12h(tm)))
    case 'M' => Some(Pad2(tm.min))
    case 'S' => Some(Pad2(tm.sec))
    case 'p' => Some(AmPm(tm))
    case 'r' => Some(Pad2(To12h(tm)) + ":" + Pad2(tm.min) + ":" + Pad2(tm.sec) + " " + AmPm(tm))
    case 'R' => Some(Pad2(tm.hour) + ":" + Pad2(tm.min))
    case 'T' => Some(Pad2(tm.hour) + ":" + Pad2(tm.min) + ":" + Pad2(tm.sec))
    case 'X' => Some(Pad2(tm.hour) + ":" + Pad2(tm.min) + ":" + Pad2(tm.sec))
    case _ => None
  }

  /** The sizes the same flags declare, where they are fixed. */
  function ClockSize(flag: char): nat {
    match flag
    case 'c' => 24
    case 'r' => 11
    case 'D' => 8
    case 'x' => 8
    case 'T' => 8
    case 'X' => 8
    case 'R' => 5
    case 'Y' => 4
    case _ => 2
  }

  function MessageText(env: Env, flag: char, msg: LogMsg): string {
    match flag
    case 'n' => msg.name
    case 'l' => msg.level
    case 'v' => msg.payload
    case 'e' => Pad3(msg.millis)
    case 'E' => Decimal(msg.second)
    case 's' => if msg.source.Empty() then "" else msg.source.Basename()
    case 'g' => if msg.source.Empty() then "" else msg.source.filename
    case '#' => if msg.source.Empty() then "" else AppendInt(msg.source.line)
    case '@' => if msg.source.Empty() then "" else msg.source.filename + ":" + AppendInt(msg.source.line)
    case _ => env.plain(flag, msg)
  }

  function FieldText(env: Env, flag: char, msg: LogMsg, tm: Tm): string {
    if flag == 'z' then env.zone(msg, tm)
    else
      match ClockText(flag, tm)
      case Some(text) => text
      case None => MessageText(env, flag, msg)
  }

  function FieldSize(env: Env, flag: char, msg: LogMsg, tm: Tm): nat {
    if flag == 'z' then 6
    else if flag in "aAbhB" then |FieldText(env, flag, msg, tm)|
    else if ClockText(flag, tm).Some? then ClockSize(flag)
    else if flag == 'e' then 3
    else if flag == 'E' then 10
    else if flag in "nlvsg#@" then |MessageText(env, flag, msg)|
    else env.plainSize(flag, msg)
  }
}
