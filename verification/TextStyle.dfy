/**
 Text styles packed into one 64-bit word: bits 0 to 25 hold the foreground colour, bit 26 catches its
 overflow, bits 27 to 52 and 53 do the same for the background, and bits 54 to 61 hold emphases.
 */
module TextStyle {

  import opened Options
  import opened Words

  const BIT24 := 0x100_0000
  const BIT25 := 0x200_0000
  const BIT26 := 0x400_0000
  const BIT27 := 0x800_0000
  const BIT51 := 0x8_0000_0000_0000
  const BIT53 := 0x20_0000_0000_0000
  const BIT54 := 0x40_0000_0000_0000

  // color_type.

  /** What a colour is: 24 bits of red, green and blue, or one of the terminal's own colours. */
  datatype Color = Unset | Rgb(value: nat) | Terminal(code: nat) {
    predicate Valid() {
      match this
      case Unset => true
      case Rgb(value) => value < BIT24
      case Terminal(code) => code < 256
    }
  }

  function ColorWord(c: Color): nat {
    match c
    case Unset => 0
    case Rgb(value) => BitOr(value, BIT24)
    case Terminal(code) => BitOr(code, 3 * BIT24)
  }

  /** is_terminal_color and value, where a colour is set. */
  function ColorOf(word: nat): Color {
    if TestBit(word, BIT25) then Terminal(word % BIT24) else Rgb(word % BIT24)
  }

  // text_style.

  function Fg(c: Color): nat {
    ColorWord(c)
  }

  function Bg(c: Color): nat {
    ColorWord(c) * BIT27
  }

  function Emphasized(em: nat): nat {
    em * BIT54
  }

  /** operator|=, None being the reported error. */
  function Or(lhs: nat, rhs: nat): Option<nat> {
    var sum := (lhs + rhs) % WORD;
    if TestBit(sum, BIT26) || TestBit(sum, BIT53) then None else Some(BitOr(lhs, rhs))
  }

  function GetForeground(style: nat): Color {
    if TestBit(style, BIT24) then ColorOf(style % BIT26) else Unset
  }

  function GetBackground(style: nat): Color {
    if TestBit(style, BIT51) then ColorOf(style / BIT27 % BIT26) else Unset
  }

  function GetEmphasis(style: nat): nat {
    style / BIT54
  }

  // The unpacked form.

  datatype Style = Style(fg: Color, bg: Color, em: nat) {
    predicate Valid() {
      fg.Valid() && bg.Valid() && em < 256
    }
  }

  /** Colours combine unless a terminal colour meets any colour. */
  function Combine(a: Color, b: Color): Option<Color> {
    if a.Unset? then Some(b)
    else if b.Unset? then Some(a)
    else if a.Rgb? && b.Rgb? then Some(Rgb(BitOr(a.value, b.value)))
    else None
  }

  function Merge(s: Style, t: Style): Option<Style> {
    match (Combine(s.fg, t.fg), Combine(s.bg, t.bg))
    case (Some(fg), Some(bg)) => Some(Style(fg, bg, BitOr(s.em, t.em)))
    case _ => None
  }

  function Fields(fg: nat, bg: nat, em: nat): nat {
    fg + bg * BIT27 + em * BIT54
  }

  /** The layout: each part in its field. */
  function Pack(s: Style): nat {
    Fields(ColorWord(s.fg), ColorWord(s.bg), s.em)
  }

  lemma Powers()
    ensures Pow2(8) == 256 && Pow2(24) == BIT24 && Pow2(26) == BIT26 && Pow2(27) == BIT27
  {
    assert Pow2(4) == 16;
    assert Pow2(8) == 256;
    assert Pow2(12) == 4096;
    assert Pow2(16) == 65536;
    assert Pow2(20) == 1048576;
    assert Pow2(24) == BIT24;
  }

  /** A colour word is the value with the discriminator above it. */
  lemma ColorWordIs(c: Color)
    requires c.Valid()
    ensures ColorWord(c) == match c { case Unset => 0 case Rgb(v) => v + BIT24 case Terminal(v) => v + 3 * BIT24 }
  {
    Powers();
    if !c.Unset? {
      var v := if c.Rgb? then c.value else c.code;
      var discriminator := if c.Rgb? then 1 else 3;
      OrOfFields(24, BIT24, v, 0, 0, discriminator);
      OrWithZero(v);
      OrWithZero(discriminator);
    }
  }

  lemma CombinedWord(a: Color, b: Color)
    requires a.Valid() && b.Valid() && Combine(a, b).Some?
    ensures Combine(a, b).value.Valid()
    ensures BitOr(ColorWord(a), ColorWord(b)) == ColorWord(Combine(a, b).value)
  {
    if a.Unset? {
      OrWithZero(ColorWord(b));
    } else if b.Unset? {
      OrWithZero(ColorWord(a));
    } else {
      Powers();
      ColorWordIs(a);
      ColorWordIs(b);
      OrOfFields(24, BIT24, a.value, b.value, 1, 1);
      assert BitOr(1, 1) == 1;
      ColorWordIs(Combine(a, b).value);
    }
  }

  lemma OrOfStyles(f1: nat, b1: nat, e1: nat, f2: nat, b2: nat, e2: nat)
    requires f1 < BIT27 && b1 < BIT27 && f2 < BIT27 && b2 < BIT27
    ensures BitOr(Fields(f1, b1, e1), Fields(f2, b2, e2)) == Fields(BitOr(f1, f2), BitOr(b1, b2), BitOr(e1, e2))
  {
    Powers();
    OrOfFields(27, BIT27, f1, f2, b1 + BIT27 * e1, b2 + BIT27 * e2);
    OrOfFields(27, BIT27, b1, b2, e1, e2);
    assert Fields(f1, b1, e1) == f1 + BIT27 * (b1 + BIT27 * e1);
    assert Fields(f2, b2, e2) == f2 + BIT27 * (b2 + BIT27 * e2);
  }

  // The overflow bits.

  /** No field carries into the next, so the overflow bits of a sum tell about one colour each. */
  lemma OverflowOfFields(fg: nat, bg: nat, em: nat)
    requires fg < BIT27 && bg < BIT27 && em < 512
    ensures Fields(fg, bg, em) < WORD
    ensures TestBit(Fields(fg, bg, em), BIT26) <==> fg >= BIT26
    ensures TestBit(Fields(fg, bg, em), BIT53) <==> bg >= BIT26
  {
    var w := Fields(fg, bg, em);
    var high := if fg >= BIT26 then 1 else 0;
    assert w / BIT26 == high + 2 * (bg + BIT27 * em);
    var upper := if bg >= BIT26 then 1 else 0;
    assert w / BIT53 == upper + 2 * em;
  }

  lemma SumOverflowsIff(f1: nat, b1: nat, e1: nat, f2: nat, b2: nat, e2: nat)
    requires f1 < BIT26 && b1 < BIT26 && f2 < BIT26 && b2 < BIT26 && e1 < 256 && e2 < 256
    ensures Or(Fields(f1, b1, e1), Fields(f2, b2, e2)).None? <==> f1 + f2 >= BIT26 || b1 + b2 >= BIT26
  {
    var sum := Fields(f1 + f2, b1 + b2, e1 + e2);
    assert Fields(f1, b1, e1) + Fields(f2, b2, e2) == sum;
    OverflowOfFields(f1 + f2, b1 + b2, e1 + e2);
  }

  /** Two colours overflow exactly if they must not be combined. */
  lemma ColorsOverflowIff(a: Color, b: Color)
    requires a.Valid() && b.Valid()
    ensures ColorWord(a) < BIT26 && ColorWord(b) < BIT26
    ensures ColorWord(a) + ColorWord(b) >= BIT26 <==> Combine(a, b).None?
  {
    ColorWordIs(a);
    ColorWordIs(b);
  }

  /**
   operator|= on packed styles is the merge of what they stand for; it reports an error exactly when,
   for the foreground or the background, a terminal colour meets a set one.
   */
  lemma OrIsMerge(s: Style, t: Style)
    requires s.Valid() && t.Valid()
    ensures Or(Pack(s), Pack(t)).None? <==> Merge(s, t).None?
    ensures Merge(s, t).Some? ==> Merge(s, t).value.Valid() && Or(Pack(s), Pack(t)) == Some(Pack(Merge(s, t).value))
  {
    ColorsOverflowIff(s.fg, t.fg);
    ColorsOverflowIff(s.bg, t.bg);
    SumOverflowsIff(ColorWord(s.fg), ColorWord(s.bg), s.em, ColorWord(t.fg), ColorWord(t.bg), t.em);
    if Merge(s, t).Some? {
      CombinedWord(s.fg, t.fg);
      CombinedWord(s.bg, t.bg);
      OrOfStyles(ColorWord(s.fg), ColorWord(s.bg), s.em, ColorWord(t.fg), ColorWord(t.bg), t.em);
      Powers();
      OrOfFields(8, 256, s.em, t.em, 0, 0);
    }
  }

  lemma WordInField(word: nat, above: nat)
    requires word < BIT26
    ensures (word + BIT27 * above) % BIT26 == word
    ensures TestBit(word + BIT27 * above, BIT24) <==> word / BIT24 % 2 == 1
  {
    assert word + BIT27 * above == word + BIT26 * (2 * above);
    assert (word + BIT27 * above) / BIT24 == word / BIT24 + 2 * (4 * above);
  }

  function Bits(c: Color): nat {
    match c
    case Unset => 0
    case Rgb(_) => 1
    case Terminal(_) => 3
  }

  lemma ColorParts(c: Color)
    requires c.Valid()
    ensures var word := ColorWord(c);
            && word < BIT26 && word / BIT24 == Bits(c)
            && (!c.Unset? ==> ColorOf(word) == c)
  {
    ColorWordIs(c);
  }

  lemma ColorGet(c: Color, above: nat)
    requires c.Valid()
    ensures TestBit(ColorWord(c) + BIT27 * above, BIT24) <==> !c.Unset?
    ensures !c.Unset? ==> ColorOf(ColorWord(c)) == c
    ensures (ColorWord(c) + BIT27 * above) % BIT26 == ColorWord(c)
  {
    ColorParts(c);
    WordInField(ColorWord(c), above);
  }

  /** The getters return what was packed, and both overflow bits are clear. */
  lemma PackRoundTrip(s: Style)
    requires s.Valid()
    ensures GetForeground(Pack(s)) == s.fg
    ensures GetBackground(Pack(s)) == s.bg
    ensures GetEmphasis(Pack(s)) == s.em
    ensures !TestBit(Pack(s), BIT26) && !TestBit(Pack(s), BIT53)
  {
    ColorWordIs(s.fg);
    ColorWordIs(s.bg);
    var f, b, w := ColorWord(s.fg), ColorWord(s.bg), Pack(s);
    OverflowOfFields(f, b, s.em);
    ColorGet(s.fg, b + BIT27 * s.em);
    ColorGet(s.bg, s.em);
    assert w == f + BIT27 * (b + BIT27 * s.em);
    assert w / BIT27 == b + BIT27 * s.em;
    assert w / BIT51 == (w / BIT27) / BIT24;
  }

  // Every style a program can build.

  datatype Expr = FgExpr(c: Color) | BgExpr(c: Color) | EmExpr(em: nat) | OrExpr(lhs: Expr, rhs: Expr)

  predicate ValidExpr(e: Expr) {
    match e
    case FgExpr(c) => c.Valid()
    case BgExpr(c) => c.Valid()
    case EmExpr(em) => em < 256
    case OrExpr(lhs, rhs) => ValidExpr(lhs) && ValidExpr(rhs)
  }

  function Packed(e: Expr): Option<nat> {
    match e
    case FgExpr(c) => Some(Fg(c))
    case BgExpr(c) => Some(Bg(c))
    case EmExpr(em) => Some(Emphasized(em))
    case OrExpr(lhs, rhs) =>
      match (Packed(lhs), Packed(rhs))
      case (Some(l), Some(r)) => Or(l, r)
      case _ => None
  }

  function Unpacked(e: Expr): Option<Style> {
    match e
    case FgExpr(c) => Some(Style(c, Unset, 0))
    case BgExpr(c) => Some(Style(Unset, c, 0))
    case EmExpr(em) => Some(Style(Unset, Unset, em))
    case OrExpr(lhs, rhs) =>
      match (Unpacked(lhs), Unpacked(rhs))
      case (Some(l), Some(r)) => Merge(l, r)
      case _ => None
  }

  /**
   Whatever fg, bg, emphases and |= build: the packed computation fails exactly when the unpacked one
   does, and otherwise its word packs the unpacked style, with both overflow bits clear.
   */
  lemma {:induction false} PackedRefinesUnpacked(e: Expr)
    requires ValidExpr(e)
    ensures Packed(e).Some? <==> Unpacked(e).Some?
    ensures Packed(e).Some? ==>
      && Unpacked(e).value.Valid()
      && Packed(e).value == Pack(Unpacked(e).value)
      && !TestBit(Packed(e).value, BIT26) && !TestBit(Packed(e).value, BIT53)
  {
    if e.OrExpr? {
      PackedRefinesUnpacked(e.lhs);
      PackedRefinesUnpacked(e.rhs);
      if Packed(e.lhs).Some? && Packed(e.rhs).Some? {
        OrIsMerge(Unpacked(e.lhs).value, Unpacked(e.rhs).value);
      }
    }
    if Unpacked(e).Some? {
      PackRoundTrip(Unpacked(e).value);
    }
  }
}
