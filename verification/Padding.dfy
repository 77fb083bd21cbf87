/** Padding and truncation of one formatted field in a buffer that may already hold text. */
module Padding {

  const MAX_WIDTH := 64
  const SPACES := Spaces(64)

  datatype Side = Left | Right | Center

  datatype PaddingInfo = PaddingInfo(width: nat, side: Side, truncate: bool, enabled: bool)

  /** The default constructed padding_info. */
  const NO_PADDING := PaddingInfo(0, Left, false, false)

  class MemoryBuf {
    var text: string

    constructor ()
      ensures text == ""
    {
      text := "";
    }
  }

  function Spaces(n: nat): string {
    seq(n, _ => ' ')
  }

  /** The spaces that go before a field of the given size. */
  function LeftPad(info: PaddingInfo, size: nat): nat {
    if size >= info.width then 0
    else match info.side
      case Left => info.width - size
      case Right => 0
      case Center => (info.width - size) / 2
  }

  /** What closing a field does to the buffer, given the padding that still misses. */
  function Closed(text: string, remaining: int, truncate: bool): string {
    if remaining >= 0 then text + Spaces(remaining)
    else if truncate then (if |text| + remaining < 0 then "" else text[..|text| + remaining])
    else text
  }

  /** A buffer after a field of a declared size was written to it. */
  function Padded(text: string, body: string, size: nat, info: PaddingInfo): string {
    var left := LeftPad(info, size);
    Closed(text + Spaces(left) + body, info.width - size - left, info.truncate)
  }

  /** Pads to the left on construction and to the right, or truncates, on destruction. */
  class ScopedPadder {
    const padinfo: PaddingInfo
    const dest: MemoryBuf
    var remainingPad: int

    constructor (wrappedSize: nat, padinfo: PaddingInfo, dest: MemoryBuf)
      requires padinfo.width <= MAX_WIDTH
      modifies dest
      ensures this.padinfo == padinfo && this.dest == dest
      ensures dest.text == old(dest.text) + Spaces(LeftPad(padinfo, wrappedSize))
      ensures remainingPad == padinfo.width - wrappedSize - LeftPad(padinfo, wrappedSize)
    {
      this.padinfo, this.dest := padinfo, dest;
      remainingPad := padinfo.width - wrappedSize;
      new;
      if remainingPad <= 0 {
        assert dest.text + Spaces(0) == dest.text;
        return;
      }
      if padinfo.side == Left {
        PadIt(remainingPad);
        remainingPad := 0;
      } else if padinfo.side == Center {
        var halfPad := remainingPad / 2;
        var reminder := remainingPad % 2;
        PadIt(halfPad);
        remainingPad := halfPad + reminder;
      } else {
        assert dest.text + Spaces(0) == dest.text;
      }
    }

    /** The spaces come from a view of 64 of them. */
    method PadIt(count: nat)
      requires count <= |SPACES|
      modifies dest
      ensures dest.text == old(dest.text) + Spaces(count)
    {
      assert SPACES[..count] == Spaces(count);
      dest.text := dest.text + SPACES[..count];
    }

    method Destroy()
      requires remainingPad <= |SPACES|
      modifies dest
      ensures dest.text == Closed(old(dest.text), remainingPad, padinfo.truncate)
    {
      if remainingPad >= 0 {
        PadIt(remainingPad);
      } else if padinfo.truncate {
        var newSize := |dest.text| + remainingPad;
        if newSize < 0 {
          newSize := 0;
        }
        dest.text := dest.text[..newSize];
      }
    }
  }

  /** How every padded formatter writes its field: the padder lives while the body is appended. */
  method WriteField(body: string, size: nat, info: PaddingInfo, dest: MemoryBuf)
    requires info.width <= MAX_WIDTH
    modifies dest
    ensures dest.text == Padded(old(dest.text), body, size, info)
  {
    var p := new ScopedPadder(size, info, dest);
    dest.text := dest.text + body;
    p.Destroy();
  }

  /** What a field should look like: the body, justified when it is short and cut when it is long. */
  ghost predicate Justified(field: string, body: string, info: PaddingInfo, left: nat, right: nat) {
    && field == Spaces(left) + body + Spaces(right)
    && left + |body| + right == info.width
    && match info.side
       case Left => right == 0
       case Right => left == 0
       case Center => left <= right <= left + 1
  }

  function FieldLength(body: string, info: PaddingInfo): nat {
    if |body| < info.width || info.truncate then info.width else |body|
  }

  /** A field whose declared size is exact leaves what was there before, and has the right length and layout. */
  lemma ExactField(text: string, body: string, info: PaddingInfo)
    ensures var after := Padded(text, body, |body|, info);
            && text <= after
            && |after| == |text| + FieldLength(body, info)
            && (|body| <= info.width ==> var left := LeftPad(info, |body|);
                  Justified(after[|text|..], body, info, left, info.width - |body| - left))
            && (|body| > info.width ==> after[|text|..] == body[..FieldLength(body, info)])
  {
    var left := LeftPad(info, |body|);
    var after := Padded(text, body, |body|, info);
    if |body| <= info.width {
      assert after == text + (Spaces(left) + body + Spaces(info.width - |body| - left));
    } else {
      assert Spaces(left) == "";
      assert text + Spaces(left) + body == text + body;
      assert after == text + body[..FieldLength(body, info)];
    }
  }

  /**
   A wrong declared size shows, unless both sizes fill the field: the field has the right length
   exactly when the size is right, or the size and a longer body meet a width that is not enforced.
   */
  lemma FieldLengthIff(text: string, body: string, size: nat, info: PaddingInfo)
    requires size - info.width <= |text| + |body|
    ensures |Padded(text, body, size, info)| == |text| + FieldLength(body, info)
       <==> size == |body|
            || (|body| >= info.width && !info.truncate && size >= info.width)
  {
    var left := LeftPad(info, size);
    assert |text + Spaces(left) + body| == |text| + left + |body|;
  }
}
