/** Lower-case hexadecimal text, as bytes. */
module Hex {
  import opened Common

  predicate IsHex(text: Bytes) {
    forall i :: 0 <= i < |text| ==> 48 <= text[i] <= 57 || 97 <= text[i] <= 102
  }

  /** The text of a 256-bit digest or identity. */
  predicate IsHex256(text: Bytes) { |text| == 64 && IsHex(text) }

  function HexByte(n: int): Byte
    requires 0 <= n < 16
  {
    if n < 10 then 48 + n else 87 + n
  }

  function HexValue(b: Byte): Option<int> {
    if 48 <= b <= 57 then Some(b - 48) else if 97 <= b <= 102 then Some(b - 87) else None
  }

  function ToHex(bytes: Bytes): Bytes {
    if bytes == [] then [] else [HexByte(bytes[0] / 16), HexByte(bytes[0] % 16)] + ToHex(bytes[1..])
  }

  function FromHex(text: Bytes): Option<Bytes> {
    if text == [] then Some([])
    else if |text| == 1 || HexValue(text[0]).None? || HexValue(text[1]).None? || FromHex(text[2..]).None? then None
    else Some([HexValue(text[0]).value * 16 + HexValue(text[1]).value] + FromHex(text[2..]).value)
  }

  lemma {:induction false} HexRoundTrip(bytes: Bytes)
    ensures FromHex(ToHex(bytes)) == Some(bytes) && |ToHex(bytes)| == 2 * |bytes|
    ensures IsHex(ToHex(bytes))
  {
    if bytes == [] {
    } else {
      HexRoundTrip(bytes[1..]);
      assert ToHex(bytes)[2..] == ToHex(bytes[1..]);
      assert bytes == [bytes[0]] + bytes[1..];
    }
  }

  lemma {:induction false} HexCanonical(text: Bytes)
    requires FromHex(text).Some?
    ensures ToHex(FromHex(text).value) == text && |text| == 2 * |FromHex(text).value|
  {
    if text == [] {
    } else {
      HexCanonical(text[2..]);
      assert text == [text[0], text[1]] + text[2..];
      assert FromHex(text).value[1..] == FromHex(text[2..]).value;
    }
  }
}
