/** UTF-8 and percent-decoding, the byte-level meaning of a URL path. */
module Percent {

  import opened Wrappers
  import opened Text

  // ---------- UTF-8 ----------

  datatype Scalar = Scalar(c: char, width: nat)

  predicate Continues(bytes: seq<Byte>, i: nat) {
    i < |bytes| && 0x80 <= bytes[i] < 0xC0
  }

  function Payload(bytes: seq<Byte>, i: nat): int
    requires i < |bytes|
  {
    bytes[i] as int - 0x80
  }

  /** The first scalar of well-formed UTF-8 (section 3.9 of the Unicode Standard, table 3-7). */
  function FirstScalar(bytes: seq<Byte>): (first: Option<Scalar>)
    ensures first.Some? ==> 1 <= first.value.width <= |bytes|
  {
    if bytes == [] then None
    else
      var b := bytes[0] as int;
      if b < 0x80 then Some(Scalar(b as char, 1))
      else if 0xC2 <= b < 0xE0 && Continues(bytes, 1) then
        Some(Scalar(((b - 0xC0) * 64 + Payload(bytes, 1)) as char, 2))
      else if 0xE0 <= b < 0xF0 && Continues(bytes, 1) && Continues(bytes, 2)
              && (b == 0xE0 ==> bytes[1] >= 0xA0) && (b == 0xED ==> bytes[1] < 0xA0) then
        Some(Scalar((((b - 0xE0) * 64 + Payload(bytes, 1)) * 64 + Payload(bytes, 2)) as char, 3))
      else if 0xF0 <= b < 0xF5 && Continues(bytes, 1) && Continues(bytes, 2) && Continues(bytes, 3)
              && (b == 0xF0 ==> bytes[1] >= 0x90) && (b == 0xF4 ==> bytes[1] < 0x90) then
        Some(Scalar(((((b - 0xF0) * 64 + Payload(bytes, 1)) * 64 + Payload(bytes, 2)) * 64
                     + Payload(bytes, 3)) as char, 4))
      else None
  }

  function DecodeUtf8(bytes: seq<Byte>): Option<string> {
    if bytes == [] then Some("")
    else
      match FirstScalar(bytes)
      case None => None
      case Some(Scalar(c, width)) =>
        match DecodeUtf8(bytes[width..])
        case None => None
        case Some(rest) => Some([c] + rest)
  }

  function EncodeChar(c: char): (bytes: seq<Byte>) {
    var n := c as int;
    if n < 0x80 then [n]
    else if n < 0x800 then [0xC0 + n / 64, 0x80 + n % 64]
    else if n < 0x10000 then [0xE0 + n / 64 / 64, 0x80 + n / 64 % 64, 0x80 + n % 64]
    else [0xF0 + n / 64 / 64 / 64, 0x80 + n / 64 / 64 % 64, 0x80 + n / 64 % 64, 0x80 + n % 64]
  }

  function EncodeUtf8(text: string): seq<Byte> {
    if text == "" then [] else EncodeChar(text[0]) + EncodeUtf8(text[1..])
  }

  lemma EncodedCharDecodes(c: char)
    ensures FirstScalar(EncodeChar(c)) == Some(Scalar(c, |EncodeChar(c)|))
  {
  }

  lemma FirstScalarExtends(a: seq<Byte>, b: seq<Byte>)
    requires FirstScalar(a).Some?
    ensures FirstScalar(a + b) == FirstScalar(a)
  {
    assert forall i :: 0 <= i < |a| ==> (a + b)[i] == a[i];
  }

  /** Decoding undoes encoding. */
  lemma {:induction false} DecodeUndoesEncode(text: string)
    ensures DecodeUtf8(EncodeUtf8(text)) == Some(text)
  {
    if text != "" {
      var rest := EncodeUtf8(text[1..]);
      EncodedCharDecodes(text[0]);
      FirstScalarExtends(EncodeChar(text[0]), rest);
      assert (EncodeChar(text[0]) + rest)[|EncodeChar(text[0])|..] == rest;
      DecodeUndoesEncode(text[1..]);
      HeadAndTail(text);
    }
  }

  /** A character boundary: nothing, or an ASCII byte, which no longer character contains. */
  predicate Boundary(bytes: seq<Byte>) {
    bytes == [] || bytes[0] < 0x80
  }

  lemma FirstScalarAhead(a: seq<Byte>, b: seq<Byte>)
    requires a != [] && Boundary(b)
    ensures FirstScalar(a + b) == FirstScalar(a)
  {
    var all := a + b;
    assert forall i :: 0 <= i < |a| ==> all[i] == a[i];
    assert b != [] ==> all[|a|] == b[0];
    assert forall i: nat :: i <= |a| ==> (Continues(all, i) <==> Continues(a, i));
  }

  function Both(a: Option<string>, b: Option<string>): Option<string> {
    if a.Some? && b.Some? then Some(a.value + b.value) else None
  }

  /** Text may be decoded piecewise at any ASCII byte. */
  lemma {:induction false} DecodeSplits(a: seq<Byte>, b: seq<Byte>)
    requires Boundary(b)
    ensures DecodeUtf8(a + b) == Both(DecodeUtf8(a), DecodeUtf8(b))
  {
    if a == [] {
      ConcatEmpty(b);
      if DecodeUtf8(b).Some? {
        ConcatEmpty(DecodeUtf8(b).value);
      }
    } else {
      FirstScalarAhead(a, b);
      if FirstScalar(a).Some? {
        var Scalar(c, width) := FirstScalar(a).value;
        assert (a + b)[width..] == a[width..] + b;
        DecodeSplits(a[width..], b);
        if DecodeUtf8(a[width..]).Some? && DecodeUtf8(b).Some? {
          ConcatAssociates([c], DecodeUtf8(a[width..]).value, DecodeUtf8(b).value);
        }
      }
    }
  }

  // ---------- percent escapes ----------

  /** The text starts with a percent escape. */
  predicate Escaped(raw: string) {
    |raw| >= 3 && raw[0] == '%' && IsHex(raw[1]) && IsHex(raw[2])
  }

  function EscapedByte(raw: string): Byte
    requires Escaped(raw)
  {
    HexValue(raw[1]) * 16 + HexValue(raw[2])
  }

  /** Every percent sign starts an escape. */
  predicate WellEscaped(raw: string) {
    if raw == "" then true
    else if raw[0] != '%' then WellEscaped(raw[1..])
    else Escaped(raw) && WellEscaped(raw[3..])
  }

  predicate Ascii(raw: string) {
    forall i :: 0 <= i < |raw| ==> (raw[i] as int) < 0x80
  }

  /** Plain percent-decoding: an escape stands for its byte, anything else for itself. */
  function PercentBytes(raw: string): seq<Byte>
    requires Ascii(raw)
  {
    if raw == "" then []
    else if Escaped(raw) then [EscapedByte(raw)] + PercentBytes(raw[3..])
    else [raw[0] as int] + PercentBytes(raw[1..])
  }

}
