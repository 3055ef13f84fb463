/** Hexadecimal text and the bytes it stands for (internal/repository/order.go, helpers). */
module Hex {
  import opened Common

  function LowerDigit(d: nat): (c: char)
    requires d < 16
  {
    if d < 10 then '0' + d as char else 'a' + (d - 10) as char
  }

  function DigitValue(c: char): (d: Option<nat>)
    ensures d.Some? ==> d.value < 16
  {
    if '0' <= c <= '9' then Some((c - '0') as nat)
    else if 'a' <= c <= 'f' then Some((c - 'a') as nat + 10)
    else if 'A' <= c <= 'F' then Some((c - 'A') as nat + 10)
    else None
  }

  function LowerChar(c: char): char {
    if 'A' <= c <= 'Z' then 'a' + (c - 'A') else c
  }

  function Lower(s: string): (t: string)
    ensures |t| == |s|
    ensures forall i :: 0 <= i < |s| ==> t[i] == LowerChar(s[i])
  {
    seq(|s|, i requires 0 <= i < |s| => LowerChar(s[i]))
  }

  /** hex.DecodeString: two digits a byte, either letter case, or an error. */
  function DecodeHex(s: string): (b: Option<Bytes>)
    ensures b.Some? ==> |s| == 2 * |b.value|
  {
    if s == [] then Some([])
    else if |s| == 1 then None
    else
      var hi, lo, rest := DigitValue(s[0]), DigitValue(s[1]), DecodeHex(s[2..]);
      if hi.Some? && lo.Some? && rest.Some?
      then Some([16 * hi.value + lo.value] + rest.value)
      else None
  }

  /** hex.EncodeToString: lower-case digits. */
  function EncodeHex(b: Bytes): (s: string)
    ensures |s| == 2 * |b|
  {
    if b == [] then []
    else [LowerDigit(b[0] / 16), LowerDigit(b[0] % 16)] + EncodeHex(b[1..])
  }

  function TrimPrefix(s: string): string {
    if "0x" <= s then s[2..] else s
  }

  lemma LowerTwice(s: string)
    ensures Lower(Lower(s)) == Lower(s)
  {
    assert forall i :: 0 <= i < |s| ==> Lower(Lower(s))[i] == Lower(s)[i];
  }

  /** What a hex column parameter becomes: an error, SQL NULL (a nil slice), or bytes. */
  datatype Column = Malformed | Null | Value(bytes: Bytes)

  function HexDecode(s: string): Column {
    if s == "" then Null
    else match DecodeHex(TrimPrefix(s))
      case None => Malformed
      case Some(b) => Value(b)
  }

  function HexEncode(b: Bytes): string {
    if b == [] then "" else "0x" + EncodeHex(b)
  }

  lemma DigitOfValue(c: char)
    ensures forall d: nat {:trigger LowerDigit(d)} :: d < 16 ==> DigitValue(LowerDigit(d)) == Some(d)
    ensures DigitValue(c).Some? ==> LowerDigit(DigitValue(c).value) == LowerChar(c)
  {
  }

  /** Decoding inverts encoding: no byte is lost or altered on the way to text. */
  lemma {:induction false} DecodeEncode(b: Bytes)
    ensures DecodeHex(EncodeHex(b)) == Some(b)
  {
    if b == [] {
    } else {
      DecodeEncode(b[1..]);
      DigitOfValue('0');
      var hi, lo := b[0] / 16, b[0] % 16;
      assert EncodeHex(b)[2..] == EncodeHex(b[1..]);
      assert DigitValue(EncodeHex(b)[0]) == Some(hi) && DigitValue(EncodeHex(b)[1]) == Some(lo);
      assert b == [b[0]] + b[1..];
    }
  }

  /** Encoding inverts decoding up to letter case. */
  lemma {:induction false} EncodeDecode(s: string)
    requires DecodeHex(s).Some?
    ensures EncodeHex(DecodeHex(s).value) == Lower(s)
  {
    if s == [] {
    } else {
      EncodeDecode(s[2..]);
      DigitOfValue(s[0]);
      DigitOfValue(s[1]);
      var b := DecodeHex(s).value;
      var hi, lo := DigitValue(s[0]).value, DigitValue(s[1]).value;
      assert b[0] / 16 == hi && b[0] % 16 == lo;
      assert b[1..] == DecodeHex(s[2..]).value;
      assert Lower(s) == [LowerChar(s[0]), LowerChar(s[1])] + Lower(s[2..]);
    }
  }

  /** Texts that differ only in letter case decode alike, so a checksummed address is its bytes. */
  lemma {:induction false} DecodeIgnoresCase(s: string, t: string)
    requires Lower(s) == Lower(t)
    ensures DecodeHex(s) == DecodeHex(t)
  {
    assert |s| == |Lower(s)| == |t|;
    forall i | 0 <= i < |s| ensures DigitValue(s[i]) == DigitValue(t[i]) {
      assert LowerChar(s[i]) == Lower(s)[i] == LowerChar(t[i]);
    }
    if |s| < 2 {
    } else {
      assert Lower(s[2..]) == Lower(s)[2..] == Lower(t[2..]);
      DecodeIgnoresCase(s[2..], t[2..]);
    }
  }

  lemma {:induction false} DecodeConcat(s: string, t: string)
    requires |s| % 2 == 0
    ensures DecodeHex(s + t) ==
            if DecodeHex(s).Some? && DecodeHex(t).Some?
            then Some(DecodeHex(s).value + DecodeHex(t).value) else None
  {
    if s == [] {
      assert s + t == t;
      if DecodeHex(t).Some? {
        assert [] + DecodeHex(t).value == DecodeHex(t).value;
      }
    } else {
      DecodeConcat(s[2..], t);
      assert (s + t)[2..] == s[2..] + t;
      if DecodeHex(s).Some? && DecodeHex(t).Some? {
        var b, c := DecodeHex(s).value, DecodeHex(t).value;
        assert [b[0]] + (DecodeHex(s[2..]).value + c) == b + c;
      }
    }
  }
}
