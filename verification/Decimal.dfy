/** Decimal text of arbitrary-precision integers: big.Int.String and big.Int.SetString in base 10. */
module Decimal {
  import opened Common

  function NatText(n: nat): (s: string)
    ensures s != [] && forall i :: 0 <= i < |s| ==> '0' <= s[i] <= '9'
  {
    if n < 10 then ['0' + n as char] else NatText(n / 10) + ['0' + (n % 10) as char]
  }

  function Text(i: int): string {
    if i < 0 then "-" + NatText(-i) else NatText(i)
  }

  function ParseNat(s: string): Option<nat> {
    if s == [] || !('0' <= s[|s| - 1] <= '9') then None
    else
      var d := (s[|s| - 1] - '0') as nat;
      if |s| == 1 then Some(d)
      else match ParseNat(s[..|s| - 1])
        case None => None
        case Some(n) => Some(10 * n + d)
  }

  /** SetString(s, 10): an optional sign and at least one digit, the whole text consumed. */
  function Parse(s: string): Option<int> {
    if s == [] then None
    else match ParseNat(if s[0] == '-' || s[0] == '+' then s[1..] else s)
      case None => None
      case Some(n) =>
        var m: int := n;
        Some(if s[0] == '-' then -m else m)
  }

  /**
   * The value of a fresh big.Int after SetString whose failure the caller ignores.
   * The library leaves that value undefined; `junk` stands for whatever it is.
   */
  function SetString(s: string, junk: string -> int): int {
    match Parse(s)
    case Some(i) => i
    case None => junk(s)
  }

  lemma {:induction false} ParseNatText(n: nat)
    ensures ParseNat(NatText(n)) == Some(n)
  {
    if n < 10 {
    } else {
      ParseNatText(n / 10);
      var s := NatText(n);
      assert s[..|s| - 1] == NatText(n / 10);
      assert |NatText(n / 10)| > 0;
    }
  }

  lemma ParseSigned(digits: string, n: nat)
    requires digits != [] && '0' <= digits[0] <= '9' && ParseNat(digits) == Some(n)
    ensures Parse(digits) == Some(n) && Parse("-" + digits) == Some(0 - n)
  {
    hide ParseNat;
    assert ("-" + digits)[1..] == digits;
  }

  /** A number written in decimal reads back as itself, for every integer. */
  lemma ParseText(i: int)
    ensures Parse(Text(i)) == Some(i)
  {
    var n: nat := if i < 0 then -i else i;
    ParseNatText(n);
    ParseSigned(NatText(n), n);
  }

  // ----- big-endian words -----

  /** big.Int.SetBytes: the unsigned big-endian value of a byte string. */
  function BigEndian(b: Bytes): nat {
    if b == [] then 0 else 256 * BigEndian(b[..|b| - 1]) + b[|b| - 1]
  }

  /** The n-byte big-endian encoding, as the ABI pads a uint256 topic or data word. */
  function ToBigEndian(x: nat, n: nat): (b: Bytes)
    ensures |b| == n
  {
    if n == 0 then [] else ToBigEndian(x / 256, n - 1) + [x % 256]
  }

  function Pow256(n: nat): nat {
    if n == 0 then 1 else 256 * Pow256(n - 1)
  }

  lemma {:induction false} BigEndianInverse(x: nat, n: nat)
    requires x < Pow256(n)
    ensures BigEndian(ToBigEndian(x, n)) == x
  {
    if n == 0 {
    } else {
      BigEndianInverse(x / 256, n - 1);
      var b := ToBigEndian(x, n);
      assert b[..|b| - 1] == ToBigEndian(x / 256, n - 1);
    }
  }

  lemma {:induction false} ToBigEndianInverse(b: Bytes)
    ensures ToBigEndian(BigEndian(b), |b|) == b
    ensures BigEndian(b) < Pow256(|b|)
  {
    if b == [] {
    } else {
      ToBigEndianInverse(b[..|b| - 1]);
      assert b == b[..|b| - 1] + [b[|b| - 1]];
    }
  }
}
