/** Hexadecimal text of byte strings, as Go's encoding/hex and the %x verb write and read it. */
module Hex {
  import opened Wrappers

  type Octet = n: int | 0 <= n < 256

  function LowerDigit(n: nat): (c: char)
    requires n < 16
    ensures Nibble(c) == Some(n)
    ensures IsLowerHex(c)
  {
    if n < 10 then '0' + n as char else 'a' + (n - 10) as char
  }

  function UpperDigit(n: nat): (c: char)
    requires n < 16
    ensures Nibble(c) == Some(n)
    ensures '0' <= c <= '9' || 'A' <= c <= 'F'
  {
    if n < 10 then '0' + n as char else 'A' + (n - 10) as char
  }

  /** The value of a hexadecimal digit of either case. */
  function Nibble(c: char): (r: Option<nat>)
    ensures r.Some? ==> r.value < 16
  {
    if '0' <= c <= '9' then Some(c as int - '0' as int)
    else if 'a' <= c <= 'f' then Some(c as int - 'a' as int + 10)
    else if 'A' <= c <= 'F' then Some(c as int - 'A' as int + 10)
    else None
  }

  predicate IsLowerHex(c: char) {
    '0' <= c <= '9' || 'a' <= c <= 'f'
  }

  predicate AllLowerHex(s: string) {
    forall i :: 0 <= i < |s| ==> IsLowerHex(s[i])
  }

  /** Digits of either case. */
  predicate AllHex(s: string) {
    forall i :: 0 <= i < |s| ==> Nibble(s[i]).Some?
  }

  function Encode(bs: seq<Octet>): (s: string)
    ensures |s| == 2 * |bs|
    ensures AllLowerHex(s)
  {
    if bs == [] then "" else [LowerDigit(bs[0] / 16), LowerDigit(bs[0] % 16)] + Encode(bs[1..])
  }

  function Decode(s: string): (r: Option<seq<Octet>>)
    ensures r.Some? ==> 2 * |r.value| == |s|
  {
    if s == "" then Some([])
    else if |s| == 1 then None
    else
      var hi, lo, rest := Nibble(s[0]), Nibble(s[1]), Decode(s[2..]);
      if hi.Some? && lo.Some? && rest.Some? then Some([hi.value * 16 + lo.value] + rest.value) else None
  }

  function LowerChar(c: char): (r: char)
    ensures 'A' <= c <= 'Z' ==> r as int == c as int + 32
    ensures !('A' <= c <= 'Z') ==> r == c
  {
    if 'A' <= c <= 'Z' then c + 32 as char else c
  }

  /** strings.ToLower on ASCII text. */
  function ToLower(s: string): (r: string)
    ensures |r| == |s|
    ensures forall i :: 0 <= i < |s| ==> r[i] == LowerChar(s[i])
  {
    seq(|s|, i requires 0 <= i < |s| => LowerChar(s[i]))
  }

  /** Exactly the texts of pairs of digits, of either case, are decoded. */
  lemma {:induction false} DecodeExactly(s: string)
    ensures Decode(s).Some? <==>
              |s| % 2 == 0 && forall i :: 0 <= i < |s| ==> '0' <= s[i] <= '9' || 'a' <= s[i] <= 'f' || 'A' <= s[i] <= 'F'
  {
    if |s| >= 2 {
      DecodeExactly(s[2..]);
      assert forall i :: 2 <= i < |s| ==> s[i] == s[2..][i - 2];
    }
  }

  lemma {:induction false} DecodeEncode(bs: seq<Octet>)
    ensures Decode(Encode(bs)) == Some(bs)
  {
    if bs != [] {
      DecodeEncode(bs[1..]);
      assert Encode(bs)[2..] == Encode(bs[1..]);
      assert bs == [bs[0]] + bs[1..];
    }
  }

  /** Re-printing decoded text gives its lower-case form. */
  lemma {:induction false} EncodeDecode(s: string)
    requires Decode(s).Some?
    ensures Encode(Decode(s).value) == ToLower(s)
  {
    if s != "" {
      EncodeDecode(s[2..]);
      var bs := Decode(s).value;
      assert bs[1..] == Decode(s[2..]).value;
      assert LowerDigit(bs[0] / 16) == LowerChar(s[0]) && LowerDigit(bs[0] % 16) == LowerChar(s[1]);
      assert ToLower(s) == [LowerChar(s[0]), LowerChar(s[1])] + ToLower(s[2..]);
    }
  }
}
