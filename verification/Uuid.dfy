/** UUIDs as text (internal/core/util/uuid.go); the printed form is that of RFC 9562, section 4. */
module Uuid {
  import opened Wrappers
  import opened Hex

  /** pgtype.UUID; not valid stands for NULL. */
  datatype UUID = UUID(bytes: seq<Octet>, valid: bool)

  const ZEROS: seq<Octet> := [0, 0, 0, 0, 0, 0, 0, 0, 0, 0, 0, 0, 0, 0, 0, 0]

  predicate SixteenBytes(u: UUID) {
    |u.bytes| == 16
  }

  function WithoutHyphens(s: string): (r: string)
    ensures '-' !in r
    ensures '-' !in s ==> r == s
  {
    if s == "" then "" else (if s[0] == '-' then "" else [s[0]]) + WithoutHyphens(s[1..])
  }

  /** 32 digits in groups of 8, 4, 4, 4 and 12. */
  function Grouped(digits: string): (r: string)
    requires |digits| == 32
    ensures |r| == 36
  {
    digits[..8] + "-" + digits[8..12] + "-" + digits[12..16] + "-" + digits[16..20] + "-" + digits[20..]
  }

  function Format(u: UUID): string
    requires SixteenBytes(u)
  {
    if u.valid then Grouped(Encode(u.bytes)) else ""
  }

  function Parse(s: string): (u: UUID)
    ensures SixteenBytes(u)
  {
    var digits := WithoutHyphens(s);
    if |digits| == 32 && Decode(digits).Some? then UUID(Decode(digits).value, true) else UUID(ZEROS, false)
  }

  method TextToUUID(s: string) returns (u: UUID)
    ensures u == Parse(s)
  {
    var digits := WithoutHyphens(s);
    if |digits| != 32 {
      return UUID(ZEROS, false);
    }
    var decoded := Decode(digits);
    if decoded.None? {
      return UUID(ZEROS, false);
    }
    var bytes := new Octet[16](i => 0);
    for i := 0 to 16
      invariant forall k :: 0 <= k < i ==> bytes[k] == decoded.value[k]
    {
      bytes[i] := decoded.value[i];
    }
    assert bytes[..] == decoded.value;
    return UUID(bytes[..], true);
  }

  predicate HyphenBefore(i: nat) {
    i == 4 || i == 6 || i == 8 || i == 10
  }

  function Pair(b: Octet): string {
    [LowerDigit(b / 16), LowerDigit(b % 16)]
  }

  /** The text up to byte i. */
  function PrintedTo(bytes: seq<Octet>, i: nat): string
    requires i <= |bytes|
  {
    if i == 0 then "" else PrintedTo(bytes, i - 1) + (if HyphenBefore(i - 1) then "-" else "") + Pair(bytes[i - 1])
  }

  method UUIDToStr(u: UUID) returns (s: string)
    requires SixteenBytes(u)
    ensures s == Format(u)
  {
    hide Grouped, Encode, PrintedTo, LowerDigit;
    if !u.valid {
      return "";
    }
    var hexChars := "0123456789abcdef";
    assert |hexChars| == 16 && forall n :: 0 <= n < 16 ==> hexChars[n] == LowerDigit(n);
    var buf := new char[36](i => ' ');
    var pos := 0;
    assert PrintedTo(u.bytes, 0) == "" by { PrintedNothing(u.bytes); }
    for i := 0 to 16
      invariant pos <= 2 * i + 4 && |hexChars| == 16
      invariant buf[..pos] == PrintedTo(u.bytes, i)
      invariant pos == |PrintedTo(u.bytes, i)|
    {
      PrintedNext(u.bytes, i);
      ghost var before := buf[..pos];
      if i == 4 || i == 6 || i == 8 || i == 10 {
        buf[pos] := '-';
        assert buf[..pos + 1] == before + ['-'];
        pos := pos + 1;
      }
      before := buf[..pos];
      buf[pos] := hexChars[u.bytes[i] / 16];
      buf[pos + 1] := hexChars[u.bytes[i] % 16];
      assert buf[..pos + 2] == before + Pair(u.bytes[i]);
      pos := pos + 2;
    }
    s := buf[..];
    PrintedIsGrouped(u.bytes);
    assert buf[..pos] == s;
  }

  lemma PrintedNothing(bytes: seq<Octet>)
    ensures PrintedTo(bytes, 0) == ""
  {
  }

  lemma PrintedNext(bytes: seq<Octet>, i: nat)
    requires i < |bytes|
    ensures PrintedTo(bytes, i + 1) == PrintedTo(bytes, i) + (if HyphenBefore(i) then "-" else "") + Pair(bytes[i])
    ensures |PrintedTo(bytes, i)| == 2 * i + Hyphens(i)
  {
    if i > 0 {
      PrintedNext(bytes, i - 1);
    }
  }

  function Hyphens(i: nat): nat {
    if i > 10 then 4 else if i > 8 then 3 else if i > 6 then 2 else if i > 4 then 1 else 0
  }

  lemma {:induction false} EncodeJoin(a: seq<Octet>, b: seq<Octet>)
    ensures Encode(a + b) == Encode(a) + Encode(b)
  {
    if a == [] {
      assert a + b == b;
    } else {
      assert (a + b)[1..] == a[1..] + b;
      EncodeJoin(a[1..], b);
    }
  }

  /** A group: the bytes from i to k, after their hyphen. */
  lemma {:induction false} GroupPrinted(bytes: seq<Octet>, i: nat, k: nat)
    requires i < k <= |bytes| && forall x :: i < x < k ==> !HyphenBefore(x)
    ensures PrintedTo(bytes, k) == PrintedTo(bytes, i) + (if HyphenBefore(i) then "-" else "") + Encode(bytes[i..k])
    decreases k
  {
    hide Encode, LowerDigit;
    var last := bytes[k - 1];
    assert bytes[i..k] == bytes[i..k - 1] + [last];
    EncodeJoin(bytes[i..k - 1], [last]);
    assert Encode([last]) == Pair(last) by { EncodeOne(last); }
    if i < k - 1 {
      GroupPrinted(bytes, i, k - 1);
    } else {
      assert bytes[i..i] == [] && Encode([]) == "";
    }
  }

  lemma EncodeOne(b: Octet)
    ensures Encode([b]) == Pair(b)
  {
    assert [b][1..] == [];
  }

  lemma PrintedIsGrouped(bytes: seq<Octet>)
    requires |bytes| == 16
    ensures PrintedTo(bytes, 16) == Grouped(Encode(bytes))
  {
    hide Encode, PrintedTo, Grouped;
    GroupPrinted(bytes, 0, 4);
    GroupPrinted(bytes, 4, 6);
    GroupPrinted(bytes, 6, 8);
    GroupPrinted(bytes, 8, 10);
    GroupPrinted(bytes, 10, 16);
    PrintedNothing(bytes);
    FiveGroups(bytes);
    GroupedParts(Encode(bytes[0..4]), Encode(bytes[4..6]), Encode(bytes[6..8]), Encode(bytes[8..10]),
                 Encode(bytes[10..16]));
  }

  lemma GroupedParts(a: string, b: string, c: string, d: string, e: string)
    requires |a| == 8 && |b| == |c| == |d| == 4 && |e| == 12
    ensures Grouped(a + b + c + d + e) == a + "-" + b + "-" + c + "-" + d + "-" + e
  {
    var digits := a + b + c + d + e;
    assert digits[..8] == a;
    assert digits[8..12] == b;
    assert digits[12..16] == c;
    assert digits[16..20] == d;
    assert digits[20..] == e;
  }

  lemma FiveGroups(bytes: seq<Octet>)
    requires |bytes| == 16
    ensures Encode(bytes) == Encode(bytes[0..4]) + Encode(bytes[4..6]) + Encode(bytes[6..8]) + Encode(bytes[8..10])
                           + Encode(bytes[10..16])
  {
    hide Encode;
    EncodeJoin(bytes[0..4], bytes[4..6]);
    EncodeJoin(bytes[0..6], bytes[6..8]);
    EncodeJoin(bytes[0..8], bytes[8..10]);
    EncodeJoin(bytes[0..10], bytes[10..16]);
    assert bytes[0..4] + bytes[4..6] == bytes[0..6] && bytes[0..6] + bytes[6..8] == bytes[0..8];
    assert bytes[0..8] + bytes[8..10] == bytes[0..10] && bytes[0..10] + bytes[10..16] == bytes;
  }

  // ---------- Round trips ----------

  lemma {:induction false} WithoutHyphensJoin(a: string, b: string)
    ensures WithoutHyphens(a + b) == WithoutHyphens(a) + WithoutHyphens(b)
  {
    if a == "" {
      assert a + b == b;
    } else {
      assert (a + b)[1..] == a[1..] + b;
      WithoutHyphensJoin(a[1..], b);
    }
  }

  lemma DropHyphen(a: string, b: string)
    requires '-' !in a
    ensures WithoutHyphens(a + "-" + b) == a + WithoutHyphens(b)
  {
    hide WithoutHyphens;
    WithoutHyphensJoin(a + "-", b);
    WithoutHyphensJoin(a, "-");
    assert WithoutHyphens("-") == "" by { HyphenDropped(); }
    NothingDropped(a);
    assert a + "" == a;
  }

  lemma HyphenDropped()
    ensures WithoutHyphens("-") == ""
  {
    assert "-"[1..] == "";
  }

  lemma Ungrouped(digits: string)
    requires |digits| == 32 && '-' !in digits
    ensures WithoutHyphens(Grouped(digits)) == digits
  {
    hide WithoutHyphens;
    var a, b, c, d, e := digits[..8], digits[8..12], digits[12..16], digits[16..20], digits[20..];
    assert '-' !in a && '-' !in b && '-' !in c && '-' !in d && '-' !in e;
    assert digits == a + (b + (c + (d + e)));
    assert Grouped(digits) == a + "-" + (b + "-" + (c + "-" + (d + "-" + e)));
    hide Grouped;
    DropHyphen(a, b + "-" + (c + "-" + (d + "-" + e)));
    DropHyphen(b, c + "-" + (d + "-" + e));
    DropHyphen(c, d + "-" + e);
    DropHyphen(d, e);
    assert WithoutHyphens(e) == e by { NothingDropped(e); }
  }

  lemma NothingDropped(s: string)
    requires '-' !in s
    ensures WithoutHyphens(s) == s
  {
  }

  /** Reading the printed form gives the UUID back exactly when it is valid or NULL as the program makes it. */
  lemma ParseFormatExactly(u: UUID)
    requires SixteenBytes(u)
    ensures Parse(Format(u)) == u <==> u.valid || u.bytes == ZEROS
  {
    if u.valid {
      Ungrouped(Encode(u.bytes));
      DecodeEncode(u.bytes);
    } else {
      assert WithoutHyphens("") == "";
    }
  }

  /** A text is accepted exactly if it has 32 hexadecimal digits, of either case, and hyphens anywhere. */
  lemma AcceptedExactly(s: string)
    ensures Parse(s).valid <==>
              var digits := WithoutHyphens(s);
              |digits| == 32
              && forall i :: 0 <= i < 32 ==>
                   '0' <= digits[i] <= '9' || 'a' <= digits[i] <= 'f' || 'A' <= digits[i] <= 'F'
  {
    hide Decode, WithoutHyphens;
    DecodeExactly(WithoutHyphens(s));
  }

  /** Printing an accepted text gives its canonical form: its digits in lower case, grouped. */
  lemma FormatParse(s: string)
    requires Parse(s).valid
    ensures |WithoutHyphens(s)| == 32
    ensures Format(Parse(s)) == Grouped(ToLower(WithoutHyphens(s)))
  {
    EncodeDecode(WithoutHyphens(s));
  }

  lemma GroupedInjective(a: string, b: string)
    requires |a| == |b| == 32 && Grouped(a) == Grouped(b)
    ensures a == b
  {
    var g := Grouped(a);
    forall i | 0 <= i < 32 ensures a[i] == b[i] {
      var k := if i < 8 then i else if i < 12 then i + 1 else if i < 16 then i + 2 else if i < 20 then i + 3 else i + 4;
      assert g[k] == a[i] && Grouped(b)[k] == b[i];
    }
  }

  /** Two accepted texts name the same UUID exactly when they differ only in case and hyphens. */
  lemma SameUuidExactly(s: string, t: string)
    requires Parse(s).valid && Parse(t).valid
    ensures Parse(s) == Parse(t) <==> ToLower(WithoutHyphens(s)) == ToLower(WithoutHyphens(t))
  {
    hide Grouped, ToLower, WithoutHyphens, Parse;
    FormatParse(s);
    FormatParse(t);
    ParseFormatExactly(Parse(s));
    ParseFormatExactly(Parse(t));
    if Parse(s) == Parse(t) {
      GroupedInjective(ToLower(WithoutHyphens(s)), ToLower(WithoutHyphens(t)));
    }
  }
}
