/**
 Byte ranges of an HTTP request (parseRangeHeader in internal/core/storage/rclone.go), against their
 meaning in section 14.1.2 of RFC 9110.
 */
module Ranges {
  import opened Wrappers
  import opened Strings
  import opened Numbers

  // ---------- The parser ----------

  /** The position of the first '-', or |s|. */
  function Hyphen(s: string): (i: nat)
    ensures i <= |s| && '-' !in s[..i] && (i < |s| ==> s[i] == '-')
  {
    if s == "" || s[0] == '-' then 0
    else
      var i := 1 + Hyphen(s[1..]);
      assert s[..i] == [s[0]] + s[1..][..i - 1];
      i
  }

  /** Inclusive positions. */
  datatype ByteRange = ByteRange(start: int, end: int)

  /** The two parts around the first '-' after the unit. */
  function Split(rangeHeader: string): Option<(string, string)> {
    if !("bytes=" <= rangeHeader) then None
    else
      var spec := TrimPrefix(rangeHeader, "bytes=");
      var i := Hyphen(spec);
      if i == |spec| then None else Some((spec[..i], spec[i + 1..]))
  }

  function ParseRangeHeader(rangeHeader: string, totalSize: int): (r: Option<ByteRange>) {
    var parts := Split(rangeHeader);
    if parts.None? then None
    else
      var (first, last) := parts.value;
      if first == "" then
        var suffixLen := ParseInt(last);
        if suffixLen.None? || suffixLen.value <= 0 then None
        else
          var start := if totalSize - suffixLen.value > 0 then totalSize - suffixLen.value else 0;
          Some(ByteRange(start, totalSize - 1))
      else
        var start := ParseInt(first);
        if start.None? || start.value < 0 || start.value >= totalSize then None
        else if last == "" then Some(ByteRange(start.value, totalSize - 1))
        else
          var end := ParseInt(last);
          if end.None? || end.value < start.value then None
          else Some(ByteRange(start.value, if end.value >= totalSize then totalSize - 1 else end.value))
  }

  // ---------- RFC 9110 ----------

  /** int-range and suffix-range. */
  datatype RangeSpec = IntRange(first: nat, last: Option<nat>) | SuffixRange(length: nat)

  /** An int-range whose last position is less than its first is invalid. */
  predicate Valid(spec: RangeSpec) {
    spec.IntRange? && spec.last.Some? ==> spec.first <= spec.last.value
  }

  /** Position p of a representation of this size is selected. */
  predicate Selects(spec: RangeSpec, size: nat, p: int) {
    && 0 <= p < size
    && match spec
       case IntRange(first, last) => first <= p && (last.Some? ==> p <= last.value)
       case SuffixRange(length) => size - length <= p
  }

  ghost predicate Satisfiable(spec: RangeSpec, size: nat) {
    Valid(spec) && exists p :: Selects(spec, size, p)
  }

  function Print(spec: RangeSpec): string {
    match spec
    case IntRange(first, last) => "bytes=" + Digits(first) + "-" + (if last.Some? then Digits(last.value) else "")
    case SuffixRange(length) => "bytes=-" + Digits(length)
  }

  predicate FitsInt64(spec: RangeSpec) {
    match spec
    case IntRange(first, last) => first < INT_BOUND && (last.Some? ==> last.value < INT_BOUND)
    case SuffixRange(length) => length < INT_BOUND
  }

  /** Header and spec agree: the texts around the first hyphen are read as the spec's numbers. */
  predicate Reads(rangeHeader: string, spec: RangeSpec) {
    var parts := Split(rangeHeader);
    && parts.Some?
    && var (first, last) := parts.value;
       match spec
       case SuffixRange(length) => first == "" && ParseInt(last) == Some(length)
       case IntRange(from, to) =>
         && first != "" && ParseInt(first) == Some(from)
         && (if to.None? then last == "" else last != "" && ParseInt(last) == Some(to.value))
  }

  lemma {:induction false} HyphenAfter(first: string, last: string)
    requires '-' !in first
    ensures Hyphen(first + "-" + last) == |first|
  {
    if first != "" {
      assert (first + "-" + last)[1..] == first[1..] + "-" + last;
      HyphenAfter(first[1..], last);
    }
  }

  lemma SplitParts(first: string, last: string)
    requires '-' !in first
    ensures Split("bytes=" + first + "-" + last) == Some((first, last))
  {
    var header, text := "bytes=" + first + "-" + last, first + "-" + last;
    assert header == "bytes=" + text && header[6..] == text;
    HyphenAfter(first, last);
    assert text[..|first|] == first && text[|first| + 1..] == last;
  }

  lemma PrintedReads(spec: RangeSpec)
    requires FitsInt64(spec)
    ensures Reads(Print(spec), spec)
  {
    hide Split, ParseInt, Digits;
    match spec {
      case SuffixRange(length) =>
        ParseDigits(length);
        assert Print(spec) == "bytes=" + "" + "-" + Digits(length);
        SplitParts("", Digits(length));
      case IntRange(first, last) =>
        var after := if last.Some? then Digits(last.value) else "";
        ParseDigits(first);
        if last.Some? {
          ParseDigits(last.value);
        }
        SplitParts(Digits(first), after);
    }
  }

  /**
   A header that reads as a spec is accepted exactly when RFC 9110 calls the spec valid and satisfiable,
   and then the range holds exactly the selected positions. An empty file is the exception below.
   */
  lemma MeansWhatItSays(rangeHeader: string, spec: RangeSpec, size: nat)
    requires Reads(rangeHeader, spec) && size > 0
    ensures ParseRangeHeader(rangeHeader, size).Some? <==> Satisfiable(spec, size)
    ensures var r := ParseRangeHeader(rangeHeader, size);
            r.Some? ==> forall p :: r.value.start <= p <= r.value.end <==> Selects(spec, size, p)
  {
    hide ParseInt, Split;
    var r := ParseRangeHeader(rangeHeader, size);
    if r.Some? {
      assert Selects(spec, size, r.value.start);
    }
  }

  /** Everything that is accepted reads as a spec. */
  lemma AcceptedReads(rangeHeader: string, size: int) returns (spec: RangeSpec)
    requires ParseRangeHeader(rangeHeader, size).Some?
    ensures Reads(rangeHeader, spec) && Valid(spec)
  {
    hide ParseInt, Split;
    var (first, last) := Split(rangeHeader).value;
    if first == "" {
      spec := SuffixRange(ParseInt(last).value);
    } else {
      spec := IntRange(ParseInt(first).value, if last == "" then None else Some(ParseInt(last).value));
    }
  }

  /** A sign is read as one. */
  lemma ParseSigned(n: nat)
    ensures ParseInt("-" + Digits(n)) == if n <= INT_BOUND then Some(0 - n) else None
    ensures ParseInt("+" + Digits(n)) == if n < INT_BOUND then Some(n) else None
  {
    DecimalOfDigits(n);
    hide Decimal, Digits;
    SignedDigits('-', Digits(n));
    SignedDigits('+', Digits(n));
    hide Signed;
  }

  lemma SignedDigits(sign: char, digits: string)
    requires AllDigits(digits) && digits != "" && (sign == '-' || sign == '+')
    ensures Signed([sign] + digits) == Some(if sign == '-' then 0 - Decimal(digits) else Decimal(digits))
  {
    hide Decimal;
    assert ([sign] + digits)[1..] == digits;
  }

  /** Nothing but digits after an optional sign is a number. */
  lemma ParseOthers(s: string, i: nat)
    requires 1 <= i < |s| && !IsDigit(s[i])
    ensures ParseInt(s).None? && ParseInt("").None? && ParseInt("-").None? && ParseInt("+").None?
  {
    hide Decimal;
    assert s[1..][i - 1] == s[i];
  }

  // ---------- Where the syntax differs ----------

  /** first-pos, last-pos and suffix-length are 1*DIGIT in section 14.1.2 of RFC 9110. */
  predicate Conforms(rangeHeader: string) {
    var parts := Split(rangeHeader);
    && parts.Some?
    && var (first, last) := parts.value;
       AllDigits(first) && AllDigits(last) && !(first == "" && last == "")
  }

  /** What a conforming header means, with numbers of any size. */
  function Denoted(rangeHeader: string): RangeSpec
    requires Conforms(rangeHeader)
  {
    var (first, last) := Split(rangeHeader).value;
    if first == "" then SuffixRange(Decimal(last))
    else IntRange(Decimal(first), if last == "" then None else Some(Decimal(last)))
  }

  /** Signs pass: an accepted header conforms to the syntax of RFC 9110 exactly when it has none. */
  lemma ConformsExactly(rangeHeader: string, size: int)
    requires ParseRangeHeader(rangeHeader, size).Some?
    ensures Conforms(rangeHeader)
       <==> var (first, last) := Split(rangeHeader).value; '+' !in first && '+' !in last && '-' !in last
  {
    var (first, last) := Split(rangeHeader).value;
    assert first != "" || last != "";
    hide Split, ParseInt;
    if first != "" {
    }
    if last != "" {
    }
  }

  /** A header outside the syntax of RFC 9110 that is accepted. */
  lemma SignsPass()
    ensures ParseRangeHeader("bytes=+1-+2", 10) == Some(ByteRange(1, 2)) && !Conforms("bytes=+1-+2")
  {
    var first, last := "+1", "+2";
    assert "bytes=+1-+2" == "bytes=" + first + "-" + last;
    SplitParts(first, last);
    SignedDigit('1');
    SignedDigit('2');
    hide Split, ParseInt;
  }

  lemma SignedDigit(d: char)
    requires IsDigit(d)
    ensures ParseInt(['+', d]) == Some(DigitValue(d)) && !AllDigits(['+', d])
  {
    var s, digits := ['+', d], [d];
    assert s[1..] == digits && digits[..0] == "" && digits[0] == d;
    assert Decimal(digits) == DigitValue(d);
    assert !IsDigit(s[0]);
  }

  /**
   A conforming header is accepted exactly when RFC 9110 calls it satisfiable and its numbers are 64-bit;
   larger ones, leading zeros aside, are refused even where the standard gives them a meaning.
   */
  lemma AcceptedExactly(rangeHeader: string, size: nat)
    requires Conforms(rangeHeader) && 0 < size < INT_BOUND
    ensures ParseRangeHeader(rangeHeader, size).Some?
       <==> Satisfiable(Denoted(rangeHeader), size) && FitsInt64(Denoted(rangeHeader))
  {
    var (first, last) := Split(rangeHeader).value;
    var spec := Denoted(rangeHeader);
    if first != "" {
    }
    if last != "" {
    }
    if FitsInt64(spec) {
      MeansWhatItSays(rangeHeader, spec, size);
    }
    hide Split, ParseInt, Satisfiable;
  }

  /** A satisfiable range of RFC 9110 that is refused: the last position does not fit 64 bits. */
  lemma LargePositionsFail(size: nat)
    requires 0 < size < INT_BOUND
    ensures var spec := IntRange(0, Some(INT_BOUND));
            && Satisfiable(spec, size) && ParseRangeHeader(Print(spec), size).None?
  {
    var spec := IntRange(0, Some(INT_BOUND));
    assert Selects(spec, size, 0);
    SplitParts(Digits(0), Digits(INT_BOUND));
    ParseDigits(0);
    ParseDigits(INT_BOUND);
    hide Split, ParseInt, Digits;
  }

  /** An accepted range lies within the file exactly when the file is not empty. */
  lemma InBoundsExactly(rangeHeader: string, size: nat)
    requires ParseRangeHeader(rangeHeader, size).Some?
    ensures var r := ParseRangeHeader(rangeHeader, size).value;
            0 <= r.start <= r.end < size <==> size > 0
  {
    hide ParseInt, Split;
  }

  /** For an empty file just the suffix ranges pass, as a range of no bytes. */
  lemma EmptyFile(length: nat)
    requires 0 < length < INT_BOUND
    ensures ParseRangeHeader(Print(SuffixRange(length)), 0) == Some(ByteRange(0, -1))
  {
    hide ParseInt, Split, Print;
    PrintedReads(SuffixRange(length));
  }

  /** Parsing inverts printing; a last position beyond the end is cut back. */
  lemma ParsePrinted(start: nat, last: nat, size: nat)
    requires start <= last < INT_BOUND && start < size
    ensures ParseRangeHeader(Print(IntRange(start, Some(last))), size)
         == Some(ByteRange(start, if last < size then last else size - 1))
  {
    hide ParseInt, Split, Print;
    PrintedReads(IntRange(start, Some(last)));
  }

  // ---------- Chunks ----------

  /** What is served for the header: from start, end - start + 1 bytes. */
  function Served(content: string, rangeHeader: string): Option<string> {
    var r := ParseRangeHeader(rangeHeader, |content|);
    if r.Some? && 0 <= r.value.start <= r.value.end < |content|
    then Some(content[r.value.start..r.value.start + (r.value.end - r.value.start + 1)]) else None
  }

  function ChunkHeader(i: nat, size: nat): string
    requires size > 0
  {
    Print(IntRange(i * size, Some(i * size + size - 1)))
  }

  /** The file as fetched chunk by chunk until a request fails. */
  function Fetched(content: string, i: nat, size: nat): string
    requires size > 0
    decreases |content| - i * size
  {
    var part := Served(content, ChunkHeader(i, size));
    if part.None? || i * size >= |content| then ""
    else
      assert (i + 1) * size == i * size + size;
      part.value + Fetched(content, i + 1, size)
  }

  lemma ChunkServed(content: string, i: nat, size: nat)
    requires size > 0 && |content| + size <= INT_BOUND && i * size < |content|
    ensures var a := i * size;
            Served(content, ChunkHeader(i, size))
            == Some(content[a..if a + size < |content| then a + size else |content|])
  {
    hide ParseInt, Split, Print;
    var a := i * size;
    var end := if a + size < |content| then a + size - 1 else |content| - 1;
    ParsePrinted(a, a + size - 1, |content|);
    assert ParseRangeHeader(ChunkHeader(i, size), |content|) == Some(ByteRange(a, end));
  }

  /** Adjacent ranges tile the file: fetching it in chunks of any size gives it back. */
  lemma {:induction false} ChunksTile(content: string, i: nat, size: nat)
    requires size > 0 && |content| + size <= INT_BOUND
    ensures Fetched(content, i, size) == if i * size <= |content| then content[i * size..] else ""
    decreases |content| - i * size
  {
    hide Served, ChunkHeader;
    var a := i * size;
    if a < |content| {
      ChunkServed(content, i, size);
      assert (i + 1) * size == a + size;
      ChunksTile(content, i + 1, size);
      var b := if a + size < |content| then a + size else |content|;
      assert content[a..] == content[a..b] + content[b..];
    }
  }
}
