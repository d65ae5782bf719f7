/**
 The bencode reader of internal/core/util/torrent.go: a string decoder and a recursive skipper
 over a byte slice. A Go byte slice or string is a Dafny `string`, one char per byte.

 The accepted language is described on its own, as the texts of well-formed `Value` trees,
 and the reader is proved to recognize exactly that language.
 */
module Bencode {
  import opened Wrappers
  import opened Numbers

  // ---------- The accepted language ----------

  lemma DecimalStep(data: string, pos: nat, i: nat)
    requires pos <= i < |data| && AllDigits(data[pos..i]) && IsDigit(data[i])
    ensures AllDigits(data[pos..i + 1])
    ensures Decimal(data[pos..i + 1]) == Decimal(data[pos..i]) * 10 + DigitValue(data[i])
  {
    assert data[pos..i + 1][..i - pos] == data[pos..i];
  }

  /**
   A syntax tree of what the reader accepts. It is looser than BEP 3, section "bencoding":
   an integer body is anything without an 'e', a length may be empty or have leading zeros,
   and the items of a dictionary need not be key/value pairs.
   */
  datatype Value =
    | Integer(body: string)
    | Str(digits: string, payload: string)
    | Compound(open: char, items: Values)

  datatype Values = Nil | Cons(head: Value, tail: Values)

  predicate WellFormed(v: Value) {
    match v
    case Integer(body) => 'e' !in body
    case Str(digits, payload) => AllDigits(digits) && |payload| == WrapInt(Decimal(digits))
    case Compound(open, items) => (open == 'l' || open == 'd') && AllWellFormed(items)
  }

  predicate AllWellFormed(vs: Values) {
    match vs
    case Nil => true
    case Cons(v, rest) => WellFormed(v) && AllWellFormed(rest)
  }

  function Text(v: Value): (s: string)
    ensures s != ""
  {
    match v
    case Integer(body) => "i" + body + "e"
    case Str(digits, payload) => digits + ":" + payload
    case Compound(open, items) => [open] + AllText(items) + "e"
  }

  function AllText(vs: Values): string {
    match vs
    case Nil => ""
    case Cons(v, rest) => Text(v) + AllText(rest)
  }

  /** w stands in data at pos. */
  predicate At(data: string, pos: nat, w: string) {
    pos + |w| <= |data| && data[pos..pos + |w|] == w
  }

  lemma AtSplit(data: string, pos: nat, u: string, w: string)
    ensures At(data, pos, u + w) <==> At(data, pos, u) && At(data, pos + |u|, w)
  {
    if pos + |u| + |w| <= |data| {
      var d := data[pos..pos + |u| + |w|];
      assert d[..|u|] == data[pos..pos + |u|] && d[|u|..] == data[pos + |u|..pos + |u| + |w|];
      assert d == d[..|u|] + d[|u|..];
      assert d == u + w ==> d[..|u|] == u && d[|u|..] == w;
    }
  }

  // ---------- The reader as a function of its input ----------

  datatype DecodeError =
    | InvalidLength(pos: nat)
    | UnterminatedString(pos: nat)
    | StringOverflow(pos: nat)
    | UnexpectedEnd(pos: nat)
    | UnterminatedInteger
    | UnterminatedCompound

  /** The first index from pos on that holds c, or the end of the data. */
  function IndexFrom(data: string, pos: nat, c: char): (i: nat)
    requires pos <= |data|
    ensures pos <= i <= |data|
    ensures forall k :: pos <= k < i ==> data[k] != c
    ensures i < |data| ==> data[i] == c
    decreases |data| - pos
  {
    if pos == |data| || data[pos] == c then pos else IndexFrom(data, pos + 1, c)
  }

  /** Where the length digits from pos on end: at a ':' or at the end of the data; None at any other byte. */
  function LengthEnd(data: string, pos: nat): (r: Option<nat>)
    ensures r.Some? ==> pos <= r.value && (pos <= |data| ==> r.value <= |data|)
    ensures r.Some? && pos <= |data| ==> forall k :: pos <= k < r.value ==> IsDigit(data[k])
    ensures r.Some? && r.value < |data| ==> data[r.value] == ':'
    decreases |data| - pos
  {
    if pos >= |data| || data[pos] == ':' then Some(pos)
    else if !IsDigit(data[pos]) then None
    else LengthEnd(data, pos + 1)
  }

  /** The string at pos and the position after it. Lengths and positions are 64-bit ints. */
  function ReadString(data: string, pos: nat): (r: Outcome<(string, nat), DecodeError>)
    requires |data| < INT_BOUND
    ensures r.Done? ==> pos < r.value.1 <= |data| && |r.value.0| < r.value.1
  {
    var end := LengthEnd(data, pos);
    if end.None? then Fail(InvalidLength(pos))
    else if end.value >= |data| then Fail(UnterminatedString(pos))
    else
      var start := end.value + 1;
      var stop := WrapInt(start + WrapInt(Decimal(data[pos..end.value])));
      if stop > |data| then Fail(StringOverflow(pos))
      else if stop < start then Panic
      else Done((data[start..stop], stop))
  }

  /** The position after the value at pos. */
  function Skip(data: string, pos: nat): (r: Outcome<nat, DecodeError>)
    requires |data| < INT_BOUND
    ensures r.Done? ==> pos < r.value <= |data|
    decreases |data| - pos, 0
  {
    if pos >= |data| then Fail(UnexpectedEnd(pos))
    else if data[pos] == 'i' then
      var i := IndexFrom(data, pos + 1, 'e');
      if i == |data| then Fail(UnterminatedInteger) else Done(i + 1)
    else if data[pos] == 'l' || data[pos] == 'd' then SkipItems(data, pos + 1)
    else
      var s := ReadString(data, pos);
      if s.Done? then Done(s.value.1) else s.Propagate()
  }

  /** The position after the 'e' that closes the values from pos on. */
  function SkipItems(data: string, pos: nat): (r: Outcome<nat, DecodeError>)
    requires |data| < INT_BOUND
    ensures r.Done? ==> pos < r.value <= |data|
    decreases |data| - pos, 1
  {
    if pos >= |data| then Fail(UnterminatedCompound)
    else if data[pos] == 'e' then Done(pos + 1)
    else
      var next := Skip(data, pos);
      if next.Done? then SkipItems(data, next.value) else next
  }

  // ---------- The source's loops ----------

  lemma NoDigits()
    ensures WrapInt(Decimal("")) == 0
  {
  }

  lemma ReadStringUnfolds(data: string, pos: nat)
    requires |data| < INT_BOUND
    ensures var end := LengthEnd(data, pos);
            if end.None? then ReadString(data, pos) == Fail(InvalidLength(pos))
            else if end.value >= |data| then ReadString(data, pos) == Fail(UnterminatedString(pos))
            else
              var start, length := end.value + 1, WrapInt(Decimal(data[pos..end.value]));
              ReadString(data, pos) ==
                (if WrapInt(start + length) > |data| then Fail(StringOverflow(pos))
                 else if WrapInt(start + length) < start then Panic
                 else Done((data[start..WrapInt(start + length)], WrapInt(start + length))))
  {
  }

  method BdecodeString(data: string, pos: nat) returns (r: Outcome<(string, nat), DecodeError>)
    requires |data| < INT_BOUND
    ensures r == ReadString(data, pos)
  {
    hide ReadString, Decimal, WrapInt;
    ReadStringUnfolds(data, pos);
    var end := pos;
    while end < |data| && data[end] != ':'
      invariant pos <= end && (pos <= |data| ==> end <= |data|)
      invariant LengthEnd(data, pos) == LengthEnd(data, end)
      invariant forall k :: pos <= k < end ==> IsDigit(data[k])
    {
      if data[end] < '0' || data[end] > '9' {
        return Fail(InvalidLength(pos));
      }
      end := end + 1;
    }
    if end >= |data| {
      return Fail(UnterminatedString(pos));
    }
    var length := 0;
    var i := pos;
    assert WrapInt(Decimal(data[pos..i])) == 0 by { NoDigits(); assert data[pos..i] == ""; }
    while i < end
      invariant pos <= i <= end
      invariant AllDigits(data[pos..i]) && length == WrapInt(Decimal(data[pos..i]))
    {
      DecimalStep(data, pos, i);
      WrapStep(Decimal(data[pos..i]), DigitValue(data[i]));
      length := WrapInt(length * 10 + (data[i] as int - '0' as int));
      i := i + 1;
    }
    var start := end + 1;
    if WrapInt(start + length) > |data| {
      return Fail(StringOverflow(pos));
    }
    if WrapInt(start + length) < start {
      return Panic;  // the slice expression data[start : start+length] is out of range
    }
    r := Done((data[start..WrapInt(start + length)], WrapInt(start + length)));
  }

  method BdecodeSkip(data: string, pos: nat) returns (r: Outcome<nat, DecodeError>)
    requires |data| < INT_BOUND
    ensures r == Skip(data, pos)
    decreases |data| - pos
  {
    if pos >= |data| {
      return Fail(UnexpectedEnd(pos));
    }
    match data[pos] {
      case 'i' =>
        var p := pos + 1;
        while p < |data| && data[p] != 'e'
          invariant pos < p <= |data|
          invariant IndexFrom(data, pos + 1, 'e') == IndexFrom(data, p, 'e')
        {
          p := p + 1;
        }
        if p >= |data| {
          return Fail(UnterminatedInteger);
        }
        r := Done(p + 1);
      case 'l' | 'd' =>
        var p := pos + 1;
        while p < |data| && data[p] != 'e'
          invariant pos < p <= |data|
          invariant SkipItems(data, pos + 1) == SkipItems(data, p)
        {
          var next := BdecodeSkip(data, p);
          if !next.Done? {
            return next;
          }
          p := next.value;
        }
        if p >= |data| {
          return Fail(UnterminatedCompound);
        }
        r := Done(p + 1);
      case _ =>
        var s := BdecodeString(data, pos);
        r := if s.Done? then Done(s.value.1) else s.Propagate();
    }
  }

  // ---------- Exactness ----------

  lemma LengthEndAt(data: string, pos: nat, digits: string)
    requires AllDigits(digits) && At(data, pos, digits + ":")
    ensures LengthEnd(data, pos) == Some(pos + |digits|)
    decreases |digits|
  {
    AtSplit(data, pos, digits, ":");
    if digits != "" {
      assert data[pos] == data[pos..pos + |digits|][0] == digits[0];
      assert digits == [digits[0]] + digits[1..];
      AtSplit(data, pos, [digits[0]], digits[1..]);
      AtSplit(data, pos + 1, digits[1..], ":");
      LengthEndAt(data, pos + 1, digits[1..]);
    } else {
      assert data[pos] == data[pos..pos + 1][0] == ':';
    }
  }

  /** A well-formed string text is read back, whatever follows it. */
  lemma ReadStringAt(data: string, pos: nat, digits: string, payload: string)
    requires |data| < INT_BOUND
    requires WellFormed(Str(digits, payload)) && At(data, pos, Text(Str(digits, payload)))
    ensures ReadString(data, pos) == Done((payload, pos + |digits| + 1 + |payload|))
  {
    AtSplit(data, pos, digits + ":", payload);
    AtSplit(data, pos, digits, ":");
    LengthEndAt(data, pos, digits);
  }

  /** What is read as a string is a well-formed string text. */
  lemma ReadStringSound(data: string, pos: nat) returns (digits: string)
    requires |data| < INT_BOUND && ReadString(data, pos).Done?
    ensures var (payload, n) := ReadString(data, pos).value;
            && WellFormed(Str(digits, payload))
            && At(data, pos, Text(Str(digits, payload)))
            && n == pos + |Text(Str(digits, payload))|
  {
    var end := LengthEnd(data, pos).value;
    var (payload, n) := ReadString(data, pos).value;
    digits := data[pos..end];
    hide WrapInt, Decimal, LengthEnd;
    assert n == end + 1 + WrapInt(Decimal(digits)) by {
      SliceEnd(end + 1, Decimal(digits));
      WrapByRemainder(Decimal(digits));
    }
    hide ReadString;
    assert data[pos..n] == digits + ":" + payload;
  }

  lemma IntegerAt(data: string, pos: nat, body: string)
    requires 'e' !in body && At(data, pos, "i" + body + "e")
    ensures IndexFrom(data, pos + 1, 'e') == pos + 1 + |body| < |data|
  {
    AtSplit(data, pos, "i" + body, "e");
    AtSplit(data, pos, "i", body);
    var stop := pos + 1 + |body|;
    assert data[stop] == data[stop..stop + 1][0] == 'e';
    assert forall k :: pos + 1 <= k < stop ==> data[k] == data[pos + 1..stop][k - pos - 1];
  }

  /** Completeness: the skipper lands just past any well-formed text, whatever follows it. */
  lemma {:induction false} SkipAt(data: string, pos: nat, v: Value)
    requires |data| < INT_BOUND
    requires WellFormed(v) && At(data, pos, Text(v))
    ensures Skip(data, pos) == Done(pos + |Text(v)|)
    decreases v
  {
    assert data[pos] == Text(v)[0];
    hide At;
    match v {
      case Integer(body) =>
        IntegerAt(data, pos, body);
      case Str(digits, payload) =>
        ReadStringAt(data, pos, digits, payload);
      case Compound(open, items) =>
        CompoundAt(data, pos, open, items);
        SkipItemsAt(data, pos + 1, items);
    }
  }

  lemma {:induction false} SkipItemsAt(data: string, pos: nat, vs: Values)
    requires |data| < INT_BOUND
    requires AllWellFormed(vs) && At(data, pos, AllText(vs) + "e")
    ensures SkipItems(data, pos) == Done(pos + |AllText(vs)| + 1)
    decreases vs
  {
    hide Skip;
    match vs {
      case Nil =>
        assert data[pos] == data[pos..pos + 1][0] == 'e';
      case Cons(v, rest) =>
        AtCons(data, pos, v, rest);
        hide At;
        FirstByte(v);
        SkipAt(data, pos, v);
        SkipItemsAt(data, pos + |Text(v)|, rest);
    }
  }

  lemma AtCons(data: string, pos: nat, v: Value, rest: Values)
    requires At(data, pos, AllText(Cons(v, rest)) + "e")
    ensures At(data, pos, Text(v)) && At(data, pos + |Text(v)|, AllText(rest) + "e")
    ensures data[pos] == Text(v)[0]
  {
    assert AllText(Cons(v, rest)) + "e" == Text(v) + (AllText(rest) + "e");
    AtSplit(data, pos, Text(v), AllText(rest) + "e");
    assert data[pos] == data[pos..pos + |Text(v)|][0] == Text(v)[0];
  }

  lemma FirstByte(v: Value)
    requires WellFormed(v)
    ensures var c := Text(v)[0]; c == 'i' || c == 'l' || c == 'd' || c == ':' || IsDigit(c)
  {
  }

  /** Soundness: what the skipper passes over is a well-formed text. */
  lemma {:induction false} SkipSound(data: string, pos: nat) returns (v: Value)
    requires |data| < INT_BOUND && Skip(data, pos).Done?
    ensures WellFormed(v) && At(data, pos, Text(v)) && Skip(data, pos).value == pos + |Text(v)|
    decreases |data| - pos, 0
  {
    hide ReadString, At, IndexFrom;
    if data[pos] == 'i' {
      v := IntegerSound(data, pos);
    } else if data[pos] == 'l' || data[pos] == 'd' {
      var items := SkipItemsSound(data, pos + 1);
      v := Compound(data[pos], items);
      CompoundAt(data, pos, data[pos], items);
    } else {
      var digits := ReadStringSound(data, pos);
      v := Str(digits, ReadString(data, pos).value.0);
    }
  }

  lemma IntegerSound(data: string, pos: nat) returns (v: Value)
    requires pos < |data| && data[pos] == 'i' && IndexFrom(data, pos + 1, 'e') < |data|
    ensures WellFormed(v) && At(data, pos, Text(v)) && IndexFrom(data, pos + 1, 'e') + 1 == pos + |Text(v)|
  {
    var stop := IndexFrom(data, pos + 1, 'e');
    var body := data[pos + 1..stop];
    v := Integer(body);
    assert data[pos..stop + 1] == "i" + body + "e";
  }

  /** The text of a compound value, after its opening byte. */
  lemma CompoundAt(data: string, pos: nat, open: char, items: Values)
    ensures At(data, pos, Text(Compound(open, items)))
       <==> pos < |data| && data[pos] == open && At(data, pos + 1, AllText(items) + "e")
  {
    assert Text(Compound(open, items)) == [open] + (AllText(items) + "e");
    AtSplit(data, pos, [open], AllText(items) + "e");
    assert pos < |data| ==> data[pos..pos + 1] == [data[pos]];
  }

  lemma {:induction false} SkipItemsSound(data: string, pos: nat) returns (vs: Values)
    requires |data| < INT_BOUND && SkipItems(data, pos).Done?
    ensures AllWellFormed(vs) && At(data, pos, AllText(vs) + "e")
    ensures SkipItems(data, pos).value == pos + |AllText(vs)| + 1
    decreases |data| - pos, 1
  {
    if data[pos] == 'e' {
      vs := Nil;
    } else {
      var v := SkipSound(data, pos);
      var rest := SkipItemsSound(data, Skip(data, pos).value);
      vs := Cons(v, rest);
      assert AllText(vs) + "e" == Text(v) + (AllText(rest) + "e");
      AtSplit(data, pos, Text(v), AllText(rest) + "e");
    }
  }

  ghost predicate IsWord(w: string) {
    exists v :: WellFormed(v) && Text(v) == w
  }

  /** The skipper succeeds at pos with n exactly when data[pos..n] is a word of the accepted language. */
  lemma SkipExact(data: string, pos: nat, n: nat)
    requires |data| < INT_BOUND
    ensures Skip(data, pos) == Done(n) <==> pos <= n <= |data| && IsWord(data[pos..n])
  {
    if Skip(data, pos) == Done(n) {
      var v := SkipSound(data, pos);
      assert WellFormed(v) && Text(v) == data[pos..n];
    }
    if pos <= n <= |data| && IsWord(data[pos..n]) {
      var v :| WellFormed(v) && Text(v) == data[pos..n];
      SkipAt(data, pos, v);
    }
  }

  /** No word is a proper prefix of another, so the result is unique and later bytes do not matter. */
  lemma WordsArePrefixFree(data: string, v: Value, w: Value)
    requires |data| < INT_BOUND
    requires WellFormed(v) && WellFormed(w) && Text(v) <= data && Text(w) <= data
    ensures Text(v) == Text(w)
  {
    SkipAt(data, 0, v);
    SkipAt(data, 0, w);
  }

  /** A value that was skipped is a readable string or not a string at all: reading it never panics. */
  lemma SkippedReadsSafely(data: string, pos: nat)
    requires |data| < INT_BOUND && Skip(data, pos).Done?
    ensures !ReadString(data, pos).Panic?
    ensures ReadString(data, pos).Done? ==> Skip(data, pos) == Done(ReadString(data, pos).value.1)
  {
  }

  // ---------- BEP 3 values ----------

  /** The values of BEP 3, section "bencoding". */
  datatype BValue =
    | BInt(n: int)
    | BString(s: string)
    | BList(elements: BValues)
    | BDict(entries: BEntries)

  datatype BValues = BNil | BCons(head: BValue, tail: BValues)

  datatype BEntries = BEmpty | BEntry(key: string, value: BValue, rest: BEntries)

  function EncodeString(s: string): string {
    Digits(|s|) + ":" + s
  }

  /** The encoding of BEP 3, section "bencoding". */
  function Encode(v: BValue): string {
    match v
    case BInt(n) => "i" + (if n < 0 then "-" + Digits(-n) else Digits(n)) + "e"
    case BString(s) => EncodeString(s)
    case BList(elements) => "l" + EncodeAll(elements) + "e"
    case BDict(entries) => "d" + EncodeEntries(entries) + "e"
  }

  function EncodeAll(vs: BValues): string {
    match vs
    case BNil => ""
    case BCons(v, rest) => Encode(v) + EncodeAll(rest)
  }

  function EncodeEntries(es: BEntries): string {
    match es
    case BEmpty => ""
    case BEntry(k, v, rest) => EncodeString(k) + Encode(v) + EncodeEntries(rest)
  }

  function Tree(v: BValue): Value {
    match v
    case BInt(n) => Integer(if n < 0 then "-" + Digits(-n) else Digits(n))
    case BString(s) => Str(Digits(|s|), s)
    case BList(elements) => Compound('l', Trees(elements))
    case BDict(entries) => Compound('d', EntryTrees(entries))
  }

  function Trees(vs: BValues): Values {
    match vs
    case BNil => Nil
    case BCons(v, rest) => Cons(Tree(v), Trees(rest))
  }

  function EntryTrees(es: BEntries): Values {
    match es
    case BEmpty => Nil
    case BEntry(k, v, rest) => Cons(Str(Digits(|k|), k), Cons(Tree(v), EntryTrees(rest)))
  }

  lemma TreeText(v: BValue)
    ensures Text(Tree(v)) == Encode(v)
    decreases v
  {
    match v {
      case BInt(_) =>
      case BString(_) =>
      case BList(elements) => TreesText(elements);
      case BDict(entries) => EntryTreesText(entries);
    }
  }

  lemma TreesText(vs: BValues)
    ensures AllText(Trees(vs)) == EncodeAll(vs)
    decreases vs
  {
    match vs {
      case BNil =>
      case BCons(v, rest) => TreeText(v); TreesText(rest);
    }
  }

  lemma EntryTreesText(es: BEntries)
    ensures AllText(EntryTrees(es)) == EncodeEntries(es)
    decreases es
  {
    match es {
      case BEmpty =>
      case BEntry(k, v, rest) =>
        TreeText(v); EntryTreesText(rest);
        assert AllText(EntryTrees(es)) == EncodeString(k) + (Text(Tree(v)) + AllText(EntryTrees(rest)));
    }
  }

  lemma TreeWellFormed(v: BValue)
    requires |Encode(v)| < INT_BOUND
    ensures WellFormed(Tree(v))
    decreases v
  {
    match v {
      case BInt(_) =>
      case BString(s) => DecimalOfDigits(|s|);
      case BList(elements) => TreesWellFormed(elements);
      case BDict(entries) => EntryTreesWellFormed(entries);
    }
  }

  lemma TreesWellFormed(vs: BValues)
    requires |EncodeAll(vs)| < INT_BOUND
    ensures AllWellFormed(Trees(vs))
    decreases vs
  {
    match vs {
      case BNil =>
      case BCons(v, rest) => TreeWellFormed(v); TreesWellFormed(rest);
    }
  }

  lemma EntryTreesWellFormed(es: BEntries)
    requires |EncodeEntries(es)| < INT_BOUND
    ensures AllWellFormed(EntryTrees(es))
    decreases es
  {
    match es {
      case BEmpty =>
      case BEntry(k, v, rest) => DecimalOfDigits(|k|); TreeWellFormed(v); EntryTreesWellFormed(rest);
    }
  }

  /** Every bencoded value is skipped exactly, wherever it stands and whatever follows. */
  lemma SkipEncoded(before: string, v: BValue, after: string)
    requires |before + Encode(v) + after| < INT_BOUND
    ensures Skip(before + Encode(v) + after, |before|) == Done(|before| + |Encode(v)|)
  {
    var data := before + Encode(v) + after;
    TreeText(v);
    TreeWellFormed(v);
    assert data[|before|..|before| + |Encode(v)|] == Encode(v);
    SkipAt(data, |before|, Tree(v));
  }

  /** A bencoded string is decoded to itself. */
  lemma ReadEncoded(before: string, s: string, after: string)
    requires |before + EncodeString(s) + after| < INT_BOUND
    ensures ReadString(before + EncodeString(s) + after, |before|)
         == Done((s, |before| + |EncodeString(s)|))
  {
    var data := before + EncodeString(s) + after;
    DecimalOfDigits(|s|);
    assert data[|before|..|before| + |EncodeString(s)|] == EncodeString(s);
    ReadStringAt(data, |before|, Digits(|s|), s);
  }

  // ---------- Lengths that do not fit ----------

  lemma WrapByRemainder(n: int)
    ensures WrapInt(n) == var l := n % (2 * INT_BOUND); if l < INT_BOUND then l else l - 2 * INT_BOUND
  {
  }

  /** Where a string slice ends, by the remainder of its declared length modulo 2^64. */
  lemma SliceEnd(start: nat, length: nat)
    requires start < INT_BOUND
    ensures var l := length % (2 * INT_BOUND);
            var stop := WrapInt(start + WrapInt(length));
            if l < INT_BOUND - start then stop == start + l else stop < start
  {
    WrapByRemainder(length);
    WrapByRemainder(start + WrapInt(length));
  }

  /**
   Lengths count modulo 2^64: a bare length is accepted, as the empty string, exactly when it is
   a multiple of 2^64, although as a mathematical length only 0 is.
   */
  lemma LengthsCountModulo(digits: string)
    requires AllDigits(digits) && |digits| + 1 < INT_BOUND
    ensures ReadString(digits + ":", 0).Done? <==> Decimal(digits) % (2 * INT_BOUND) == 0
  {
    hide Decimal, LengthEnd, WrapInt, At;
    var data := digits + ":";
    assert LengthEnd(data, 0) == Some(|digits|) by {
      LengthEndAt(data, 0, digits);
    }
    assert data[0..|digits|] == digits;
    SliceEnd(|data|, Decimal(digits));
  }

  /** The grammar with lengths as mathematical numbers. */
  predicate Exact(v: Value) {
    match v
    case Integer(body) => 'e' !in body
    case Str(digits, payload) => AllDigits(digits) && |payload| == Decimal(digits)
    case Compound(open, items) => (open == 'l' || open == 'd') && AllExact(items)
  }

  predicate AllExact(vs: Values) {
    match vs
    case Nil => true
    case Cons(v, rest) => Exact(v) && AllExact(rest)
  }

  /** Every length in the tree is that of a 64-bit int. */
  predicate LengthsFit(v: Value)
    requires WellFormed(v)
  {
    match v
    case Integer(_) => true
    case Str(digits, _) => Decimal(digits) < INT_BOUND
    case Compound(_, items) => AllLengthsFit(items)
  }

  predicate AllLengthsFit(vs: Values)
    requires AllWellFormed(vs)
  {
    match vs
    case Nil => true
    case Cons(v, rest) => LengthsFit(v) && AllLengthsFit(rest)
  }

  /** On texts that fit into memory, the mathematical grammar is the accepted one without larger lengths. */
  lemma {:induction false} ExactIsFitting(v: Value)
    requires |Text(v)| < INT_BOUND
    ensures Exact(v) <==> WellFormed(v) && LengthsFit(v)
  {
    if v.Compound? {
      AllExactAreFitting(v.items);
    }
  }

  lemma {:induction false} AllExactAreFitting(vs: Values)
    requires |AllText(vs)| < INT_BOUND
    ensures AllExact(vs) <==> AllWellFormed(vs) && AllLengthsFit(vs)
  {
    if vs.Cons? {
      ExactIsFitting(vs.head);
      AllExactAreFitting(vs.tail);
    }
  }

  /** A word has one tree. */
  lemma {:induction false} OneTree(v: Value, w: Value)
    requires WellFormed(v) && WellFormed(w) && Text(v) == Text(w) && |Text(v)| < INT_BOUND
    ensures v == w
    decreases v
  {
    var t := Text(v);
    FirstByte(v);
    FirstByte(w);
    match v {
      case Integer(body) =>
        assert t[1..|t| - 1] == body;
        assert w.Integer? && t[1..|t| - 1] == w.body;
      case Str(digits, payload) =>
        OneString(digits, payload, w.digits, w.payload);
      case Compound(open, items) =>
        assert t[1..] == AllText(items) + "e" && t[1..] == AllText(w.items) + "e";
        OneTreeEach(items, w.items);
    }
  }

  lemma OneString(digits: string, payload: string, digits': string, payload': string)
    requires WellFormed(Str(digits, payload)) && WellFormed(Str(digits', payload'))
    requires Text(Str(digits, payload)) == Text(Str(digits', payload')) && |Text(Str(digits, payload))| < INT_BOUND
    ensures digits == digits' && payload == payload'
  {
    hide ReadString, WellFormed, At;
    var t := Text(Str(digits, payload));
    ReadStringAt(t, 0, digits, payload);
    ReadStringAt(t, 0, digits', payload');
    assert t[..|digits|] == digits && t[..|digits'|] == digits';
  }

  lemma {:induction false} OneTreeEach(vs: Values, ws: Values)
    requires AllWellFormed(vs) && AllWellFormed(ws)
    requires AllText(vs) + "e" == AllText(ws) + "e" && |AllText(vs)| + 1 < INT_BOUND
    ensures vs == ws
    decreases vs
  {
    var data := AllText(vs) + "e";
    if vs.Cons? {
      FirstByte(vs.head);
      assert data == Text(vs.head) + (AllText(vs.tail) + "e");
      assert ws.Cons? && data == Text(ws.head) + (AllText(ws.tail) + "e");
      WordsArePrefixFree(data, vs.head, ws.head);
      OneTree(vs.head, ws.head);
      assert data[|Text(vs.head)|..] == AllText(vs.tail) + "e";
      OneTreeEach(vs.tail, ws.tail);
    }
  }

  ghost predicate IsExactWord(w: string) {
    exists v :: Exact(v) && Text(v) == w
  }

  /** Every length read within the word is that of a 64-bit int; a word has just one tree. */
  ghost predicate WordLengthsFit(w: string) {
    forall v :: WellFormed(v) && Text(v) == w ==> LengthsFit(v)
  }

  /**
   The skipper accepts every word of the mathematical grammar, and what it accepts is such a word exactly
   when no length in it reaches 2^63.
   */
  lemma SkipExactWord(data: string, pos: nat, n: nat)
    requires |data| < INT_BOUND
    ensures pos <= n <= |data| && IsExactWord(data[pos..n]) ==> Skip(data, pos) == Done(n)
    ensures Skip(data, pos) == Done(n) ==> (IsExactWord(data[pos..n]) <==> WordLengthsFit(data[pos..n]))
  {
    hide Skip, Exact, WellFormed, LengthsFit;
    SkipExact(data, pos, n);
    if pos <= n <= |data| {
      var w := data[pos..n];
      if IsExactWord(w) {
        var v :| Exact(v) && Text(v) == w;
        ExactIsFitting(v);
        forall u | WellFormed(u) && Text(u) == w ensures LengthsFit(u) {
          OneTree(u, v);
        }
      }
      if IsWord(w) && WordLengthsFit(w) {
        var v :| WellFormed(v) && Text(v) == w;
        ExactIsFitting(v);
      }
    }
  }

  /** 2^64 as a length: the skipper takes it for the empty string, which it is not in the mathematical grammar. */
  lemma LargeLengthPasses()
    ensures var word := Digits(2 * INT_BOUND) + ":";
            |word| < INT_BOUND && Skip(word, 0) == Done(|word|) && !IsExactWord(word)
  {
    var digits := Digits(2 * INT_BOUND);
    DecimalOfDigits(2 * INT_BOUND);
    FewDigits(2 * INT_BOUND);
    hide Digits, Decimal;
    LargeLength(digits);
  }

  lemma {:induction false} FewDigits(n: nat)
    ensures |Digits(n)| <= 1 + n / 10
  {
    if n >= 10 {
      FewDigits(n / 10);
    }
  }

  lemma LargeLength(digits: string)
    requires AllDigits(digits) && Decimal(digits) == 2 * INT_BOUND && |digits| + 1 < INT_BOUND
    ensures Skip(digits + ":", 0) == Done(|digits| + 1) && !IsExactWord(digits + ":")
  {
    hide Skip, Exact, Decimal, LengthsFit, Text, WellFormed;
    var v, data := Str(digits, ""), digits + ":";
    assert Text(v) == data && WellFormed(v) && !LengthsFit(v) by { LargeString(digits); }
    SkipAt(data, 0, v);
    assert data[0..|data|] == data;
    SkipExactWord(data, 0, |data|);
  }

  lemma LargeString(digits: string)
    requires AllDigits(digits) && Decimal(digits) == 2 * INT_BOUND
    ensures var v := Str(digits, ""); Text(v) == digits + ":" && WellFormed(v) && !LengthsFit(v)
  {
    hide Decimal;
    WrapByRemainder(2 * INT_BOUND);
  }

  /** Reading panics exactly when the declared length, modulo 2^64, leaves the range of an int. */
  lemma PanicExactly(data: string, pos: nat)
    requires |data| < INT_BOUND
    ensures ReadString(data, pos).Panic? <==>
              var end := LengthEnd(data, pos);
              && end.Some? && end.value < |data|
              && Decimal(data[pos..end.value]) % (2 * INT_BOUND) >= INT_BOUND - (end.value + 1)
  {
    var end := LengthEnd(data, pos);
    if end.Some? && end.value < |data| {
      SliceEnd(end.value + 1, Decimal(data[pos..end.value]));
    }
  }

  /** A length that panics: the largest int, after which no string can start. */
  lemma LargestLengthPanics()
    ensures var word := Digits(INT_BOUND - 1) + ":";
            |word| < INT_BOUND && ReadString(word, 0).Panic?
  {
    var digits := Digits(INT_BOUND - 1);
    var word := digits + ":";
    DecimalOfDigits(INT_BOUND - 1);
    FewDigits(INT_BOUND - 1);
    hide Digits, Decimal, LengthEnd, At, WrapInt, ReadString;
    LengthEndAt(word, 0, digits);
    assert word[0..|digits|] == digits;
    PanicExactly(word, 0);
  }
}
