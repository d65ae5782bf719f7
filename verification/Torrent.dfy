/**
 The .torrent readers of internal/core/util/torrent.go: TorrentInfoHash, TorrentToMagnet and
 extractInfoName, and the agreement between the two ways a torrent can be submitted, by upload
 (through a magnet) and by URL. SHA-1 and SHA-256 are parameters.
 */
module Torrent {
  import opened Wrappers
  import opened Numbers
  import opened Bencode
  import Hex
  import opened Magnet

  type Digest20 = d: seq<Hex.Octet> | |d| == 20 witness seq(20, _ => 0)

  datatype TorrentError = NotADict | InfoMissing | Malformed(error: DecodeError)

  // ---------- One dictionary entry ----------

  /** The key at pos, where its value starts, and where the value ends. */
  function NextEntry(data: string, pos: nat): (r: Outcome<(string, nat, nat), DecodeError>)
    requires |data| < INT_BOUND
    ensures r.Done? ==> pos < r.value.1 < r.value.2 <= |data|
    ensures r.Done? ==> Skip(data, r.value.1) == Done(r.value.2)
  {
    var key := ReadString(data, pos);
    if !key.Done? then key.Propagate()
    else
      var next := Skip(data, key.value.1);
      if next.Done? then Done((key.value.0, key.value.1, next.value)) else next.Propagate()
  }

  /** Dictionary entries: the written length and text of the key, and the value. */
  datatype Entry = Entry(digits: string, key: string, value: Value)

  datatype Entries = NoEntries | More(head: Entry, tail: Entries)

  predicate GoodEntry(e: Entry) {
    WellFormed(Str(e.digits, e.key)) && WellFormed(e.value)
  }

  predicate Good(es: Entries) {
    es.More? ==> GoodEntry(es.head) && Good(es.tail)
  }

  function EntryText(e: Entry): string {
    Text(Str(e.digits, e.key)) + Text(e.value)
  }

  function EntriesText(es: Entries): string {
    if es.NoEntries? then "" else EntryText(es.head) + EntriesText(es.tail)
  }

  lemma NextEntryAt(data: string, pos: nat, e: Entry)
    requires |data| < INT_BOUND && GoodEntry(e) && At(data, pos, EntryText(e))
    ensures var start := pos + |Text(Str(e.digits, e.key))|;
            && NextEntry(data, pos) == Done((e.key, start, pos + |EntryText(e)|))
            && At(data, start, Text(e.value)) && data[start..pos + |EntryText(e)|] == Text(e.value)
    ensures pos < |data| && data[pos] != 'e'
  {
    hide ReadString, Skip;
    var k := Str(e.digits, e.key);
    AtSplit(data, pos, Text(k), Text(e.value));
    ReadStringAt(data, pos, e.digits, e.key);
    SkipAt(data, pos + |Text(k)|, e.value);
    assert data[pos] == data[pos..pos + |Text(k)|][0] == Text(k)[0];
  }

  lemma NextEntrySound(data: string, pos: nat) returns (e: Entry)
    requires |data| < INT_BOUND && NextEntry(data, pos).Done?
    ensures GoodEntry(e) && At(data, pos, EntryText(e)) && e.key == NextEntry(data, pos).value.0
    ensures NextEntry(data, pos).value.2 == pos + |EntryText(e)|
    ensures Text(e.value) == data[NextEntry(data, pos).value.1..NextEntry(data, pos).value.2]
  {
    var (key, start, next) := NextEntry(data, pos).value;
    var digits := ReadStringSound(data, pos);
    var v := SkipSound(data, start);
    e := Entry(digits, key, v);
    AtSplit(data, pos, Text(Str(digits, key)), Text(v));
  }

  /** es stands in data from pos on, and the dictionary loops stop right after it. */
  predicate EntriesEndAt(data: string, pos: nat, es: Entries) {
    && At(data, pos, EntriesText(es))
    && var end := pos + |EntriesText(es)|;
       end == |data| || data[end] == 'e'
  }

  /** The entries from pos on followed by w are one entry and the others followed by w. */
  lemma SplitEntries(data: string, pos: nat, e: Entry, rest: Entries, w: string)
    ensures At(data, pos, EntriesText(More(e, rest)) + w) <==>
            At(data, pos, EntryText(e)) && At(data, pos + |EntryText(e)|, EntriesText(rest) + w)
  {
    AtSplit(data, pos, EntryText(e), EntriesText(rest) + w);
  }

  lemma SplitEnd(data: string, pos: nat, e: Entry, rest: Entries)
    ensures EntriesEndAt(data, pos, More(e, rest)) <==>
            At(data, pos, EntryText(e)) && EntriesEndAt(data, pos + |EntryText(e)|, rest)
  {
    AtSplit(data, pos, EntryText(e), EntriesText(rest));
  }

  // ---------- The display name ----------

  /** extractInfoName's loop from pos on. */
  function NameFrom(dict: string, pos: nat): Outcome<string, DecodeError>
    requires |dict| < INT_BOUND
    decreases |dict| - pos
  {
    if pos >= |dict| || dict[pos] == 'e' then Done("")
    else
      var key := ReadString(dict, pos);
      match key
      case Fail(_) => Done("")
      case Panic => Panic
      case Done((k, next)) =>
        if k == "name" then
          match ReadString(dict, next)
          case Done((name, _)) => Done(name)
          case Fail(_) => Done("")
          case Panic => Panic
        else
          match Skip(dict, next)
          case Done(n) => NameFrom(dict, n)
          case Fail(_) => Done("")
          case Panic => Panic
  }

  function InfoName(dict: string): Outcome<string, DecodeError>
    requires |dict| < INT_BOUND
  {
    if dict == "" || dict[0] != 'd' then Done("") else NameFrom(dict, 1)
  }

  method ExtractInfoName(dict: string) returns (r: Outcome<string, DecodeError>)
    requires |dict| < INT_BOUND
    ensures r == InfoName(dict)
  {
    if |dict| == 0 || dict[0] != 'd' {
      return Done("");
    }
    var pos := 1;
    while pos < |dict| && dict[pos] != 'e'
      invariant NameFrom(dict, 1) == NameFrom(dict, pos)
      decreases |dict| - pos
    {
      var key := BdecodeString(dict, pos);
      if !key.Done? {
        return if key.Panic? then Panic else Done("");
      }
      var next := key.value.1;
      if key.value.0 == "name" {
        var val := BdecodeString(dict, next);
        return if val.Panic? then Panic else if val.Done? then Done(val.value.0) else Done("");
      }
      var n := BdecodeSkip(dict, next);
      if !n.Done? {
        return if n.Panic? then Panic else Done("");
      }
      pos := n.value;
    }
    r := Done("");
  }

  /** The text of a string value, "" for any other value. */
  function StringOf(v: Value): string {
    if v.Str? then v.payload else ""
  }

  /** The name recorded in an info value: the first "name" key of a dictionary, if its value is a string. */
  function NameOf(v: Value): string {
    if v.Compound? && v.open == 'd' then NameIn(v.items) else ""
  }

  function NameIn(items: Values): string {
    if items.Nil? || !items.head.Str? || items.tail.Nil? then ""
    else if items.head.payload == "name" then StringOf(items.tail.head)
    else NameIn(items.tail.tail)
  }

  lemma ReadOther(data: string, pos: nat, v: Value)
    requires |data| < INT_BOUND && WellFormed(v) && At(data, pos, Text(v))
    ensures v.Str? ==> ReadString(data, pos) == Done((v.payload, pos + |Text(v)|))
    ensures !v.Str? ==> ReadString(data, pos).Fail?
  {
    assert data[pos] == data[pos..pos + |Text(v)|][0] == Text(v)[0];
    if v.Str? {
      ReadStringAt(data, pos, v.digits, v.payload);
    }
  }

  lemma ReadAtEnd(data: string, pos: nat)
    requires |data| < INT_BOUND && At(data, pos, "e")
    ensures data[pos] == 'e' && ReadString(data, pos).Fail? && Skip(data, pos).Fail?
  {
    assert data[pos] == data[pos..pos + 1][0];
  }

  lemma ReadKey(dict: string, pos: nat, k: Value)
    requires |dict| < INT_BOUND && WellFormed(k) && k.Str? && At(dict, pos, Text(k))
    ensures dict[pos] != 'e' && ReadString(dict, pos) == Done((k.payload, pos + |Text(k)|))
  {
    FirstByte(k);
    assert dict[pos] == dict[pos..pos + |Text(k)|][0] == Text(k)[0];
    ReadOther(dict, pos, k);
  }

  lemma PairSplit(dict: string, pos: nat, k: Value, v: Value, rest: Values)
    requires At(dict, pos, AllText(Cons(k, Cons(v, rest))) + "e")
    ensures At(dict, pos, Text(k)) && At(dict, pos + |Text(k)|, Text(v))
    ensures At(dict, pos + |Text(k)| + |Text(v)|, AllText(rest) + "e")
  {
    AtCons(dict, pos, k, Cons(v, rest));
    AtCons(dict, pos + |Text(k)|, v, rest);
  }

  /** What the loop reads at a key that is followed by a value. */
  lemma PairAt(dict: string, pos: nat, k: Value, v: Value, rest: Values) returns (next: nat, after: nat)
    requires |dict| < INT_BOUND && WellFormed(k) && WellFormed(v) && k.Str?
    requires At(dict, pos, AllText(Cons(k, Cons(v, rest))) + "e")
    ensures pos < |dict| && dict[pos] != 'e'
    ensures ReadString(dict, pos) == Done((k.payload, next)) && Skip(dict, next) == Done(after)
    ensures if v.Str? then ReadString(dict, next) == Done((v.payload, after)) else ReadString(dict, next).Fail?
    ensures At(dict, after, AllText(rest) + "e")
  {
    hide Skip, Text, At;
    next := pos + |Text(k)|;
    after := next + |Text(v)|;
    PairSplit(dict, pos, k, v, rest);
    assert pos < |dict| && dict[pos] != 'e' && ReadString(dict, pos) == Done((k.payload, next)) by {
      ReadKey(dict, pos, k);
    }
    assert if v.Str? then ReadString(dict, next) == Done((v.payload, after)) else ReadString(dict, next).Fail? by {
      ReadOther(dict, next, v);
    }
    assert Skip(dict, next) == Done(after) by {
      SkipAt(dict, next, v);
    }
  }

  lemma NameStop(dict: string, pos: nat, items: Values)
    requires |dict| < INT_BOUND && AllWellFormed(items) && At(dict, pos, AllText(items) + "e")
    requires items.Nil? || !items.head.Str? || items.tail.Nil?
    ensures NameFrom(dict, pos) == Done("")
  {
    hide ReadString, Skip;
    if items.Nil? {
      ReadAtEnd(dict, pos);
    } else {
      AtCons(dict, pos, items.head, items.tail);
      FirstByte(items.head);
      ReadOther(dict, pos, items.head);
      if items.head.Str? {
        ReadAtEnd(dict, pos + |Text(items.head)|);
      }
    }
  }

  lemma {:induction false} NameFromAt(dict: string, pos: nat, items: Values)
    requires |dict| < INT_BOUND && AllWellFormed(items) && At(dict, pos, AllText(items) + "e")
    ensures NameFrom(dict, pos) == Done(NameIn(items))
    decreases items
  {
    if items.Nil? || !items.head.Str? || items.tail.Nil? {
      NameStop(dict, pos, items);
    } else {
      var k, v, rest := items.head, items.tail.head, items.tail.tail;
      var next, after := PairAt(dict, pos, k, v, rest);
      if k.payload != "name" {
        NameFromAt(dict, after, rest);
      }
    }
  }

  /** On any value the skipper accepts, extractInfoName gives the name recorded in it and never panics. */
  lemma InfoNameExact(v: Value, dict: string)
    requires WellFormed(v) && dict == Text(v) && |dict| < INT_BOUND
    ensures InfoName(dict) == Done(NameOf(v))
  {
    FirstByte(v);
    if v.Compound? && v.open == 'd' {
      assert dict[1..] == AllText(v.items) + "e";
      NameFromAt(dict, 1, v.items);
    }
  }

  // ---------- TorrentInfoHash ----------

  /** The bytes of the first "info" value of the dictionary body from pos on. */
  function FirstInfo(data: string, pos: nat): Outcome<string, TorrentError>
    requires |data| < INT_BOUND
    decreases |data| - pos
  {
    if pos >= |data| || data[pos] == 'e' then Fail(InfoMissing)
    else
      match NextEntry(data, pos)
      case Fail(e) => Fail(Malformed(e))
      case Panic => Panic
      case Done((key, start, next)) =>
        if key == "info" then Done(data[start..next]) else FirstInfo(data, next)
  }

  method TorrentInfoHash(data: string, sha1: string -> Digest20) returns (r: Outcome<string, TorrentError>)
    requires |data| < INT_BOUND
    ensures r == InfoHash(data, sha1)
  {
    if |data| == 0 || data[0] != 'd' {
      return Fail(NotADict);
    }
    var pos := 1;
    while pos < |data| && data[pos] != 'e'
      invariant FirstInfo(data, 1) == FirstInfo(data, pos)
      decreases |data| - pos
    {
      var key := BdecodeString(data, pos);
      if !key.Done? {
        return if key.Panic? then Panic else Fail(Malformed(key.error));
      }
      pos := key.value.1;
      var valueStart := pos;
      var next := BdecodeSkip(data, pos);
      if !next.Done? {
        return if next.Panic? then Panic else Fail(Malformed(next.error));
      }
      if key.value.0 == "info" {
        return Done(Hex.Encode(sha1(data[valueStart..next.value])));
      }
      pos := next.value;
    }
    r := Fail(InfoMissing);
  }

  function InfoHash(data: string, sha1: string -> Digest20): Outcome<string, TorrentError>
    requires |data| < INT_BOUND
  {
    if data == "" || data[0] != 'd' then Fail(NotADict)
    else
      var info := FirstInfo(data, 1);
      if info.Done? then Done(Hex.Encode(sha1(info.value))) else info
  }

  predicate NoInfo(es: Entries) {
    es.More? ==> es.head.key != "info" && NoInfo(es.tail)
  }

  /** The dictionary starts with the entries es, none of them "info", and then the "info" entry. */
  predicate FirstInfoIs(data: string, es: Entries, info: Entry) {
    && Good(es) && NoInfo(es) && GoodEntry(info) && info.key == "info"
    && |data| > 0 && data[0] == 'd' && At(data, 1, EntriesText(es) + EntryText(info))
  }

  lemma {:induction false} FirstInfoAt(data: string, pos: nat, es: Entries, info: Entry)
    requires |data| < INT_BOUND
    requires Good(es) && NoInfo(es) && GoodEntry(info) && info.key == "info"
    requires At(data, pos, EntriesText(es) + EntryText(info))
    ensures FirstInfo(data, pos) == Done(Text(info.value))
    decreases es
  {
    hide ReadString, Skip, NextEntry, Text, At;
    if es.NoEntries? {
      assert EntriesText(es) + EntryText(info) == EntryText(info);
      NextEntryAt(data, pos, info);
    } else {
      SplitEntries(data, pos, es.head, es.tail, EntryText(info));
      NextEntryAt(data, pos, es.head);
      FirstInfoAt(data, pos + |EntryText(es.head)|, es.tail, info);
    }
  }

  lemma {:induction false} FirstInfoSound(data: string, pos: nat) returns (es: Entries, info: Entry)
    requires |data| < INT_BOUND && FirstInfo(data, pos).Done?
    ensures Good(es) && NoInfo(es) && GoodEntry(info) && info.key == "info"
    ensures At(data, pos, EntriesText(es) + EntryText(info))
    ensures FirstInfo(data, pos).value == Text(info.value)
    decreases |data| - pos
  {
    hide NextEntry, At;
    var (key, start, next) := NextEntry(data, pos).value;
    var e := NextEntrySound(data, pos);
    if key == "info" {
      es, info := NoEntries, e;
      assert EntriesText(es) + EntryText(info) == EntryText(info);
    } else {
      es, info := FirstInfoSound(data, next);
      SplitEntries(data, pos, e, es, EntryText(info));
      es := More(e, es);
    }
  }

  /** TorrentInfoHash succeeds exactly on the hash of the first "info" value, whatever stands after that value. */
  lemma InfoHashExact(data: string, sha1: string -> Digest20, hash: string)
    requires |data| < INT_BOUND
    ensures InfoHash(data, sha1) == Done(hash) <==>
              exists es, info :: FirstInfoIs(data, es, info) && hash == Hex.Encode(sha1(Text(info.value)))
  {
    if InfoHash(data, sha1) == Done(hash) {
      var es, info := FirstInfoSound(data, 1);
      assert FirstInfoIs(data, es, info);
    }
    if es, info :| FirstInfoIs(data, es, info) && hash == Hex.Encode(sha1(Text(info.value))) {
      FirstInfoAt(data, 1, es, info);
    }
  }

  // ---------- TorrentToMagnet ----------

  /** The variables of TorrentToMagnet's loop. */
  datatype Fields = Fields(infoHash: string, name: string, announce: string)

  /** The loop body on the entry whose value is data[start..next]. */
  function Take(data: string, key: string, start: nat, next: nat, f: Fields, sha1: string -> Digest20)
    : Outcome<Fields, DecodeError>
    requires |data| < INT_BOUND && start <= next <= |data|
  {
    if key == "info" then
      var name := InfoName(data[start..next]);
      if name.Done? then Done(f.(infoHash := Hex.Encode(sha1(data[start..next])), name := name.value))
      else name.Propagate()
    else if key == "announce" then
      match ReadString(data, start)
      case Done((announce, _)) => Done(f.(announce := announce))
      case Fail(_) => Done(f.(announce := ""))
      case Panic => Panic
    else Done(f)
  }

  function FieldsFrom(data: string, pos: nat, f: Fields, sha1: string -> Digest20): Outcome<Fields, TorrentError>
    requires |data| < INT_BOUND
    decreases |data| - pos
  {
    if pos >= |data| || data[pos] == 'e' then Done(f)
    else
      match NextEntry(data, pos)
      case Fail(e) => Fail(Malformed(e))
      case Panic => Panic
      case Done((key, start, next)) =>
        match Take(data, key, start, next, f, sha1)
        case Fail(e) => Fail(Malformed(e))
        case Panic => Panic
        case Done(f') => FieldsFrom(data, next, f', sha1)
  }

  function ToMagnet(data: string, sha1: string -> Digest20): Outcome<string, TorrentError>
    requires |data| < INT_BOUND
  {
    if data == "" || data[0] != 'd' then Fail(NotADict)
    else
      match FieldsFrom(data, 1, Fields("", "", ""), sha1)
      case Fail(e) => Fail(e)
      case Panic => Panic
      case Done(f) =>
        if f.infoHash == "" then Fail(InfoMissing) else Done(MagnetUri(f.infoHash, f.name, f.announce))
  }

  method TorrentToMagnet(data: string, sha1: string -> Digest20) returns (r: Outcome<string, TorrentError>)
    requires |data| < INT_BOUND
    ensures r == ToMagnet(data, sha1)
  {
    if |data| == 0 || data[0] != 'd' {
      return Fail(NotADict);
    }
    var f := Fields("", "", "");
    var pos := 1;
    while pos < |data| && data[pos] != 'e'
      invariant FieldsFrom(data, 1, Fields("", "", ""), sha1) == FieldsFrom(data, pos, f, sha1)
      decreases |data| - pos
    {
      var key := BdecodeString(data, pos);
      if !key.Done? {
        return if key.Panic? then Panic else Fail(Malformed(key.error));
      }
      var valueStart := key.value.1;
      var next := BdecodeSkip(data, valueStart);
      if !next.Done? {
        return if next.Panic? then Panic else Fail(Malformed(next.error));
      }
      ghost var before := f;
      if key.value.0 == "info" {
        var name := ExtractInfoName(data[valueStart..next.value]);
        if !name.Done? {
          return if name.Panic? then Panic else Fail(Malformed(name.error));
        }
        f := f.(infoHash := Hex.Encode(sha1(data[valueStart..next.value])), name := name.value);
      } else if key.value.0 == "announce" {
        var announce := BdecodeString(data, valueStart);
        if announce.Panic? {
          return Panic;
        }
        f := f.(announce := if announce.Done? then announce.value.0 else "");
      }
      assert Take(data, key.value.0, valueStart, next.value, before, sha1) == Done(f);
      pos := next.value;
    }
    if f.infoHash == "" {
      return Fail(InfoMissing);
    }
    r := Done(MagnetUri(f.infoHash, f.name, f.announce));
  }

  /** What one entry leaves in the variables: an "info" or "announce" replaces the one before. */
  function Collected(e: Entry, f: Fields, sha1: string -> Digest20): Fields {
    if e.key == "info" then f.(infoHash := Hex.Encode(sha1(Text(e.value))), name := NameOf(e.value))
    else if e.key == "announce" then f.(announce := StringOf(e.value))
    else f
  }

  function Collect(es: Entries, f: Fields, sha1: string -> Digest20): Fields {
    if es.NoEntries? then f else Collect(es.tail, Collected(es.head, f, sha1), sha1)
  }

  lemma TakeAt(data: string, start: nat, e: Entry, f: Fields, sha1: string -> Digest20)
    requires |data| < INT_BOUND && WellFormed(e.value) && At(data, start, Text(e.value))
    ensures Take(data, e.key, start, start + |Text(e.value)|, f, sha1) == Done(Collected(e, f, sha1))
  {
    var v := e.value;
    InfoNameExact(v, data[start..start + |Text(v)|]);
    ReadOther(data, start, v);
  }

  /** What the loop does at an entry. */
  lemma EntryAt(data: string, pos: nat, e: Entry, rest: Entries, f: Fields, sha1: string -> Digest20)
    returns (start: nat, next: nat)
    requires |data| < INT_BOUND && GoodEntry(e) && EntriesEndAt(data, pos, More(e, rest))
    ensures pos < |data| && data[pos] != 'e' && NextEntry(data, pos) == Done((e.key, start, next))
    ensures Take(data, e.key, start, next, f, sha1) == Done(Collected(e, f, sha1))
    ensures EntriesEndAt(data, next, rest)
  {
    hide ReadString, Skip, InfoName, WellFormed, Text, At;
    start, next := pos + |Text(Str(e.digits, e.key))|, pos + |EntryText(e)|;
    assert At(data, pos, EntryText(e)) && EntriesEndAt(data, next, rest) by {
      SplitEnd(data, pos, e, rest);
    }
    assert data[pos] != 'e' && NextEntry(data, pos) == Done((e.key, start, next)) && At(data, start, Text(e.value)) by {
      NextEntryAt(data, pos, e);
    }
    assert Take(data, e.key, start, next, f, sha1) == Done(Collected(e, f, sha1)) by {
      TakeAt(data, start, e, f, sha1);
    }
  }

  lemma {:induction false} FieldsFromAt(data: string, pos: nat, es: Entries, f: Fields, sha1: string -> Digest20)
    requires |data| < INT_BOUND && Good(es) && EntriesEndAt(data, pos, es)
    ensures FieldsFrom(data, pos, f, sha1) == Done(Collect(es, f, sha1))
    decreases es
  {
    if es.More? {
      var f' := Collected(es.head, f, sha1);
      var start, next := EntryAt(data, pos, es.head, es.tail, f, sha1);
      FieldsFromAt(data, next, es.tail, f', sha1);
    }
  }

  lemma {:induction false} FieldsFromSound(data: string, pos: nat, f: Fields, sha1: string -> Digest20)
    returns (es: Entries)
    requires |data| < INT_BOUND && pos <= |data| && FieldsFrom(data, pos, f, sha1).Done?
    ensures Good(es) && EntriesEndAt(data, pos, es)
    decreases |data| - pos
  {
    hide ReadString, Skip, InfoName, Text, Take;
    if pos >= |data| || data[pos] == 'e' {
      es := NoEntries;
    } else {
      var (key, start, next) := NextEntry(data, pos).value;
      var e := NextEntrySound(data, pos);
      var rest := FieldsFromSound(data, next, Take(data, key, start, next, f, sha1).value, sha1);
      SplitEnd(data, pos, e, rest);
      es := More(e, rest);
    }
  }

  // ---------- One torrent, two ways in ----------

  /** The data is a dictionary of these entries; the closing 'e' may be missing at the end of the data. */
  predicate IsTorrent(data: string, es: Entries) {
    Good(es) && |data| > 0 && data[0] == 'd' && EntriesEndAt(data, 1, es)
  }

  /** The "info" values, in order. */
  function Infos(es: Entries): seq<Value> {
    if es.NoEntries? then []
    else if es.head.key == "info" then [es.head.value] + Infos(es.tail)
    else Infos(es.tail)
  }

  /** The "announce" values, in order. */
  function Announces(es: Entries): seq<Value> {
    if es.NoEntries? then []
    else if es.head.key == "announce" then [es.head.value] + Announces(es.tail)
    else Announces(es.tail)
  }

  lemma {:induction false} CollectLast(es: Entries, f: Fields, sha1: string -> Digest20)
    ensures var g, announces := Collect(es, f, sha1), Announces(es);
            g.announce == if announces == [] then f.announce else StringOf(announces[|announces| - 1])
    ensures var g, infos := Collect(es, f, sha1), Infos(es);
            if infos == [] then g.infoHash == f.infoHash && g.name == f.name
            else g.infoHash == Hex.Encode(sha1(Text(infos[|infos| - 1]))) && g.name == NameOf(infos[|infos| - 1])
  {
    if es.More? {
      CollectLast(es.tail, Collected(es.head, f, sha1), sha1);
    }
  }

  lemma {:induction false} FirstInfoOf(data: string, pos: nat, es: Entries)
    requires |data| < INT_BOUND && Good(es) && EntriesEndAt(data, pos, es)
    ensures FirstInfo(data, pos) == if Infos(es) == [] then Fail(InfoMissing) else Done(Text(Infos(es)[0]))
    decreases es
  {
    hide ReadString, Skip, Text;
    if es.More? {
      SplitEnd(data, pos, es.head, es.tail);
      NextEntryAt(data, pos, es.head);
      if es.head.key != "info" {
        FirstInfoOf(data, pos + |EntryText(es.head)|, es.tail);
      }
    }
  }

  /** TorrentToMagnet succeeds exactly on the torrents that have an "info" key. */
  lemma ToMagnetDefined(data: string, sha1: string -> Digest20)
    requires |data| < INT_BOUND
    ensures ToMagnet(data, sha1).Done? <==> exists es :: IsTorrent(data, es) && Infos(es) != []
  {
    hide FieldsFrom, Collect, Infos, Announces, MagnetUri, Good, EntriesEndAt, NameOf, StringOf, Text, Hex.Encode;
    var f := Fields("", "", "");
    if ToMagnet(data, sha1).Done? {
      var es := FieldsFromSound(data, 1, f, sha1);
      FieldsFromAt(data, 1, es, f, sha1);
      CollectLast(es, f, sha1);
      assert IsTorrent(data, es);
    }
    if es :| IsTorrent(data, es) && Infos(es) != [] {
      FieldsFromAt(data, 1, es, f, sha1);
      CollectLast(es, f, sha1);
    }
  }

  lemma {:induction false} NameBytes(dict: string, pos: nat)
    requires |dict| < INT_BOUND && AllBytes(dict) && NameFrom(dict, pos).Done?
    ensures AllBytes(NameFrom(dict, pos).value)
    decreases |dict| - pos
  {
    if pos < |dict| && dict[pos] != 'e' && ReadString(dict, pos).Done? {
      var (k, next) := ReadString(dict, pos).value;
      if k == "name" {
        if ReadString(dict, next).Done? {
        }
      } else if Skip(dict, next).Done? {
        NameBytes(dict, Skip(dict, next).value);
      }
    }
  }

  /** The collected texts are made of bytes of the torrent. */
  lemma {:induction false} FieldsBytes(data: string, pos: nat, f: Fields, sha1: string -> Digest20)
    requires |data| < INT_BOUND && AllBytes(data) && FieldsFrom(data, pos, f, sha1).Done?
    requires AllBytes(f.name) && AllBytes(f.announce) && Hex.AllLowerHex(f.infoHash)
    ensures var g := FieldsFrom(data, pos, f, sha1).value;
            AllBytes(g.name) && AllBytes(g.announce) && Hex.AllLowerHex(g.infoHash)
    decreases |data| - pos
  {
    if pos < |data| && data[pos] != 'e' {
      var (key, start, next) := NextEntry(data, pos).value;
      var f' := Take(data, key, start, next, f, sha1).value;
      assert AllBytes(f'.name) && AllBytes(f'.announce) by {
        var info := data[start..next];
        if key == "info" && info != "" && info[0] == 'd' {
          NameBytes(info, 1);
        } else if key == "announce" && ReadString(data, start).Done? {
        }
      }
      FieldsBytes(data, next, f', sha1);
    }
  }

  lemma MagnetOf(data: string, es: Entries, sha1: string -> Digest20) returns (g: Fields)
    requires |data| < INT_BOUND && AllBytes(data) && IsTorrent(data, es) && Infos(es) != []
    ensures ToMagnet(data, sha1) == Done(MagnetUri(g.infoHash, g.name, g.announce))
    ensures Hex.AllLowerHex(g.infoHash) && AllBytes(g.name) && AllBytes(g.announce)
    ensures var last := Infos(es)[|Infos(es)| - 1];
            g.infoHash == Hex.Encode(sha1(Text(last))) && g.name == NameOf(last)
    ensures g.announce == if Announces(es) == [] then "" else StringOf(Announces(es)[|Announces(es)| - 1])
  {
    hide FieldsFrom, Collect, Infos, Announces, MagnetUri, Good, EntriesEndAt, NameOf, StringOf, Text, Hex.Encode;
    var f := Fields("", "", "");
    FieldsFromAt(data, 1, es, f, sha1);
    CollectLast(es, f, sha1);
    FieldsBytes(data, 1, f, sha1);
    g := Collect(es, f, sha1);
  }

  /**
   The keys of a torrent: fetching it by URL gives the hash of its first "info" value, uploading it
   (as the magnet it is turned into) the hash of its last one, whatever the other keys are. The download is
   named after the last one, and the magnet carries the last "announce" string as its tracker.
   */
  lemma TorrentKeys(data: string, es: Entries, sha1: string -> Digest20, fetched: Option<string>,
                    sha256Hex: string -> string, parsed: Option<(string, string)>, general: string -> Option<string>)
    requires |data| < INT_BOUND && AllBytes(data) && IsTorrent(data, es) && Infos(es) != []
    ensures var first, last := Infos(es)[0], Infos(es)[|Infos(es)| - 1];
            var lastHash := Hex.Encode(sha1(Text(last)));
            && InfoHash(data, sha1) == Done(Hex.Encode(sha1(Text(first))))
            && ToMagnet(data, sha1).Done?
            && var magnet := ToMagnet(data, sha1).value;
               && ResolveCacheKey(magnet, fetched, sha256Hex, general) == CacheKey(HashKey, lastHash)
               && DefaultNameFromURL(magnet, parsed, general) == (if NameOf(last) != "" then NameOf(last) else lastHash)
               && "magnet:" <= magnet && MagnetQuery(magnet, general).Some?
               && Get(ParseQuery(MagnetQuery(magnet, general).value), "tr")
                  == if Announces(es) == [] then "" else StringOf(Announces(es)[|Announces(es)| - 1])
  {
    hide MagnetQuery, ParseQuery, Get, MagnetUri, ToMagnet;
    var g := MagnetOf(data, es, sha1);
    TrackerOfBuilt(g.infoHash, g.name, g.announce, general);
    ResolveBuilt(g.infoHash, g.name, g.announce, fetched, sha256Hex, general);
    NameOfBuilt(g.infoHash, g.name, g.announce, parsed, general);
    FirstInfoOf(data, 1, es);
  }

  lemma ResolveFetched(url: string, hash: string, sha256Hex: string -> string, general: string -> Option<string>)
    requires "http://" <= url || "https://" <= url
    ensures ResolveCacheKey(url, Some(hash), sha256Hex, general) == CacheKey(HashKey, hash)
  {
    assert url[0] == 'h';
  }

  /**
   Uploading a torrent and submitting the URL it can be fetched from give the same cache key exactly
   when its first and last "info" values have the same SHA-1; always, when there is one "info" key.
   */
  lemma UploadAgreesWithUrl(data: string, es: Entries, url: string, sha1: string -> Digest20,
                            sha256Hex: string -> string, general: string -> Option<string>)
    requires |data| < INT_BOUND && AllBytes(data) && IsTorrent(data, es) && Infos(es) != []
    requires "http://" <= url || "https://" <= url
    ensures InfoHash(data, sha1).Done? && ToMagnet(data, sha1).Done?
    ensures var byUrl := ResolveCacheKey(url, Some(InfoHash(data, sha1).value), sha256Hex, general);
            var byUpload := ResolveCacheKey(ToMagnet(data, sha1).value, None, sha256Hex, general);
            && (byUrl == byUpload <==> sha1(Text(Infos(es)[0])) == sha1(Text(Infos(es)[|Infos(es)| - 1])))
            && (|Infos(es)| == 1 ==> byUrl == byUpload)
  {
    hide InfoHash, ToMagnet, IsTorrent, Text, Infos, ResolveCacheKey;
    if InfoHash(data, sha1).Done? {
      ResolveFetched(url, InfoHash(data, sha1).value, sha256Hex, general);
    }
    TorrentKeys(data, es, sha1, None, sha256Hex, None, general);
    Hex.DecodeEncode(sha1(Text(Infos(es)[0])));
    Hex.DecodeEncode(sha1(Text(Infos(es)[|Infos(es)| - 1])));
  }

  /** Two engines asked for the same torrent content share one storage directory. */
  lemma OneStorageKey(data: string, es: Entries, url: string, engine: string, other: string,
                      sha1: string -> Digest20, sha256: string -> Digest32,
                      sha256Hex: string -> string, general: string -> Option<string>)
    requires |data| < INT_BOUND && AllBytes(data) && IsTorrent(data, es) && |Infos(es)| == 1
    requires "http://" <= url || "https://" <= url
    ensures InfoHash(data, sha1).Done? && ToMagnet(data, sha1).Done?
    ensures StorageKey(engine, ResolveCacheKey(url, Some(InfoHash(data, sha1).value), sha256Hex, general), sha256)
         == StorageKey(other, ResolveCacheKey(ToMagnet(data, sha1).value, None, sha256Hex, general), sha256)
  {
    hide InfoHash, ToMagnet, IsTorrent, Infos, ResolveCacheKey;
    UploadAgreesWithUrl(data, es, url, sha1, sha256Hex, general);
    TorrentKeys(data, es, sha1, None, sha256Hex, None, general);
  }

  const TWO_INFOS := "d4:infoi1e4:infoi2ee"

  lemma TwoInfos() returns (es: Entries)
    ensures IsTorrent(TWO_INFOS, es) && Infos(es) == [Integer("1"), Integer("2")]
  {
    var a, b := Entry("4", "info", Integer("1")), Entry("4", "info", Integer("2"));
    es := More(a, More(b, NoEntries));
    assert Good(es) by {
      assert "4"[..0] == "" && Decimal("4") == 4;
    }
    assert EntriesText(es) == "4:infoi1e4:infoi2e" by {
      assert EntryText(a) == "4:infoi1e" && EntryText(b) == "4:infoi2e";
    }
    assert TWO_INFOS[1..19] == "4:infoi1e4:infoi2e";
    assert TWO_INFOS[19] == 'e';
  }

  /** With two "info" keys the two ways can disagree: they do on this torrent unless the two hashes collide. */
  lemma TwoInfosDisagree(sha1: string -> Digest20, sha256Hex: string -> string, general: string -> Option<string>)
    requires sha1("i1e") != sha1("i2e")
    ensures InfoHash(TWO_INFOS, sha1).Done? && ToMagnet(TWO_INFOS, sha1).Done?
    ensures ResolveCacheKey("http://t", Some(InfoHash(TWO_INFOS, sha1).value), sha256Hex, general)
         != ResolveCacheKey(ToMagnet(TWO_INFOS, sha1).value, None, sha256Hex, general)
  {
    hide InfoHash, ToMagnet, IsTorrent, Infos, ResolveCacheKey;
    var es := TwoInfos();
    assert Text(Infos(es)[0]) == "i1e" && Text(Infos(es)[1]) == "i2e";
    UploadAgreesWithUrl(TWO_INFOS, es, "http://t", sha1, sha256Hex, general);
  }
}
