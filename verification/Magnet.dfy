/**
 Magnet links (BEP 9, section "magnet URI format") as the program builds and reads them, with the parts
 of Go's net/url that are involved, and the keys derived from them: ResolveCacheKey of the aria2 engine,
 internal/core/service/storagekey.go, and defaultNameFromURL of internal/core/service/download.go.
 */
module Magnet {
  import opened Wrappers
  import opened Hex
  import opened Strings

  /** s is a Go string: each char is one byte. */
  predicate AllBytes(s: string) {
    forall i :: 0 <= i < |s| ==> s[i] as int < 256
  }

  // ---------- net/url ----------

  predicate IsUnreserved(c: char) {
    'a' <= c <= 'z' || 'A' <= c <= 'Z' || '0' <= c <= '9' || c == '-' || c == '_' || c == '.' || c == '~'
  }

  function EscapeByte(c: char): (s: string)
    ensures s != ""
  {
    if IsUnreserved(c) then [c]
    else if c == ' ' then "+"
    else ['%', UpperDigit(c as int / 16 % 16), UpperDigit(c as int % 16)]
  }

  function QueryEscape(s: string): (r: string)
    ensures forall i :: 0 <= i < |r| ==> IsEscaped(r[i])
  {
    if s == "" then "" else EscapeByte(s[0]) + QueryEscape(s[1..])
  }

  /** The bytes that occur in escaped text. */
  predicate IsEscaped(c: char) {
    IsUnreserved(c) || c == '+' || c == '%'
  }

  function QueryUnescape(s: string): Option<string> {
    if s == "" then Some("")
    else if s[0] == '%' then
      if |s| < 3 || Nibble(s[1]).None? || Nibble(s[2]).None? then None
      else
        var rest := QueryUnescape(s[3..]);
        if rest.None? then None
        else Some([(Nibble(s[1]).value * 16 + Nibble(s[2]).value) as char] + rest.value)
    else
      var rest := QueryUnescape(s[1..]);
      if rest.None? then None else Some([if s[0] == '+' then ' ' else s[0]] + rest.value)
  }

  /** The first index of c in s, or |s|. */
  function Find(s: string, c: char): (i: nat)
    ensures i <= |s|
    ensures forall k :: 0 <= k < i ==> s[k] != c
    ensures i < |s| ==> s[i] == c
  {
    if s == "" || s[0] == c then 0 else 1 + Find(s[1..], c)
  }

  function Before(s: string, c: char): string {
    s[..Find(s, c)]
  }

  function After(s: string, c: char): (r: string)
    ensures |r| <= |s| && (s != "" ==> |r| < |s|)
  {
    var i := Find(s, c);
    if i < |s| then s[i + 1..] else ""
  }

  type Pairs = seq<(string, string)>

  /** The pair of one query segment; empty and malformed segments give nothing. */
  function ParseSegment(seg: string): Pairs {
    var k, v := QueryUnescape(Before(seg, '=')), QueryUnescape(After(seg, '='));
    if seg == "" || ';' in seg || k.None? || v.None? then [] else [(k.value, v.value)]
  }

  function ParseQuery(q: string): Pairs
    decreases |q|
  {
    if q == "" then [] else ParseSegment(Before(q, '&')) + ParseQuery(After(q, '&'))
  }

  /** url.Values.Get: the first value of the key, or "". */
  function Get(ps: Pairs, key: string): string {
    if ps == [] then "" else if ps[0].0 == key then ps[0].1 else Get(ps[1..], key)
  }

  predicate HasControl(s: string) {
    exists i :: 0 <= i < |s| && (s[i] < ' ' || s[i] as int == 127)
  }

  /**
   The raw query url.Parse finds in a "magnet:" URL, None for its errors. Magnets with a path
   ("magnet:/...") take the general route of the library, which `general` stands for.
   */
  function MagnetQuery(raw: string, general: string -> Option<string>): Option<string>
    requires "magnet:" <= raw
  {
    var u, fragment := Before(raw, '#'), After(raw, '#');
    assert u[..7] == "magnet:" by { assert forall i :: 0 <= i < 7 ==> raw[i] == "magnet:"[i]; }
    var rest := u[7..];
    if HasControl(u) then None
    else if rest != "" && rest[0] == '/' then general(raw)
    else if QueryUnescape(fragment).None? then None
    else Some(After(rest, '?'))
  }

  // ---------- Keys ----------

  datatype CacheKeyType = HashKey | UrlKey

  datatype CacheKey = CacheKey(kind: CacheKeyType, value: string) {
    function Full(): string {
      if value == "" then "" else (if kind.HashKey? then "hash:" else "url:") + value
    }
  }

  const BTIH := "urn:btih:"

  /**
   ResolveCacheKey of the aria2 engine. `fetched` is the info hash of the torrent behind an http(s) URL,
   None when there is none; sha256Hex is the hexadecimal SHA-256.
   */
  function ResolveCacheKey(raw: string, fetched: Option<string>, sha256Hex: string -> string,
                           general: string -> Option<string>): CacheKey {
    var query := if "magnet:" <= raw then MagnetQuery(raw, general) else None;
    var xt := if query.Some? then Get(ParseQuery(query.value), "xt") else "";
    if BTIH <= xt then CacheKey(HashKey, ToLower(TrimPrefix(xt, BTIH)))
    else if ("http://" <= raw || "https://" <= raw) && fetched.Some? then CacheKey(HashKey, fetched.value)
    else CacheKey(UrlKey, sha256Hex(raw))
  }

  function CacheKeyPrefix(engine: string, key: CacheKey): string {
    if key.kind.HashKey? then "bt:" else engine + ":"
  }

  type Digest32 = d: seq<Octet> | |d| == 32 witness seq(32, _ => 0)

  /** The first 16 bytes of the SHA-256 in hexadecimal: a storage directory name. */
  function StorageKeyFromCacheKey(cacheKey: string, sha256: string -> Digest32): (k: string)
    ensures |k| == 32 && AllLowerHex(k)
  {
    Encode(sha256(cacheKey)[..16])
  }

  /** The storage key Add derives from an engine name and a resolved cache key. */
  function StorageKey(engine: string, key: CacheKey, sha256: string -> Digest32): string {
    StorageKeyFromCacheKey(CacheKeyPrefix(engine, key) + key.Full(), sha256)
  }

  /** The text that is hashed for an info hash, and for a URL key of an engine. */
  function KeyText(engine: string, key: CacheKey): string {
    if key.kind.HashKey? then "bt:hash:" + key.value else engine + ":url:" + key.value
  }

  /** A storage key is the first 16 bytes of the SHA-256 of that text. */
  lemma StorageKeyHashes(engine: string, key: CacheKey, sha256: string -> Digest32)
    requires key.value != ""
    ensures Decode(StorageKey(engine, key, sha256)) == Some(sha256(KeyText(engine, key))[..16])
  {
    assert CacheKeyPrefix(engine, key) + key.Full() == KeyText(engine, key) by {
      assert "bt:" + ("hash:" + key.value) == "bt:hash:" + key.value;
      assert engine + ":" + ("url:" + key.value) == engine + ":url:" + key.value;
    }
    DecodeEncode(sha256(KeyText(engine, key))[..16]);
  }

  /** The same content: one info hash, or one URL key of one engine. */
  predicate SameContent(e: string, k: CacheKey, e': string, k': CacheKey) {
    k == k' && (k.kind.UrlKey? ==> e == e')
  }

  /** The text tells content apart: no ':' is allowed in the name of an engine. */
  lemma KeyTextSeparates(e: string, k: CacheKey, e': string, k': CacheKey)
    requires ':' !in e && ':' !in e'
    ensures KeyText(e, k) == KeyText(e', k') <==> SameContent(e, k, e', k')
  {
    hide KeyText;
    KeyTextParts(e, k);
    KeyTextParts(e', k');
    if SameContent(e, k, e', k') {
      SameKeyText(e, k, e', k');
    }
    if KeyText(e, k) == KeyText(e', k') {
      var r, r' := After(KeyText(e, k), ':'), After(KeyText(e', k'), ':');
      assert r[0] == r'[0];
    }
  }

  lemma SameKeyText(e: string, k: CacheKey, e': string, k': CacheKey)
    requires SameContent(e, k, e', k')
    ensures KeyText(e, k) == KeyText(e', k')
  {
  }

  /** The text before and after the first colon. */
  lemma KeyTextParts(e: string, k: CacheKey)
    requires ':' !in e
    ensures Before(KeyText(e, k), ':') == if k.kind.HashKey? then "bt" else e
    ensures var r := After(KeyText(e, k), ':');
            if k.kind.HashKey? then |r| >= 5 && r[0] == 'h' && r[5..] == k.value
            else |r| >= 4 && r[0] == 'u' && r[4..] == k.value
  {
    if k.kind.HashKey? {
      assert KeyText(e, k) == "bt" + ":" + ("hash:" + k.value);
      SplitAtColon("bt", "hash:" + k.value);
    } else {
      assert KeyText(e, k) == e + ":" + ("url:" + k.value);
      SplitAtColon(e, "url:" + k.value);
    }
  }

  lemma SplitAtColon(p: string, r: string)
    requires ':' !in p
    ensures Before(p + ":" + r, ':') == p && After(p + ":" + r, ':') == r
  {
    var x := p + ":" + r;
    assert x[..|p|] == p && x[|p| + 1..] == r;
    FindFirst(x, |p|, ':');
  }

  /**
   Where the first 16 bytes of the two digests do not collide, two requests get one storage key if and only
   if they are for the same content.
   */
  lemma StorageKeysSeparate(e: string, k: CacheKey, e': string, k': CacheKey, sha256: string -> Digest32)
    requires k.value != "" && k'.value != "" && ':' !in e && ':' !in e'
    requires var x, y := KeyText(e, k), KeyText(e', k'); sha256(x)[..16] == sha256(y)[..16] ==> x == y
    ensures StorageKey(e, k, sha256) == StorageKey(e', k', sha256) <==> SameContent(e, k, e', k')
  {
    StorageKeyHashes(e, k, sha256);
    StorageKeyHashes(e', k', sha256);
    KeyTextSeparates(e, k, e', k');
    hide StorageKey, KeyText;
    if SameContent(e, k, e', k') {
      assert KeyText(e, k) == KeyText(e', k');
    }
  }

  /** A URL that is neither a magnet nor the address of a torrent. */
  predicate PlainUrl(raw: string, fetched: Option<string>) {
    !("magnet:" <= raw) && fetched.None?
  }

  /** Plain URLs are told apart by their own SHA-256, for one engine and across engines. */
  lemma PlainUrlsSeparate(e: string, x: string, e': string, y: string, sha256Hex: string -> string,
                          sha256: string -> Digest32, general: string -> Option<string>)
    requires PlainUrl(x, None) && PlainUrl(y, None) && sha256Hex(x) != "" && sha256Hex(y) != "" && ':' !in e && ':' !in e'
    requires var a, b := e + ":url:" + sha256Hex(x), e' + ":url:" + sha256Hex(y);
             sha256(a)[..16] == sha256(b)[..16] ==> a == b
    ensures ResolveCacheKey(x, None, sha256Hex, general) == CacheKey(UrlKey, sha256Hex(x))
    ensures StorageKey(e, ResolveCacheKey(x, None, sha256Hex, general), sha256)
         == StorageKey(e', ResolveCacheKey(y, None, sha256Hex, general), sha256)
       <==> e == e' && sha256Hex(x) == sha256Hex(y)
  {
    var k, k' := CacheKey(UrlKey, sha256Hex(x)), CacheKey(UrlKey, sha256Hex(y));
    assert ResolveCacheKey(x, None, sha256Hex, general) == k && ResolveCacheKey(y, None, sha256Hex, general) == k';
    hide ResolveCacheKey, StorageKey;
    StorageKeysSeparate(e, k, e', k', sha256);
  }

  // ---------- Display names ----------

  /** filepath.Base on a slash-separated path. */
  function BaseName(path: string): string {
    if path == "" then "."
    else if path[|path| - 1] == '/' then (if |path| == 1 then "/" else BaseName(path[..|path| - 1]))
    else LastElement(path)
  }

  function LastElement(path: string): string {
    if '/' in path then LastElement(After(path, '/')) else path
  }

  /** `parsed` is what url.Parse gives for a URL that is not a magnet: its path and host, None for an error. */
  function DefaultNameFromURL(raw: string, parsed: Option<(string, string)>,
                              general: string -> Option<string>): string {
    if "magnet:" <= raw then
      var query := MagnetQuery(raw, general);
      if query.None? then raw
      else
        var values := ParseQuery(query.value);
        var dn, xt := Get(values, "dn"), Get(values, "xt");
        if dn != "" then dn else if BTIH <= xt then TrimPrefix(xt, BTIH) else raw
    else if parsed.None? then raw
    else
      var base := BaseName(parsed.value.0);
      if base != "" && base != "." && base != "/" then base else parsed.value.1
  }

  /** The base name of a path is what follows its last slash. */
  lemma BaseOfPath(dir: string, base: string)
    requires base != "" && '/' !in base
    ensures BaseName(dir + "/" + base) == base && BaseName(base) == base
  {
    var path := dir + "/" + base;
    assert path[|path| - 1] == base[|base| - 1] && base[|base| - 1] in base;
    LastOfPath(dir, base);
  }

  lemma {:induction false} LastOfPath(dir: string, base: string)
    requires '/' !in base
    ensures LastElement(dir + "/" + base) == base
    decreases |dir|
  {
    var path, i := dir + "/" + base, Find(dir, '/');
    assert path[..i] == dir[..i];
    if i == |dir| {
      FindFirst(path, i, '/');
      assert path[i + 1..] == base;
    } else {
      FindFirst(path, i, '/');
      assert path[i + 1..] == dir[i + 1..] + "/" + base && After(dir, '/') == dir[i + 1..];
      LastOfPath(dir[i + 1..], base);
    }
  }

  /** The display name of another URL: the last part of its path, or its host without one, or the URL itself. */
  lemma NameOfPlainUrl(raw: string, path: string, host: string, dir: string, base: string, general: string -> Option<string>)
    requires !("magnet:" <= raw)
    ensures DefaultNameFromURL(raw, None, general) == raw
    ensures path == "" || path == "/" ==> DefaultNameFromURL(raw, Some((path, host)), general) == host
    ensures base != "" && base != "." && '/' !in base ==>
              && DefaultNameFromURL(raw, Some((dir + "/" + base, host)), general) == base
              && DefaultNameFromURL(raw, Some((dir + "/" + base + "/", host)), general) == base
  {
    if base != "" && '/' !in base {
      BaseOfPath(dir, base);
      var closed := dir + "/" + base + "/";
      assert closed[..|closed| - 1] == dir + "/" + base;
      assert base[0] in base;
    }
  }

  // ---------- Building a magnet ----------

  function HashPart(hash: string): string {
    "xt" + "=" + (BTIH + hash)
  }

  function TextPart(key: string, value: string): string {
    key + "=" + QueryEscape(value)
  }

  function BuiltQuery(hash: string, name: string, announce: string): string {
    HashPart(hash)
    + (if name != "" then "&" + TextPart("dn", name) else "")
    + (if announce != "" then "&" + TextPart("tr", announce) else "")
  }

  /** The URI TorrentToMagnet builds. */
  function MagnetUri(hash: string, name: string, announce: string): string {
    "magnet:?" + BuiltQuery(hash, name, announce)
  }

  // ---------- Reading it back ----------

  lemma UnescapePercent(hi: nat, lo: nat, rest: string)
    requires hi < 16 && lo < 16
    ensures QueryUnescape(['%', UpperDigit(hi), UpperDigit(lo)] + rest)
         == if QueryUnescape(rest).None? then None else Some([(hi * 16 + lo) as char] + QueryUnescape(rest).value)
  {
    var s := ['%', UpperDigit(hi), UpperDigit(lo)] + rest;
    assert s[0] == '%' && s[1] == UpperDigit(hi) && s[2] == UpperDigit(lo) && s[3..] == rest;
    hide UpperDigit, Nibble;
  }

  lemma UnescapeLiteral(c: char, rest: string)
    requires c != '%'
    ensures QueryUnescape([c] + rest)
         == if QueryUnescape(rest).None? then None
            else Some([if c == '+' then ' ' else c] + QueryUnescape(rest).value)
  {
    assert ([c] + rest)[1..] == rest;
  }

  lemma UnescapeByte(c: char, rest: string)
    requires c as int < 256
    ensures QueryUnescape(EscapeByte(c) + rest)
         == if QueryUnescape(rest).None? then None else Some([c] + QueryUnescape(rest).value)
  {
    hide QueryUnescape;
    var n := c as int;
    if IsUnreserved(c) {
      UnescapeLiteral(c, rest);
    } else if c == ' ' {
      UnescapeLiteral('+', rest);
    } else {
      UnescapePercent(n / 16 % 16, n % 16, rest);
      assert n / 16 % 16 * 16 + n % 16 == n;
    }
  }

  lemma {:induction false} UnescapeEscape(s: string)
    requires AllBytes(s)
    ensures QueryUnescape(QueryEscape(s)) == Some(s)
  {
    hide EscapeByte, QueryUnescape;
    if s == "" {
      assert QueryUnescape("") == Some("") by { UnescapeNothing(); }
    } else {
      UnescapeEscape(s[1..]);
      UnescapeByte(s[0], QueryEscape(s[1..]));
      assert s == [s[0]] + s[1..];
    }
  }

  lemma UnescapeNothing()
    ensures QueryUnescape("") == Some("")
  {
  }

  lemma UnescapePlain(s: string)
    requires forall i :: 0 <= i < |s| ==> s[i] != '%' && s[i] != '+'
    ensures QueryUnescape(s) == Some(s)
  {
    if s != "" {
      UnescapePlain(s[1..]);
      assert s == [s[0]] + s[1..];
    }
  }

  lemma FindFirst(s: string, i: nat, c: char)
    requires i < |s| && s[i] == c && c !in s[..i]
    ensures Find(s, c) == i && Before(s, c) == s[..i] && After(s, c) == s[i + 1..]
  {
    assert forall k :: 0 <= k < i ==> s[k] == s[..i][k];
  }

  lemma FindNone(s: string, c: char)
    requires c !in s
    ensures Find(s, c) == |s| && Before(s, c) == s && After(s, c) == ""
  {
  }

  lemma SplitSegment(key: string, escaped: string)
    requires '=' !in key
    ensures Before(key + "=" + escaped, '=') == key && After(key + "=" + escaped, '=') == escaped
  {
    var seg := key + "=" + escaped;
    assert seg[..|key|] == key && seg[|key| + 1..] == escaped;
    FindFirst(seg, |key|, '=');
  }

  /** One segment "key=value" is read as the pair of its unescaped parts. */
  lemma ParseOne(key: string, escaped: string, value: string)
    requires '=' !in key && ';' !in key + "=" + escaped
    requires QueryUnescape(key) == Some(key) && QueryUnescape(escaped) == Some(value)
    ensures ParseSegment(key + "=" + escaped) == [(key, value)]
  {
    SplitSegment(key, escaped);
  }

  lemma ParseFirst(seg: string, rest: string)
    requires '&' !in seg && seg != ""
    ensures ParseQuery(seg + "&" + rest) == ParseSegment(seg) + ParseQuery(rest)
    ensures ParseQuery(seg) == ParseSegment(seg)
  {
    var q := seg + "&" + rest;
    assert q[..|seg|] == seg && q[|seg| + 1..] == rest;
    FindFirst(q, |seg|, '&');
    FindNone(seg, '&');
    assert ParseSegment(seg) + ParseQuery("") == ParseSegment(seg);
  }

  /** The bytes that occur in a built magnet. */
  predicate IsMagnetChar(c: char) {
    IsEscaped(c) || c == ':' || c == '?' || c == '=' || c == '&'
  }

  function BuiltPairs(hash: string, name: string, announce: string): Pairs {
    [("xt", BTIH + hash)]
    + (if name != "" then [("dn", name)] else [])
    + (if announce != "" then [("tr", announce)] else [])
  }

  /** A segment of an escaped value has no separator and is read back as its pair. */
  lemma ParseEscaped(key: string, value: string)
    requires (key == "dn" || key == "tr") && AllBytes(value)
    ensures var seg := TextPart(key, value);
            '&' !in seg && ParseSegment(seg) == ParseQuery(seg) == [(key, value)]
  {
    var seg := key + "=" + QueryEscape(value);
    assert '&' !in seg && ';' !in seg;
    UnescapeEscape(value);
    UnescapePlain(key);
    ParseOne(key, QueryEscape(value), value);
    ParseFirst(seg, "");
  }

  lemma ParseHash(hash: string)
    requires AllHex(hash)
    ensures '&' !in HashPart(hash) && ParseSegment(HashPart(hash)) == ParseQuery(HashPart(hash)) == [("xt", BTIH + hash)]
  {
    assert '&' !in HashPart(hash) && ';' !in HashPart(hash);
    UnescapePlain(BTIH + hash);
    UnescapePlain("xt");
    ParseOne("xt", BTIH + hash, BTIH + hash);
    ParseFirst(HashPart(hash), "");
  }

  /** The optional parts, after their leading '&'. */
  function Tail(name: string, announce: string): string {
    if name == "" then TextPart("tr", announce)
    else if announce == "" then TextPart("dn", name)
    else TextPart("dn", name) + "&" + TextPart("tr", announce)
  }

  function TailPairs(name: string, announce: string): Pairs {
    if name == "" then [("tr", announce)]
    else if announce == "" then [("dn", name)]
    else [("dn", name), ("tr", announce)]
  }

  lemma ParseTail(name: string, announce: string)
    requires AllBytes(name) && AllBytes(announce)
    ensures ParseQuery(Tail(name, announce)) == TailPairs(name, announce)
  {
    ParseEscaped("dn", name);
    ParseEscaped("tr", announce);
    if name != "" && announce != "" {
      ParseFirst(TextPart("dn", name), TextPart("tr", announce));
    }
  }

  lemma BuiltFromTail(hash: string, name: string, announce: string)
    requires name != "" || announce != ""
    ensures BuiltQuery(hash, name, announce) == HashPart(hash) + "&" + Tail(name, announce)
    ensures BuiltPairs(hash, name, announce) == [("xt", BTIH + hash)] + TailPairs(name, announce)
  {
  }

  lemma ParseBuilt(hash: string, name: string, announce: string)
    requires AllHex(hash) && AllBytes(name) && AllBytes(announce)
    ensures ParseQuery(BuiltQuery(hash, name, announce)) == BuiltPairs(hash, name, announce)
  {
    ParseHash(hash);
    if name == "" && announce == "" {
      assert BuiltQuery(hash, name, announce) == HashPart(hash);
    } else {
      BuiltFromTail(hash, name, announce);
      ParseFirst(HashPart(hash), Tail(name, announce));
      ParseTail(name, announce);
    }
  }

  predicate AllMagnetChars(s: string) {
    forall i :: 0 <= i < |s| ==> IsMagnetChar(s[i])
  }

  lemma BuiltChars(hash: string, name: string, announce: string)
    requires AllHex(hash)
    ensures AllMagnetChars(MagnetUri(hash, name, announce))
  {
    hide QueryEscape;
    var dn, tr := "&" + TextPart("dn", name), "&" + TextPart("tr", announce);
    assert AllMagnetChars(dn) && AllMagnetChars(tr) && AllMagnetChars("");
    var q := HashPart(hash);
    q := q + if name != "" then dn else "";
    q := q + if announce != "" then tr else "";
  }

  lemma BuiltParses(hash: string, name: string, announce: string, general: string -> Option<string>)
    requires AllHex(hash)
    ensures var m := MagnetUri(hash, name, announce);
            "magnet:" <= m && MagnetQuery(m, general) == Some(BuiltQuery(hash, name, announce))
  {
    hide QueryUnescape, BuiltQuery;
    var q := BuiltQuery(hash, name, announce);
    var m := "magnet:?" + q;
    assert m[..7] == "magnet:" && m[7..] == "?" + q;
    BuiltChars(hash, name, announce);
    FindNone(m, '#');
    assert !HasControl(m);
    assert QueryUnescape("") == Some("") by { UnescapeNothing(); }
    assert After("?" + q, '?') == q by {
      FindFirst("?" + q, 0, '?');
      assert ("?" + q)[1..] == q;
    }
  }

  /** Submitting a magnet of this form resolves to its info hash in lower case, whatever its case there. */
  lemma ResolveBuilt(hash: string, name: string, announce: string, fetched: Option<string>,
                     sha256Hex: string -> string, general: string -> Option<string>)
    requires AllHex(hash) && AllBytes(name) && AllBytes(announce)
    ensures ResolveCacheKey(MagnetUri(hash, name, announce), fetched, sha256Hex, general)
         == CacheKey(HashKey, ToLower(hash))
  {
    BuiltParses(hash, name, announce, general);
    ParseBuilt(hash, name, announce);
    assert TrimPrefix(BTIH + hash, BTIH) == hash;
  }

  lemma GetSecond(p: (string, string), rest: Pairs, key: string)
    ensures Get([p] + rest, key) == if p.0 == key then p.1 else Get(rest, key)
  {
    assert ([p] + rest)[1..] == rest;
  }

  lemma BuiltNames(hash: string, name: string, announce: string)
    ensures Get(BuiltPairs(hash, name, announce), "dn") == name
    ensures Get(BuiltPairs(hash, name, announce), "xt") == BTIH + hash
    ensures Get(BuiltPairs(hash, name, announce), "tr") == announce
  {
    var xt := ("xt", BTIH + hash);
    if name == "" && announce == "" {
      GetSecond(xt, [], "dn");
      GetSecond(xt, [], "xt");
      GetSecond(xt, [], "tr");
      assert BuiltPairs(hash, name, announce) == [xt] + [];
    } else {
      BuiltFromTail(hash, name, announce);
      GetSecond(xt, TailPairs(name, announce), "dn");
      GetSecond(xt, TailPairs(name, announce), "xt");
      GetSecond(xt, TailPairs(name, announce), "tr");
      if name != "" && announce != "" {
        GetSecond(("dn", name), [("tr", announce)], "tr");
        assert TailPairs(name, announce) == [("dn", name)] + [("tr", announce)];
      }
      if name == "" {
        assert Get([], "dn") == "";
      }
    }
  }

  /** The display name of a built magnet is the name it was built with, or the hash when there is none. */
  lemma NameOfBuilt(hash: string, name: string, announce: string, parsed: Option<(string, string)>,
                    general: string -> Option<string>)
    requires AllHex(hash) && AllBytes(name) && AllBytes(announce)
    ensures DefaultNameFromURL(MagnetUri(hash, name, announce), parsed, general)
         == if name != "" then name else hash
  {
    BuiltParses(hash, name, announce, general);
    ParseBuilt(hash, name, announce);
    BuiltNames(hash, name, announce);
    assert TrimPrefix(BTIH + hash, BTIH) == hash;
  }

  /** A reader of a built magnet finds the tracker it was built with, and no tracker when there is none. */
  lemma TrackerOfBuilt(hash: string, name: string, announce: string, general: string -> Option<string>)
    requires AllHex(hash) && AllBytes(name) && AllBytes(announce)
    ensures var magnet := MagnetUri(hash, name, announce);
            "magnet:" <= magnet && MagnetQuery(magnet, general).Some?
            && Get(ParseQuery(MagnetQuery(magnet, general).value), "tr") == announce
  {
    BuiltParses(hash, name, announce, general);
    ParseBuilt(hash, name, announce);
    BuiltNames(hash, name, announce);
  }

  // ---------- Magnets in general ----------

  /** The query of parameters in this order. */
  function Join(ps: Pairs): string {
    if ps == [] then ""
    else
      var part := QueryEscape(ps[0].0) + "=" + QueryEscape(ps[0].1);
      if |ps| == 1 then part else part + "&" + Join(ps[1..])
  }

  predicate AllByteTexts(ps: Pairs) {
    forall i :: 0 <= i < |ps| ==> AllBytes(ps[i].0) && AllBytes(ps[i].1)
  }

  lemma EscapedPart(key: string, value: string)
    requires AllBytes(key) && AllBytes(value)
    ensures var part := QueryEscape(key) + "=" + QueryEscape(value);
            '&' !in part && part != "" && ParseSegment(part) == [(key, value)]
  {
    var k, v := QueryEscape(key), QueryEscape(value);
    var part := k + "=" + v;
    assert '&' !in part && ';' !in part;
    assert '=' !in k;
    UnescapeEscape(key);
    UnescapeEscape(value);
    SplitSegment(k, v);
    hide QueryEscape, QueryUnescape;
  }

  /** Any parameters, escaped and joined, are read back in order. */
  lemma {:induction false} ParseJoined(ps: Pairs)
    requires AllByteTexts(ps)
    ensures ParseQuery(Join(ps)) == ps
    decreases |ps|
  {
    hide QueryEscape, ParseSegment;
    if ps != [] {
      EscapedPart(ps[0].0, ps[0].1);
      var part := QueryEscape(ps[0].0) + "=" + QueryEscape(ps[0].1);
      ParseFirst(part, if |ps| == 1 then "" else Join(ps[1..]));
      assert AllByteTexts(ps[1..]);
      if |ps| > 1 {
        ParseJoined(ps[1..]);
      }
      assert ps == [ps[0]] + ps[1..];
    }
  }

  lemma {:induction false} JoinedChars(ps: Pairs)
    ensures AllMagnetChars(Join(ps))
    decreases |ps|
  {
    if ps != [] {
      var part := QueryEscape(ps[0].0) + "=" + QueryEscape(ps[0].1);
      assert AllMagnetChars(part);
      JoinedChars(ps[1..]);
      if |ps| > 1 {
      }
    }
  }

  lemma JoinedParses(ps: Pairs, general: string -> Option<string>)
    ensures var m := "magnet:?" + Join(ps);
            "magnet:" <= m && MagnetQuery(m, general) == Some(Join(ps))
  {
    hide QueryUnescape, Join;
    var q := Join(ps);
    var m := "magnet:?" + q;
    assert m[..7] == "magnet:" && m[7..] == "?" + q;
    JoinedChars(ps);
    FindNone(m, '#');
    assert !HasControl(m);
    assert QueryUnescape("") == Some("") by { UnescapeNothing(); }
    assert After("?" + q, '?') == q by {
      FindFirst("?" + q, 0, '?');
      assert ("?" + q)[1..] == q;
    }
  }

  /**
   A magnet with any parameters in any order: it is keyed by its first "xt" if that is a BitTorrent hash, else
   by its own SHA-256; and it is named by its first "dn", else by that hash, else by itself.
   */
  lemma MagnetWithParameters(ps: Pairs, fetched: Option<string>, sha256Hex: string -> string,
                             parsed: Option<(string, string)>, general: string -> Option<string>)
    requires AllByteTexts(ps)
    ensures var raw, xt, dn := "magnet:?" + Join(ps), Get(ps, "xt"), Get(ps, "dn");
            && ResolveCacheKey(raw, fetched, sha256Hex, general)
               == (if "urn:btih:" <= xt then CacheKey(HashKey, ToLower(xt[9..])) else CacheKey(UrlKey, sha256Hex(raw)))
            && DefaultNameFromURL(raw, parsed, general)
               == (if dn != "" then dn else if "urn:btih:" <= xt then xt[9..] else raw)
  {
    hide Join, Get, ToLower, ParseQuery, MagnetQuery;
    JoinedParses(ps, general);
    ParseJoined(ps);
    var raw := "magnet:?" + Join(ps);
    assert raw[0] == 'm';
  }

  /** A fragment does not count, unless it is malformed: then the URL does not parse at all. */
  lemma MagnetWithFragment(ps: Pairs, fragment: string, general: string -> Option<string>)
    ensures MagnetQuery("magnet:?" + Join(ps) + "#" + fragment, general)
         == if QueryUnescape(fragment).Some? then Some(Join(ps)) else None
  {
    hide QueryUnescape, Join;
    var q := Join(ps);
    var u := "magnet:?" + q;
    var m := u + "#" + fragment;
    JoinedChars(ps);
    assert m[..|u|] == u && m[|u| + 1..] == fragment;
    FindFirst(m, |u|, '#');
    assert !HasControl(u);
    assert u[7..] == "?" + q;
    assert After("?" + q, '?') == q by {
      FindFirst("?" + q, 0, '?');
      assert ("?" + q)[1..] == q;
    }
  }

  /** A parameter with a semicolon in it is dropped, the others are not. */
  lemma SemicolonsDropParameter(part: string, rest: string)
    requires '&' !in part && ';' in part
    ensures ParseQuery(part + "&" + rest) == ParseQuery(rest) && ParseQuery(part) == []
  {
    ParseFirst(part, rest);
  }
}
