/**
 * The URL text the page produces and reads back: encodeURIComponent (UTF-8 bytes,
 * escaped as upper-case %XX), the `search` part of a location, and the name-value
 * parsing of `new URLSearchParams(search).get(name)`, which follows the
 * application/x-www-form-urlencoded parser of the WHATWG URL Standard.
 */
module Uri {
  import opened Wrappers

  type Byte = b: int | 0 <= b < 256

  /** Position of the first `x` in `xs`, or `|xs|` when there is none. */
  function IndexOf<T(==)>(xs: seq<T>, x: T): (k: nat)
    ensures k <= |xs|
    ensures k < |xs| ==> xs[k] == x
    ensures forall i :: 0 <= i < k ==> xs[i] != x
  {
    if xs == [] || xs[0] == x then 0 else 1 + IndexOf(xs[1..], x)
  }

  // ---------------------------------------------------------------- UTF-8

  /** The UTF-8 encoding of one code point. */
  function Utf8Char(c: char): (bs: seq<Byte>)
    ensures 1 <= |bs| <= 4
    ensures |bs| == 1 <==> c as int < 0x80
    ensures |bs| == 1 ==> bs[0] == c as int
    ensures |bs| > 1 ==> forall i :: 0 <= i < |bs| ==> bs[i] >= 0x80
  {
    var n := c as int;
    if n < 0x80 then [n]
    else if n < 0x800 then [0xC0 + n / 64, 0x80 + n % 64]
    else if n < 0x10000 then [0xE0 + n / 4096, 0x80 + (n / 64) % 64, 0x80 + n % 64]
    else [0xF0 + n / 0x40000, 0x80 + (n / 4096) % 64, 0x80 + (n / 64) % 64, 0x80 + n % 64]
  }

  function Utf8Encode(s: string): seq<Byte> {
    if s == [] then [] else Utf8Char(s[0]) + Utf8Encode(s[1..])
  }

  const Replacement: char := '\U{FFFD}'

  /** Decodes the code point at the front of `bs` as the UTF-8 decoder of the WHATWG Encoding
      Standard does in replacement mode, giving the code point and the number of bytes consumed.
      An ill-formed sequence gives U+FFFD and consumes its lead byte together with the
      continuation bytes that were still acceptable. */
  function DecodeOne(bs: seq<Byte>): (r: (char, nat))
    requires bs != []
    ensures 1 <= r.1 <= |bs|
  {
    var b0: int := bs[0];
    if b0 < 0x80 then (b0 as char, 1)
    else if 0xC2 <= b0 <= 0xDF then DecodeTail(bs, 1, 0x80, 0xBF)
    else if 0xE0 <= b0 <= 0xEF then
      DecodeTail(bs, 2, if b0 == 0xE0 then 0xA0 else 0x80, if b0 == 0xED then 0x9F else 0xBF)
    else if 0xF0 <= b0 <= 0xF4 then
      DecodeTail(bs, 3, if b0 == 0xF0 then 0x90 else 0x80, if b0 == 0xF4 then 0x8F else 0xBF)
    else (Replacement, 1)
  }

  /** The rest of a multi-byte sequence whose lead byte announced `need` continuation bytes,
      the first of which must lie in `lo..hi` and the others in 0x80..0xBF. */
  function DecodeTail(bs: seq<Byte>, need: nat, lo: int, hi: int): (r: (char, nat))
    requires 1 <= need <= 3 && bs != []
    requires need == 1 ==> 0xC2 <= bs[0] <= 0xDF && lo == 0x80 && hi == 0xBF
    requires need == 2 ==> 0xE0 <= bs[0] <= 0xEF && lo == (if bs[0] == 0xE0 then 0xA0 else 0x80)
                            && hi == (if bs[0] == 0xED then 0x9F else 0xBF)
    requires need == 3 ==> 0xF0 <= bs[0] <= 0xF4 && lo == (if bs[0] == 0xF0 then 0x90 else 0x80)
                            && hi == (if bs[0] == 0xF4 then 0x8F else 0xBF)
    ensures 1 <= r.1 <= |bs|
  {
    var ok1 := |bs| > 1 && lo <= bs[1] <= hi;
    var ok2 := ok1 && need >= 2 && |bs| > 2 && 0x80 <= bs[2] <= 0xBF;
    var ok3 := ok2 && need >= 3 && |bs| > 3 && 0x80 <= bs[3] <= 0xBF;
    if need == 1 && ok1 then
      (Scalar2(bs[0], bs[1]) as char, 2)
    else if need == 2 && ok2 then
      (Scalar3(bs[0], bs[1], bs[2]) as char, 3)
    else if need == 3 && ok3 then
      (Scalar4(bs[0], bs[1], bs[2], bs[3]) as char, 4)
    else
      (Replacement, if ok2 then 3 else if ok1 then 2 else 1)
  }

  function Scalar2(b0: int, b1: int): (n: int)
    requires 0xC2 <= b0 <= 0xDF && 0x80 <= b1 <= 0xBF
    ensures 0x80 <= n < 0x800
  {
    (b0 - 0xC0) * 64 + (b1 - 0x80)
  }

  function Scalar3(b0: int, b1: int, b2: int): (n: int)
    requires 0xE0 <= b0 <= 0xEF && 0x80 <= b1 <= 0xBF && 0x80 <= b2 <= 0xBF
    requires b0 == 0xE0 ==> b1 >= 0xA0
    requires b0 == 0xED ==> b1 <= 0x9F
    ensures 0x800 <= n < 0xD800 || 0xE000 <= n < 0x10000
  {
    (b0 - 0xE0) * 4096 + (b1 - 0x80) * 64 + (b2 - 0x80)
  }

  function Scalar4(b0: int, b1: int, b2: int, b3: int): (n: int)
    requires 0xF0 <= b0 <= 0xF4 && 0x80 <= b1 <= 0xBF && 0x80 <= b2 <= 0xBF && 0x80 <= b3 <= 0xBF
    requires b0 == 0xF0 ==> b1 >= 0x90
    requires b0 == 0xF4 ==> b1 <= 0x8F
    ensures 0x10000 <= n < 0x110000
  {
    (b0 - 0xF0) * 0x40000 + (b1 - 0x80) * 4096 + (b2 - 0x80) * 64 + (b3 - 0x80)
  }

  /** UTF-8 decoding in replacement mode: never fails. */
  function Utf8Decode(bs: seq<Byte>): string
    decreases |bs|
  {
    if bs == [] then [] else
    var (c, k) := DecodeOne(bs);
    [c] + Utf8Decode(bs[k..])
  }

  lemma {:induction false} Utf8EncodeAppend(a: string, b: string)
    ensures Utf8Encode(a + b) == Utf8Encode(a) + Utf8Encode(b)
  {
    if a == [] {
      assert a + b == b;
    } else {
      assert (a + b)[0] == a[0] && (a + b)[1..] == a[1..] + b;
      Utf8EncodeAppend(a[1..], b);
      assert Utf8Encode(a + b) == Utf8Char(a[0]) + Utf8Encode(a[1..] + b);
    }
  }

  /** The decoder reads back exactly the code point whose encoding starts the input. */
  lemma DecodeOneOfChar(c: char, rest: seq<Byte>)
    ensures DecodeOne(Utf8Char(c) + rest) == (c, |Utf8Char(c)|)
  {
    var n := c as int;
    if n < 0x80 {
    } else if n < 0x800 {
      DecodeTwo(c, rest);
    } else if n < 0x10000 {
      DecodeThree(c, rest);
    } else {
      DecodeFour(c, rest);
    }
  }

  lemma DecodeTwo(c: char, rest: seq<Byte>)
    requires 0x80 <= c as int < 0x800
    ensures DecodeOne(Utf8Char(c) + rest) == (c, 2)
  {
    var n := c as int;
    var bs := Utf8Char(c) + rest;
    var q, r := n / 64, n % 64;
    assert n == 64 * q + r;
    assert bs[0] == 0xC0 + q && bs[1] == 0x80 + r;
    assert Scalar2(bs[0], bs[1]) == n;
  }

  lemma DecodeThree(c: char, rest: seq<Byte>)
    requires 0x800 <= c as int < 0x10000
    ensures DecodeOne(Utf8Char(c) + rest) == (c, 3)
  {
    var n := c as int;
    var bs := Utf8Char(c) + rest;
    var q, r := n / 64, n % 64;
    var q2, r2 := q / 64, q % 64;
    assert n == 64 * q + r && q == 64 * q2 + r2;
    assert n / 4096 == q2;
    assert bs[0] == 0xE0 + q2 && bs[1] == 0x80 + r2 && bs[2] == 0x80 + r;
    assert Scalar3(bs[0], bs[1], bs[2]) == n;
  }

  lemma DecodeFour(c: char, rest: seq<Byte>)
    requires 0x10000 <= c as int
    ensures DecodeOne(Utf8Char(c) + rest) == (c, 4)
  {
    var n := c as int;
    var bs := Utf8Char(c) + rest;
    var q, r := n / 64, n % 64;
    var q2, r2 := q / 64, q % 64;
    var q3, r3 := q2 / 64, q2 % 64;
    assert n == 64 * q + r && q == 64 * q2 + r2 && q2 == 64 * q3 + r3;
    assert n / 4096 == q2 && n / 0x40000 == q3;
    assert bs[0] == 0xF0 + q3 && bs[1] == 0x80 + r3 && bs[2] == 0x80 + r2 && bs[3] == 0x80 + r;
    assert Scalar4(bs[0], bs[1], bs[2], bs[3]) == n;
  }

  /** Decoding undoes encoding, for every string. */
  lemma {:induction false} Utf8RoundTrip(s: string)
    ensures Utf8Decode(Utf8Encode(s)) == s
  {
    if s != [] {
      var bs := Utf8Encode(s);
      DecodeOneOfChar(s[0], Utf8Encode(s[1..]));
      assert bs[|Utf8Char(s[0])|..] == Utf8Encode(s[1..]);
      Utf8RoundTrip(s[1..]);
    }
  }

  /** A string of ASCII characters is encoded one byte per character. */
  lemma {:induction false} Utf8Ascii(s: string)
    requires forall i :: 0 <= i < |s| ==> s[i] as int < 0x80
    ensures |Utf8Encode(s)| == |s|
    ensures forall i :: 0 <= i < |s| ==> Utf8Encode(s)[i] == s[i] as int
  {
    if s != [] {
      Utf8Ascii(s[1..]);
    }
  }

  // ---------------------------------------------------------------- percent-encoding

  /** The characters encodeURIComponent leaves as they are. */
  predicate Unreserved(c: char) {
    ('A' <= c <= 'Z') || ('a' <= c <= 'z') || ('0' <= c <= '9')
    || c == '-' || c == '_' || c == '.' || c == '!' || c == '~' || c == '*' || c == '\'' || c == '(' || c == ')'
  }

  /** Upper-case hexadecimal digit. */
  function HexDigit(d: nat): (c: char)
    requires d < 16
    ensures Unreserved(c)
  {
    if d < 10 then ('0' as int + d) as char else ('A' as int + d - 10) as char
  }

  predicate IsHexByte(b: Byte) {
    (0x30 <= b <= 0x39) || (0x41 <= b <= 0x46) || (0x61 <= b <= 0x66)
  }

  function HexValue(b: Byte): (v: nat)
    requires IsHexByte(b)
    ensures v < 16
  {
    if b <= 0x39 then b - 0x30 else if b <= 0x46 then b - 0x41 + 10 else b - 0x61 + 10
  }

  /** One byte as encodeURIComponent writes it. */
  function EscapeByte(b: Byte): string {
    if b < 0x80 && Unreserved(b as char) then [b as char] else ['%', HexDigit(b / 16), HexDigit(b % 16)]
  }

  function EscapeBytes(bs: seq<Byte>): (r: string)
    ensures forall i :: 0 <= i < |r| ==> Unreserved(r[i]) || r[i] == '%'
  {
    if bs == [] then [] else EscapeByte(bs[0]) + EscapeBytes(bs[1..])
  }

  /** encodeURIComponent. Its output holds only unreserved characters and `%`, so
      none of `&`, `=`, `+`, `#` or `?` can appear in it. */
  function EncodeURIComponent(s: string): (r: string)
    ensures forall i :: 0 <= i < |r| ==> Unreserved(r[i]) || r[i] == '%'
  {
    EscapeBytes(Utf8Encode(s))
  }

  /** Percent-decoding of the URL Standard: `%` followed by two hex digits becomes the byte they
      spell; every other byte, a stray `%` included, is kept. */
  function PercentDecode(bs: seq<Byte>): seq<Byte>
    decreases |bs|
  {
    if bs == [] then []
    else if bs[0] == 0x25 && |bs| >= 3 && IsHexByte(bs[1]) && IsHexByte(bs[2]) then
      [HexValue(bs[1]) * 16 + HexValue(bs[2])] + PercentDecode(bs[3..])
    else
      [bs[0]] + PercentDecode(bs[1..])
  }

  /** Percent-decoding leaves bytes that hold no `%` alone. */
  lemma {:induction false} PercentDecodePlain(bs: seq<Byte>)
    requires forall i :: 0 <= i < |bs| ==> bs[i] != 0x25
    ensures PercentDecode(bs) == bs
  {
    if bs != [] {
      PercentDecodePlain(bs[1..]);
    }
  }

  /** Percent-decoding undoes encodeURIComponent's escaping, byte for byte. */
  lemma {:induction false} PercentRoundTrip(bs: seq<Byte>)
    ensures PercentDecode(Utf8Encode(EscapeBytes(bs))) == bs
  {
    if bs != [] {
      var head := EscapeByte(bs[0]);
      var tail := EscapeBytes(bs[1..]);
      assert EscapeBytes(bs) == head + tail;
      Utf8EncodeAppend(head, tail);
      EscapedByteDecodes(bs[0], Utf8Encode(tail));
      PercentRoundTrip(bs[1..]);
    }
  }

  /** One escaped byte decodes back to that byte, whatever follows it. */
  lemma EscapedByteDecodes(b: Byte, rest: seq<Byte>)
    ensures PercentDecode(Utf8Encode(EscapeByte(b)) + rest) == [b] + PercentDecode(rest)
  {
    var head := EscapeByte(b);
    var enc := Utf8Encode(head) + rest;
    if b < 0x80 && Unreserved(b as char) {
      assert Utf8Encode(head) == [b];
      assert enc[1..] == rest;
    } else {
      var h1, h2 := HexDigit(b / 16), HexDigit(b % 16);
      Utf8Ascii(head);
      assert Utf8Encode(head) == [0x25, h1 as int, h2 as int];
      assert HexValue(h1 as int) * 16 + HexValue(h2 as int) == b;
      assert enc[3..] == rest;
    }
  }

  // ---------------------------------------------------------------- query strings

  function PlusToSpace(bs: seq<Byte>): (r: seq<Byte>)
    ensures |r| == |bs|
    ensures forall i :: 0 <= i < |bs| ==> r[i] == if bs[i] == 0x2B then 0x20 else bs[i]
  {
    seq(|bs|, i requires 0 <= i < |bs| => if bs[i] == 0x2B then 0x20 else bs[i])
  }

  /** A name or a value of a query string: `+` is a space, then percent-decoding, then UTF-8. */
  function FormDecode(bs: seq<Byte>): string {
    Utf8Decode(PercentDecode(PlusToSpace(bs)))
  }

  /** One `name=value` sequence; without `=` the whole sequence is the name and the value is empty. */
  function FormPair(seg: seq<Byte>): (string, string) {
    var j := IndexOf(seg, 0x3D);
    (FormDecode(seg[..j]), FormDecode(if j < |seg| then seg[j + 1..] else []))
  }

  /** The name-value list of the application/x-www-form-urlencoded parser: split on `&`,
      skipping empty sequences. */
  function FormPairs(bs: seq<Byte>): seq<(string, string)>
    decreases |bs|
  {
    if bs == [] then [] else
    var k := IndexOf(bs, 0x26);
    (if k == 0 then [] else [FormPair(bs[..k])]) + (if k < |bs| then FormPairs(bs[k + 1..]) else [])
  }

  /** The value of the first pair with the given name, as URLSearchParams.get returns it. */
  function Lookup(pairs: seq<(string, string)>, name: string): (r: Option<string>)
    ensures r.None? <==> forall i :: 0 <= i < |pairs| ==> pairs[i].0 != name
    ensures r.Some? ==>
      exists i :: 0 <= i < |pairs| && pairs[i] == (name, r.value) && forall j :: 0 <= j < i ==> pairs[j].0 != name
  {
    if pairs == [] then None
    else if pairs[0].0 == name then Some(pairs[0].1)
    else Lookup(pairs[1..], name)
  }

  /** `new URLSearchParams(search).get(name)`: a leading `?` is dropped before parsing. */
  function SearchParam(search: string, name: string): Option<string> {
    var query := if search != [] && search[0] == '?' then search[1..] else search;
    Lookup(FormPairs(Utf8Encode(query)), name)
  }

  /** The `search` of a location reached through a same-origin path: from its first `?` up to
      any `#`; a lone `?` gives the empty string. */
  function LocationSearch(path: string): string {
    var q := IndexOf(path, '?');
    if q == |path| then [] else
    var rest := path[q..];
    var h := IndexOf(rest, '#');
    if h <= 1 then [] else rest[..h]
  }

  // ---------------------------------------------------------------- round trips

  /** A plain name or value (no `%`, no `+`) is read back as it was written. */
  lemma FormDecodePlain(s: string)
    requires forall i :: 0 <= i < |s| ==> s[i] != '%' && s[i] != '+'
    ensures FormDecode(Utf8Encode(s)) == s
  {
    var bs := Utf8Encode(s);
    PlainBytes(s);
    assert PlusToSpace(bs) == bs;
    PercentDecodePlain(bs);
    Utf8RoundTrip(s);
  }

  /** The UTF-8 bytes of a string with no `%` and no `+` hold neither byte. */
  lemma {:induction false} PlainBytes(s: string)
    requires forall i :: 0 <= i < |s| ==> s[i] != '%' && s[i] != '+'
    ensures forall i :: 0 <= i < |Utf8Encode(s)| ==> Utf8Encode(s)[i] != 0x25 && Utf8Encode(s)[i] != 0x2B
  {
    if s != [] {
      PlainBytes(s[1..]);
      var head := Utf8Char(s[0]);
      assert Utf8Encode(s) == head + Utf8Encode(s[1..]);
      forall i | 0 <= i < |Utf8Encode(s)|
        ensures Utf8Encode(s)[i] != 0x25 && Utf8Encode(s)[i] != 0x2B
      {
        if i >= |head| {
          assert Utf8Encode(s)[i] == Utf8Encode(s[1..])[i - |head|];
        }
      }
    }
  }

  /** encodeURIComponent's output, as bytes, holds no `&`, `=`, `+` and no byte above ASCII. */
  lemma EncodedBytes(t: string)
    ensures |Utf8Encode(EncodeURIComponent(t))| == |EncodeURIComponent(t)|
    ensures forall i :: 0 <= i < |Utf8Encode(EncodeURIComponent(t))| ==>
      var b := Utf8Encode(EncodeURIComponent(t))[i];
      b != 0x26 && b != 0x3D && b != 0x2B && b < 0x80
  {
    var e := EncodeURIComponent(t);
    Utf8Ascii(e);
  }

  /** Decoding an encoded component gives the original string back, whatever it holds. */
  lemma ComponentRoundTrip(t: string)
    ensures FormDecode(Utf8Encode(EncodeURIComponent(t))) == t
  {
    var eb := Utf8Encode(EncodeURIComponent(t));
    EncodedBytes(t);
    assert PlusToSpace(eb) == eb;
    PercentRoundTrip(Utf8Encode(t));
    Utf8RoundTrip(t);
  }

  /** An unreserved name is plain ASCII with no `%`, `+`, `&` or `=`. */
  lemma UnreservedBytes(name: string)
    requires forall i :: 0 <= i < |name| ==> Unreserved(name[i])
    ensures |Utf8Encode(name)| == |name|
    ensures forall i :: 0 <= i < |name| ==> Utf8Encode(name)[i] == name[i] as int
    ensures forall i :: 0 <= i < |name| ==> name[i] != '%' && name[i] != '+' && name[i] != '&' && name[i] != '='
  {
    Utf8Ascii(name);
  }

  /** The bytes of `name=` followed by an encoded value: the only `=` is the one after the name,
      and there is no `&`. */
  lemma {:induction false} PairBytes(name: string, t: string)
    requires forall i :: 0 <= i < |name| ==> Unreserved(name[i])
    ensures var bs := Utf8Encode(name + "=" + EncodeURIComponent(t));
      && bs == Utf8Encode(name) + [0x3D] + Utf8Encode(EncodeURIComponent(t))
      && IndexOf(bs, 0x26) == |bs|
      && IndexOf(bs, 0x3D) == |name|
  {
    var e := EncodeURIComponent(t);
    var nb := Utf8Encode(name);
    var eb := Utf8Encode(e);
    UnreservedBytes(name);
    EncodedBytes(t);
    assert Utf8Encode("=") == [0x3D] by { Utf8Ascii("="); }
    Utf8EncodeAppend(name, "=");
    Utf8EncodeAppend(name + "=", e);
    var bs := Utf8Encode(name + "=" + e);
    assert bs == nb + [0x3D] + eb;
    forall i | 0 <= i < |bs| ensures bs[i] != 0x26 {
      if i > |nb| {
        assert bs[i] == eb[i - |nb| - 1];
      } else if i < |nb| {
        assert bs[i] == nb[i];
      }
    }
    forall i | 0 <= i < |nb| ensures bs[i] != 0x3D {
      assert bs[i] == nb[i];
    }
    assert bs[|nb|] == 0x3D;
    var k := IndexOf(bs, 0x3D);
    assert !(k < |nb|) && !(k > |nb|);
  }

  /** `name=` followed by an encoded value reads back as the pair it was made from. */
  lemma {:induction false} PairRoundTrip(name: string, t: string)
    requires forall i :: 0 <= i < |name| ==> Unreserved(name[i])
    ensures FormPair(Utf8Encode(name + "=" + EncodeURIComponent(t))) == (name, t)
  {
    var bs := Utf8Encode(name + "=" + EncodeURIComponent(t));
    var nb := Utf8Encode(name);
    var eb := Utf8Encode(EncodeURIComponent(t));
    PairBytes(name, t);
    UnreservedBytes(name);
    assert bs[..|name|] == nb;
    assert bs[|name| + 1..] == eb;
    FormDecodePlain(name);
    ComponentRoundTrip(t);
  }

  /** The pairs of `name=` followed by an encoded value, when nothing else follows. */
  lemma {:induction false} SinglePair(name: string, t: string)
    requires name != [] && forall i :: 0 <= i < |name| ==> Unreserved(name[i])
    ensures FormPairs(Utf8Encode(name + "=" + EncodeURIComponent(t))) == [(name, t)]
  {
    var bs := Utf8Encode(name + "=" + EncodeURIComponent(t));
    PairBytes(name, t);
    assert bs[..|bs|] == bs;
    PairRoundTrip(name, t);
  }

  /** The parser cuts at the first `&`. */
  lemma {:induction false} FormPairsSplit(a: seq<Byte>, b: seq<Byte>)
    requires a != [] && IndexOf(a, 0x26) == |a|
    ensures FormPairs(a + [0x26] + b) == [FormPair(a)] + FormPairs(b)
  {
    var bs := a + [0x26] + b;
    assert bs[|a|] == 0x26;
    forall i | 0 <= i < |a| ensures bs[i] != 0x26 {
      assert bs[i] == a[i];
    }
    var k := IndexOf(bs, 0x26);
    assert !(k < |a|) && !(k > |a|);
    assert bs[..k] == a;
    assert bs[k + 1..] == b;
  }

  /** Two encoded pairs joined by `&` read back as those two pairs, in order. */
  lemma {:induction false} TwoPairs(n1: string, t1: string, n2: string, t2: string)
    requires n1 != [] && forall i :: 0 <= i < |n1| ==> Unreserved(n1[i])
    requires n2 != [] && forall i :: 0 <= i < |n2| ==> Unreserved(n2[i])
    ensures FormPairs(Utf8Encode(n1 + "=" + EncodeURIComponent(t1) + "&" + n2 + "=" + EncodeURIComponent(t2)))
      == [(n1, t1), (n2, t2)]
  {
    var p1 := n1 + "=" + EncodeURIComponent(t1);
    var p2 := n2 + "=" + EncodeURIComponent(t2);
    assert n1 + "=" + EncodeURIComponent(t1) + "&" + n2 + "=" + EncodeURIComponent(t2) == p1 + "&" + p2;
    assert Utf8Encode("&") == [0x26] by { Utf8Ascii("&"); }
    Utf8EncodeAppend(p1, "&");
    Utf8EncodeAppend(p1 + "&", p2);
    PairBytes(n1, t1);
    assert Utf8Encode(p1) != [];
    FormPairsSplit(Utf8Encode(p1), Utf8Encode(p2));
    PairRoundTrip(n1, t1);
    SinglePair(n2, t2);
  }

  /** The `search` of `prefix?query`, when the prefix holds no `?` and the query no `#`. */
  lemma {:induction false} PathSearch(prefix: string, query: string)
    requires IndexOf(prefix, '?') == |prefix|
    requires query != [] && IndexOf(query, '#') == |query|
    ensures LocationSearch(prefix + "?" + query) == "?" + query
  {
    var path := prefix + "?" + query;
    assert path[|prefix|] == '?';
    forall i | 0 <= i < |prefix| ensures path[i] != '?' {
      assert path[i] == prefix[i];
    }
    var q := IndexOf(path, '?');
    assert !(q < |prefix|) && !(q > |prefix|);
    var rest := path[q..];
    assert rest == "?" + query;
    forall i | 0 <= i < |rest| ensures rest[i] != '#' {
      if i > 0 {
        assert rest[i] == query[i - 1];
      }
    }
    assert IndexOf(rest, '#') == |rest|;
    assert rest[..|rest|] == rest;
  }

  /** A character of a query string built from unreserved names and encoded values. */
  predicate QueryChar(c: char) {
    Unreserved(c) || c == '=' || c == '&' || c == '%'
  }

  predicate QueryText(s: string) {
    forall i :: 0 <= i < |s| ==> QueryChar(s[i])
  }

  lemma QueryTextAppend(a: string, b: string)
    requires QueryText(a) && QueryText(b)
    ensures QueryText(a + b)
  {
    forall i | |a| <= i < |a + b| ensures QueryChar((a + b)[i]) {
      assert (a + b)[i] == b[i - |a|];
    }
  }

  /** `name=<encoded t>` is query text. */
  lemma PairText(name: string, t: string)
    requires forall i :: 0 <= i < |name| ==> Unreserved(name[i])
    ensures QueryText(name + "=" + EncodeURIComponent(t))
  {
    QueryTextAppend(name, "=");
    QueryTextAppend(name + "=", EncodeURIComponent(t));
  }

  /** Query text holds no `#`. */
  lemma NoHash(s: string)
    requires QueryText(s)
    ensures IndexOf(s, '#') == |s|
  {
  }

  /** A link `prefix?name=<encoded t>` gives `t` back as its `name` parameter. */
  lemma {:induction false} LinkParam(prefix: string, name: string, t: string)
    requires IndexOf(prefix, '?') == |prefix|
    requires name != [] && forall i :: 0 <= i < |name| ==> Unreserved(name[i])
    ensures SearchParam(LocationSearch(prefix + "?" + name + "=" + EncodeURIComponent(t)), name) == Some(t)
  {
    var query := name + "=" + EncodeURIComponent(t);
    assert prefix + "?" + name + "=" + EncodeURIComponent(t) == prefix + "?" + query;
    PairText(name, t);
    NoHash(query);
    PathSearch(prefix, query);
    assert ("?" + query)[1..] == query;
    SinglePair(name, t);
  }

  /** URLSearchParams ignores the leading `?` of a search. */
  lemma SearchParamOf(query: string, name: string)
    ensures SearchParam("?" + query, name) == Lookup(FormPairs(Utf8Encode(query)), name)
  {
    assert ("?" + query)[1..] == query;
  }

  /** The query `n1=<encoded t1>&n2=<encoded t2>` is query text whose pairs are the two given. */
  lemma {:induction false} TwoPairQuery(n1: string, t1: string, n2: string, t2: string)
    requires n1 != [] && forall i :: 0 <= i < |n1| ==> Unreserved(n1[i])
    requires n2 != [] && forall i :: 0 <= i < |n2| ==> Unreserved(n2[i])
    ensures var query := n1 + "=" + EncodeURIComponent(t1) + "&" + n2 + "=" + EncodeURIComponent(t2);
      query != [] && IndexOf(query, '#') == |query| && FormPairs(Utf8Encode(query)) == [(n1, t1), (n2, t2)]
  {
    var p1 := n1 + "=" + EncodeURIComponent(t1);
    var p2 := n2 + "=" + EncodeURIComponent(t2);
    var query := n1 + "=" + EncodeURIComponent(t1) + "&" + n2 + "=" + EncodeURIComponent(t2);
    assert query == p1 + "&" + p2;
    PairText(n1, t1);
    PairText(n2, t2);
    QueryTextAppend(p1, "&");
    QueryTextAppend(p1 + "&", p2);
    NoHash(query);
    TwoPairs(n1, t1, n2, t2);
  }

  /** A link `prefix?n1=<encoded t1>&n2=<encoded t2>` gives back both values. */
  lemma {:induction false} LinkParams(prefix: string, n1: string, t1: string, n2: string, t2: string)
    requires IndexOf(prefix, '?') == |prefix|
    requires n1 != [] && forall i :: 0 <= i < |n1| ==> Unreserved(n1[i])
    requires n2 != [] && forall i :: 0 <= i < |n2| ==> Unreserved(n2[i])
    requires n1 != n2
    ensures var link := prefix + "?" + n1 + "=" + EncodeURIComponent(t1) + "&" + n2 + "=" + EncodeURIComponent(t2);
      SearchParam(LocationSearch(link), n1) == Some(t1) && SearchParam(LocationSearch(link), n2) == Some(t2)
  {
    var query := n1 + "=" + EncodeURIComponent(t1) + "&" + n2 + "=" + EncodeURIComponent(t2);
    var link := prefix + "?" + n1 + "=" + EncodeURIComponent(t1) + "&" + n2 + "=" + EncodeURIComponent(t2);
    assert link == prefix + "?" + query;
    TwoPairQuery(n1, t1, n2, t2);
    PathSearch(prefix, query);
    SearchParamOf(query, n1);
    SearchParamOf(query, n2);
    var pairs := [(n1, t1), (n2, t2)];
    assert Lookup(pairs, n1) == Some(t1);
    assert pairs[1..] == [(n2, t2)];
    assert Lookup(pairs, n2) == Some(t2);
  }
}
