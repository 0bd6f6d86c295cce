/** Base64, section 4 of RFC 4648, as base64.c computes it. */
module Base64 {
  import opened Basics

  type Byte = bv8

  type Sextet = bv6

  // ----- Section 4 of RFC 4648, on groups of bits -----

  /** A place of an encoded text: six bits, or the padding. */
  datatype Place = Bits(v: Sextet) | Pad

  /** The 24 bits of three bytes, six at a time. */
  function S0(a: Byte): Sextet { (a >> 2) as bv6 }
  function S1(a: Byte, b: Byte): Sextet { (((a & 3) << 4) | (b >> 4)) as bv6 }
  function S2(b: Byte, c: Byte): Sextet { (((b & 15) << 2) | (c >> 6)) as bv6 }
  function S3(c: Byte): Sextet { (c & 63) as bv6 }

  /** The 24 bits of four sextets, eight at a time. */
  function B0(p: Sextet, q: Sextet): Byte { ((p as bv8) << 2) | ((q as bv8) >> 4) }
  function B1(q: Sextet, r: Sextet): Byte { ((q as bv8 & 15) << 4) | ((r as bv8) >> 2) }
  function B2(r: Sextet, s: Sextet): Byte { ((r as bv8 & 3) << 6) | (s as bv8) }

  lemma BytesBack(a: Byte, b: Byte, c: Byte)
    ensures B0(S0(a), S1(a, b)) == a && B1(S1(a, b), S2(b, c)) == b && B2(S2(b, c), S3(c)) == c
  {
  }

  lemma SextetsBack(p: Sextet, q: Sextet, r: Sextet, s: Sextet)
    ensures S0(B0(p, q)) == p && S1(B0(p, q), B1(q, r)) == q
    ensures S2(B1(q, r), B2(r, s)) == r && S3(B2(r, s)) == s
  {
  }

  /** Zero bytes are zero bits. */
  lemma ZeroBytes(a: Byte)
    ensures S1(a, 0) & 15 == 0 && S2(a, 0) & 3 == 0 && S2(0, 0) == 0 && S3(0) == 0
  {
  }

  /** A padded group comes back if the bits it does not use are zero. */
  lemma UnusedBits(p: Sextet, q: Sextet, r: Sextet)
    ensures S1(B0(p, q), 0) == q <==> q & 15 == 0
    ensures S2(B1(q, r), 0) == r <==> r & 3 == 0
  {
  }

  function Group(a: Byte, b: Byte, c: Byte): seq<Place> {
    [Bits(S0(a)), Bits(S1(a, b)), Bits(S2(b, c)), Bits(S3(c))]
  }

  function Encode(x: seq<Byte>): (e: seq<Place>)
    ensures |e| == 4 * ((|x| + 2) / 3)
  {
    if x == [] then []
    else if |x| == 1 then Group(x[0], 0, 0)[..2] + [Pad, Pad]
    else if |x| == 2 then Group(x[0], x[1], 0)[..3] + [Pad]
    else Group(x[0], x[1], x[2]) + Encode(x[3..])
  }

  /** A number of 24 bits, from three bytes or from four sextets. */
  function Number(a: Byte, b: Byte, c: Byte): bv24 {
    ((a as bv24) << 16) | ((b as bv24) << 8) | (c as bv24)
  }

  function SextetNumber(p: Sextet, q: Sextet, r: Sextet, s: Sextet): bv24 {
    ((p as bv24) << 18) | ((q as bv24) << 12) | ((r as bv24) << 6) | (s as bv24)
  }

  lemma SameNumber(a: Byte, b: Byte, c: Byte)
    ensures SextetNumber(S0(a), S1(a, b), S2(b, c), S3(c)) == Number(a, b, c)
    ensures S2(0, 0) == 0 && S3(0) == 0
  {
  }

  /** Byte i, or zero behind the end. */
  function ByteAt(x: seq<Byte>, i: nat): Byte {
    if i < |x| then x[i] else 0
  }

  /** What four places of a text say, with '=' as zero. */
  function PlacesNumber(e: seq<Place>, i: nat): bv24
    requires 4 * i + 4 <= |e|
  {
    SextetNumber(Six(e[4 * i]), Six(e[4 * i + 1]), Six(e[4 * i + 2]), Six(e[4 * i + 3]))
  }

  function BytesNumber(x: seq<Byte>, i: nat): bv24 {
    Number(ByteAt(x, 3 * i), ByteAt(x, 3 * i + 1), ByteAt(x, 3 * i + 2))
  }

  lemma FirstInOrder(x: seq<Byte>)
    requires x != []
    ensures PlacesNumber(Encode(x), 0) == BytesNumber(x, 0)
  {
    SameNumber(ByteAt(x, 0), ByteAt(x, 1), ByteAt(x, 2));
    hide SextetNumber, Number, S0, S1;
  }

  lemma WithoutGroup(e: seq<Place>, i: nat)
    requires i > 0 && 4 * i + 4 <= |e|
    ensures PlacesNumber(e, i) == PlacesNumber(e[4..], i - 1)
  {
    hide SextetNumber, Six;
    var r, k := e[4..], 4 * (i - 1);
    assert r[k] == e[k + 4] && r[k + 1] == e[k + 5] && r[k + 2] == e[k + 6] && r[k + 3] == e[k + 7];
  }

  lemma WithoutBytes(x: seq<Byte>, i: nat)
    requires i > 0 && |x| >= 3
    ensures BytesNumber(x, i) == BytesNumber(x[3..], i - 1)
  {
    hide Number;
    var r, k := x[3..], 3 * (i - 1);
    assert ByteAt(r, k) == ByteAt(x, k + 3);
    assert ByteAt(r, k + 1) == ByteAt(x, k + 4) && ByteAt(r, k + 2) == ByteAt(x, k + 5);
  }

  /** Section 4: each four places are the bits of three bytes, first bit first, filled up
      with zeros behind the end. */
  lemma {:induction false} GroupsAreInOrder(x: seq<Byte>, i: nat)
    requires i < (|x| + 2) / 3
    ensures PlacesNumber(Encode(x), i) == BytesNumber(x, i)
  {
    if i == 0 {
      FirstInOrder(x);
    } else {
      EncodeTail(x);
      hide PlacesNumber, BytesNumber, Encode;
      GroupsAreInOrder(x[3..], i - 1);
      WithoutGroup(Encode(x), i);
      WithoutBytes(x, i);
    }
  }

  /** mod_table: how many '=' there are for a length. */
  function Padding(n: nat): nat {
    if n % 3 == 0 then 0 else 3 - n % 3
  }

  lemma PaddingPeriod(n: nat)
    ensures Padding(n + 3) == Padding(n)
  {
  }

  /** The last p places are padding, and no others. */
  ghost predicate PaddedBy(e: seq<Place>, p: nat) {
    p <= |e| && forall k | 0 <= k < |e| :: e[k].Pad? <==> k >= |e| - p
  }

  lemma Prefixed(g: seq<Place>, e: seq<Place>, p: nat)
    requires PaddedBy(g, 0) && PaddedBy(e, p)
    ensures PaddedBy(g + e, p)
  {
  }

  lemma {:induction false} PaddingAtEnd(x: seq<Byte>)
    ensures PaddedBy(Encode(x), Padding(|x|))
  {
    if |x| == 1 {
      Prefixed(Group(x[0], 0, 0)[..2], [Pad, Pad], 2);
    } else if |x| == 2 {
      Prefixed(Group(x[0], x[1], 0)[..3], [Pad], 1);
    } else if |x| >= 3 {
      PaddingAtEnd(x[3..]);
      PaddingPeriod(|x[3..]|);
      Prefixed(Group(x[0], x[1], x[2]), Encode(x[3..]), Padding(|x|));
    }
  }

  /** base64_decode reads '=' as zero, wherever it stands. */
  function Six(p: Place): Sextet {
    if p.Pad? then 0 else p.v
  }

  /** The three bytes of the first group. */
  function Three(s: seq<Place>): seq<Byte>
    requires |s| >= 4
  {
    [B0(Six(s[0]), Six(s[1])), B1(Six(s[1]), Six(s[2])), B2(Six(s[2]), Six(s[3]))]
  }

  /** All bytes of all groups. */
  function Bytes(s: seq<Place>): (r: seq<Byte>)
    requires |s| % 4 == 0
    ensures |r| == |s| / 4 * 3
  {
    if s == [] then [] else Three(s) + Bytes(s[4..])
  }

  /** The length that base64_decode returns. */
  function DecodedLength(s: seq<Place>): (n: nat)
    requires |s| >= 4
  {
    |s| / 4 * 3 - (if s[|s| - 1].Pad? then 1 else 0) - (if s[|s| - 2].Pad? then 1 else 0)
  }

  /** base64_decode; None is the NULL for a length that is not a multiple of four. */
  function Decode(s: seq<Place>): Option<seq<Byte>>
    requires s != []
  {
    if |s| % 4 != 0 then None else Some(Bytes(s)[..DecodedLength(s)])
  }

  lemma OneGroup(s: seq<Place>)
    requires |s| == 4
    ensures Bytes(s) == Three(s)
  {
    assert Bytes(s[4..]) == [];
  }

  lemma Longer(s: seq<Place>)
    requires |s| % 4 == 0 && |s| > 4
    ensures Decode(s).value == Three(s) + Decode(s[4..]).value
  {
  }

  /** The first group of an encoded text holds the first three bytes. */
  lemma FirstGroup(x: seq<Byte>)
    requires x != []
    ensures Three(Encode(x)) == [x[0], if |x| > 1 then x[1] else 0, if |x| > 2 then x[2] else 0]
  {
    var b, c := if |x| > 1 then x[1] else 0, if |x| > 2 then x[2] else 0;
    BytesBack(x[0], b, c);
    ZeroBytes(b);
  }

  lemma PaddingGivesLength(e: seq<Place>, n: nat)
    requires n > 0 && |e| == 4 * ((n + 2) / 3) && PaddedBy(e, Padding(n))
    ensures DecodedLength(e) == n
  {
  }

  lemma Parts<T>(g: seq<T>, r: seq<T>)
    requires |g| == 4
    ensures (g + r)[..4] == g && (g + r)[4..] == r
  {
  }

  lemma EncodeTail(x: seq<Byte>)
    requires |x| >= 3
    ensures Encode(x)[..4] == Group(x[0], x[1], x[2]) && Encode(x)[4..] == Encode(x[3..])
  {
    Parts(Group(x[0], x[1], x[2]), Encode(x[3..]));
  }

  lemma LongRoundTrip(x: seq<Byte>, e: seq<Place>)
    requires |x| > 3 && |e| > 4 && |e| % 4 == 0
    requires Three(e) == [x[0], x[1], x[2]] && Decode(e[4..]) == Some(x[3..])
    ensures Decode(e) == Some(x)
  {
    Longer(e);
    assert x == [x[0], x[1], x[2]] + x[3..];
  }

  lemma ShortRoundTrip(x: seq<Byte>, e: seq<Place>)
    requires 0 < |x| <= 3 && |e| == 4 && DecodedLength(e) == |x|
    requires Three(e) == [x[0], if |x| > 1 then x[1] else 0, if |x| > 2 then x[2] else 0]
    ensures Decode(e) == Some(x)
  {
    OneGroup(e);
    assert Bytes(e)[..|x|] == x;
  }

  /** Decoding gives back what was encoded. */
  lemma {:induction false} RoundTrip(x: seq<Byte>)
    requires x != []
    ensures Encode(x) != [] && Decode(Encode(x)) == Some(x)
  {
    var e := Encode(x);
    FirstGroup(x);
    PaddingAtEnd(x);
    PaddingGivesLength(e, |x|);
    if |x| <= 3 {
      ShortRoundTrip(x, e);
    } else {
      RoundTrip(x[3..]);
      EncodeTail(x);
      LongRoundTrip(x, e);
    }
  }

  /** Section 3.5 of RFC 4648: '=' only at the end, and the unused bits are zero. */
  predicate Canonical(s: seq<Place>)
    requires |s| % 4 == 0 && s != []
  {
    var n := |s|;
    && (forall k | 0 <= k < n - 2 :: s[k].Bits?)
    && (s[n - 2].Pad? ==> s[n - 1].Pad? && s[n - 3].v & 15 == 0)
    && (s[n - 2].Bits? && s[n - 1].Pad? ==> s[n - 2].v & 3 == 0)
  }

  lemma LastGroup(s: seq<Place>)
    requires |s| == 4
    ensures Encode(Decode(s).value) == s <==> Canonical(s)
  {
    OneGroup(s);
    var p, q, r, t := Six(s[0]), Six(s[1]), Six(s[2]), Six(s[3]);
    SextetsBack(p, q, r, t);
    UnusedBits(p, q, r);
    var e := Encode(Decode(s).value);
    if s[2].Pad? && s[3].Pad? {
      assert e == [Bits(p), Bits(S1(B0(p, q), 0)), Pad, Pad];
    } else if s[2].Pad? || s[3].Pad? {
      assert e == [Bits(p), Bits(q), Bits(S2(B1(q, r), 0)), Pad];
    } else {
      assert e == [Bits(p), Bits(q), Bits(r), Bits(t)];
    }
  }

  /** The first group comes back if it has no padding. */
  lemma GroupBack(s: seq<Place>)
    requires |s| >= 4
    ensures Group(Three(s)[0], Three(s)[1], Three(s)[2]) == s[..4] <==> forall k | 0 <= k < 4 :: s[k].Bits?
  {
    SextetsBack(Six(s[0]), Six(s[1]), Six(s[2]), Six(s[3]));
  }

  lemma CanonicalTail(s: seq<Place>)
    requires |s| > 4 && |s| % 4 == 0
    ensures Canonical(s) <==> (forall k | 0 <= k < 4 :: s[k].Bits?) && Canonical(s[4..])
  {
    var r := s[4..];
    forall k | 4 <= k < |s| ensures r[k - 4] == s[k] {
    }
    assert r[|r| - 1] == s[|s| - 1] && r[|r| - 2] == s[|s| - 2] && r[|r| - 3] == s[|s| - 3];
  }

  lemma Halves(e: seq<Place>, s: seq<Place>)
    requires |e| >= 4 && |s| >= 4
    ensures e == s <==> e[..4] == s[..4] && e[4..] == s[4..]
  {
    assert e == e[..4] + e[4..];
    assert s == s[..4] + s[4..];
  }

  lemma LongerBack(s: seq<Place>)
    requires |s| > 4 && |s| % 4 == 0
    ensures var e := Encode(Decode(s).value);
      && |e| >= 4 && e[..4] == Group(Three(s)[0], Three(s)[1], Three(s)[2])
      && e[4..] == Encode(Decode(s[4..]).value)
  {
    Longer(s);
    var x, y := Decode(s).value, Decode(s[4..]).value;
    assert x[3..] == y;
    EncodeTail(x);
  }

  /** Encoding undoes decoding on exactly the canonical strings. */
  lemma {:induction false} CanonicalExactly(s: seq<Place>)
    requires |s| % 4 == 0 && s != []
    ensures Encode(Decode(s).value) == s <==> Canonical(s)
  {
    if |s| == 4 {
      LastGroup(s);
    } else {
      CanonicalExactly(s[4..]);
      CanonicalTail(s);
      GroupBack(s);
      LongerBack(s);
      Halves(Encode(Decode(s).value), s);
    }
  }

  /** So encoding is a bijection from the non-empty byte strings to the canonical
      strings. */
  lemma Bijection(x: seq<Byte>, y: seq<Byte>, s: seq<Place>)
    requires x != [] && y != []
    ensures Encode(x) == Encode(y) ==> x == y
    ensures |Encode(x)| % 4 == 0 && Encode(x) != [] && Canonical(Encode(x))
    ensures |s| % 4 == 0 && s != [] && Canonical(s) ==> exists z :: z != [] && Encode(z) == s
  {
    RoundTrip(x);
    RoundTrip(y);
    CanonicalExactly(Encode(x));
    if |s| % 4 == 0 && s != [] && Canonical(s) {
      CanonicalExactly(s);
      var z := Decode(s).value;
      assert z != [] && Encode(z) == s;
    }
  }

  // ----- Characters -----

  /** encoding_table. */
  const ENCODING_TABLE: string :=
    "ABCDEFGHIJKLMNOPQRSTUVWXYZ" + "abcdefghijklmnopqrstuvwxyz" + "0123456789+/"

  const PAD: char := '='

  /** The alphabet of Table 1 of RFC 4648, by ranges. */
  function Symbol(v: nat): char
    requires v < 64
  {
    if v < 26 then 'A' + v as char
    else if v < 52 then 'a' + (v - 26) as char
    else if v < 62 then '0' + (v - 52) as char
    else if v == 62 then '+'
    else '/'
  }

  predicate InAlphabet(c: char) {
    'A' <= c <= 'Z' || 'a' <= c <= 'z' || '0' <= c <= '9' || c == '+' || c == '/'
  }

  function Value(c: char): (v: nat)
    requires InAlphabet(c)
    ensures v < 64 && Symbol(v) == c
  {
    if 'A' <= c <= 'Z' then (c - 'A') as int
    else if 'a' <= c <= 'z' then (c - 'a') as int + 26
    else if '0' <= c <= '9' then (c - '0') as int + 52
    else if c == '+' then 62
    else 63
  }

  lemma SymbolHasValue(v: nat)
    requires v < 64
    ensures InAlphabet(Symbol(v)) && Value(Symbol(v)) == v && Symbol(v) != PAD
  {
  }

  /** The written-out table is the alphabet. */
  lemma TableIsAlphabet(v: nat)
    requires v < 64
    ensures |ENCODING_TABLE| == 64 && ENCODING_TABLE[v] == Symbol(v)
  {
    var t := ENCODING_TABLE;
    assert forall i | 0 <= i < 26 :: t[i] as int == 'A' as int + i;
    assert forall i | 26 <= i < 52 :: t[i] as int == 'a' as int + (i - 26);
    assert forall i | 52 <= i < 62 :: t[i] as int == '0' as int + (i - 52);
  }

  ghost predicate Inverts(table: seq<Option<Sextet>>) {
    && |table| == 256
    && forall c: char | c as int < 256 ::
      table[c as int] == if InAlphabet(c) then Some(Value(c) as bv6) else None
  }

  /** build_decoding_table1: the table inverts encoding_table, and leaves every other
      entry unset. */
  method BuildDecodingTable() returns (table: array<Option<Sextet>>)
    ensures fresh(table) && Inverts(table[..])
  {
    table := new Option<Sextet>[256](_ => None);
    for i := 0 to 64
      invariant forall c: char | c as int < 256 ::
        table[c as int] == if InAlphabet(c) && Value(c) < i then Some(Value(c) as bv6) else None
    {
      TableIsAlphabet(i);
      SymbolHasValue(i);
      table[ENCODING_TABLE[i] as int] := Some(i as bv6);
    }
  }

  function Char(p: Place): char {
    if p.Pad? then PAD else Symbol(p.v as int)
  }

  function Parse(c: char): Place
    requires InAlphabet(c) || c == PAD
  {
    if c == PAD then Pad else Bits(Value(c) as bv6)
  }

  lemma PlaceBack(p: Place)
    ensures (InAlphabet(Char(p)) || Char(p) == PAD) && Parse(Char(p)) == p
  {
    if p.Bits? {
      SymbolHasValue(p.v as int);
    }
  }

  lemma CharBack(c: char)
    requires InAlphabet(c) || c == PAD
    ensures Char(Parse(c)) == c
  {
    if c != PAD {
      assert (Value(c) as bv6) as int == Value(c);
    }
  }

  function Text(s: seq<Place>): string {
    seq(|s|, i requires 0 <= i < |s| => Char(s[i]))
  }

  /** What base64_decode can read: symbols, and '=' anywhere. */
  predicate Readable(s: string) {
    forall k | 0 <= k < |s| :: InAlphabet(s[k]) || s[k] == PAD
  }

  function Places(s: string): seq<Place>
    requires Readable(s)
  {
    seq(|s|, i requires 0 <= i < |s| => Parse(s[i]))
  }

  lemma TextPlaces(e: seq<Place>, s: string)
    ensures Readable(Text(e)) && Places(Text(e)) == e
    ensures Readable(s) ==> Text(Places(s)) == s
  {
    forall k | 0 <= k < |e| ensures (InAlphabet(Text(e)[k]) || Text(e)[k] == PAD) && Parse(Text(e)[k]) == e[k] {
      PlaceBack(e[k]);
    }
    if Readable(s) {
      forall k | 0 <= k < |s| ensures Text(Places(s))[k] == s[k] {
        CharBack(s[k]);
      }
    }
  }

  /** The round trip on characters. */
  lemma TextRoundTrip(x: seq<Byte>)
    requires x != []
    ensures var t := Text(Encode(x));
      t != "" && Readable(t) && Places(t) != [] && Decode(Places(t)) == Some(x)
  {
    RoundTrip(x);
    TextPlaces(Encode(x), "");
  }

  /** The test vectors of section 10. */
  lemma TestVectors(f: Byte, o: Byte, b: Byte, a: Byte, r: Byte)
    requires f == 0x66 && o == 0x6F && b == 0x62 && a == 0x61 && r == 0x72
    ensures Text(Encode([])) == "" && Text(Encode([f])) == "Zg==" && Text(Encode([f, o])) == "Zm8="
    ensures Text(Encode([f, o, o])) == "Zm9v" && Text(Encode([f, o, o, b])) == "Zm9vYg=="
    ensures Text(Encode([f, o, o, b, a])) == "Zm9vYmE=" && Text(Encode([f, o, o, b, a, r])) == "Zm9vYmFy"
  {
    assert [f, o, o, b][3..] == [b] && [f, o, o, b, a][3..] == [b, a] && [f, o, o, b, a, r][3..] == [b, a, r];
    assert [b, a, r][3..] == [] && [f, o, o][3..] == [];
  }

  /** And back again, on exactly the canonical texts. */
  lemma CanonicalTextExactly(s: string)
    requires Readable(s) && |s| % 4 == 0 && s != ""
    ensures Text(Encode(Decode(Places(s)).value)) == s <==> Canonical(Places(s))
  {
    var e := Encode(Decode(Places(s)).value);
    CanonicalExactly(Places(s));
    TextPlaces(e, s);
  }
}
