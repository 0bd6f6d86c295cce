/** base64_encode and base64_decode as they run over buffers, with shifts and masks on
    32-bit words, proved to compute the functions of module Base64. */
module Base64Buffers {
  import opened Basics
  import opened Base64

  /** What the first loop of base64_encode writes: missing bytes are read as zero. */
  function Raw(x: seq<Byte>): (e: seq<Place>)
    ensures |e| == 4 * ((|x| + 2) / 3)
    ensures forall k | 0 <= k < |e| :: e[k].Bits?
    decreases |x|
  {
    if x == [] then []
    else Group(x[0], if |x| > 1 then x[1] else 0, if |x| > 2 then x[2] else 0) + Raw(if |x| > 3 then x[3..] else [])
  }

  /** The second loop of base64_encode overwrites the last places. */
  function Overwritten(e: seq<Place>, p: nat): seq<Place>
    requires p <= |e|
  {
    e[..|e| - p] + seq(p, _ => Pad)
  }

  lemma {:induction false} RawOverwritten(x: seq<Byte>)
    ensures Padding(|x|) <= |Raw(x)| && Overwritten(Raw(x), Padding(|x|)) == Encode(x)
  {
    if |x| > 3 {
      RawOverwritten(x[3..]);
      PaddingPeriod(|x[3..]|);
      var g, r, p := Group(x[0], x[1], x[2]), Raw(x[3..]), Padding(|x|);
      assert (g + r)[..|g + r| - p] == g + r[..|r| - p];
    }
  }

  /** (octet_a << 0x10) + (octet_b << 0x08) + octet_c. */
  function Triple(a: Byte, b: Byte, c: Byte): bv32 {
    ((a as bv32) << 16) + ((b as bv32) << 8) + c as bv32
  }

  lemma TripleSextets(a: Byte, b: Byte, c: Byte)
    ensures var t := Triple(a, b, c);
      && (t >> 18) & 0x3F == S0(a) as bv32 && (t >> 12) & 0x3F == S1(a, b) as bv32
      && (t >> 6) & 0x3F == S2(b, c) as bv32 && t & 0x3F == S3(c) as bv32
  {
  }

  /** (sextet_a << 18) + (sextet_b << 12) + (sextet_c << 6) + sextet_d. */
  function Triple4(p: Sextet, q: Sextet, r: Sextet, s: Sextet): bv32 {
    ((p as bv32) << 18) + ((q as bv32) << 12) + ((r as bv32) << 6) + s as bv32
  }

  lemma TripleBytes(p: Sextet, q: Sextet, r: Sextet, s: Sextet)
    ensures var t := Triple4(p, q, r, s);
      && (t >> 16) & 0xFF == B0(p, q) as bv32 && (t >> 8) & 0xFF == B1(q, r) as bv32 && t & 0xFF == B2(r, s) as bv32
  {
  }

  /** encoding_table[(triple >> 6 * k) & 0x3F]. */
  method Lookup(v: bv32) returns (c: char)
    requires v <= 0x3F
    ensures c == Char(Bits(v as bv6))
  {
    TableIsAlphabet(v as bv6 as int);
    c := ENCODING_TABLE[v as bv6 as int];
  }

  /** The four writes of one round of base64_encode. */
  method WriteGroup(encoded: array<char>, j: nat, a: Byte, b: Byte, c: Byte)
    requires j + 4 <= encoded.Length
    modifies encoded
    ensures encoded[..j] == old(encoded[..j])
    ensures encoded[j..j + 4] == Text(Group(a, b, c))
  {
    var triple := Triple(a, b, c);
    TripleSextets(a, b, c);
    encoded[j] := Lookup((triple >> 18) & 0x3F);
    encoded[j + 1] := Lookup((triple >> 12) & 0x3F);
    encoded[j + 2] := Lookup((triple >> 6) & 0x3F);
    encoded[j + 3] := Lookup(triple & 0x3F);
  }

  /** data[i++] three times, with zero behind the end. */
  method ReadThree(data: seq<Byte>, i: nat) returns (a: Byte, b: Byte, c: Byte, next: nat)
    requires i < |data|
    ensures i < next <= |data|
    ensures Raw(data[i..]) == Group(a, b, c) + Raw(data[next..])
  {
    ghost var x := data[i..];
    a, b, c, next := data[i], 0, 0, i + 1;
    if next < |data| {
      b := data[next];
      next := next + 1;
    }
    if next < |data| {
      c := data[next];
      next := next + 1;
    }
    assert data[next..] == if |x| > 3 then x[3..] else [];
  }

  /** The second loop of base64_encode. */
  method WritePadding(encoded: array<char>, length: nat, p: nat)
    requires p <= length < encoded.Length
    modifies encoded
    ensures encoded[..length - p] == old(encoded[..length - p])
    ensures forall k | length - p <= k < length :: encoded[k] == PAD
  {
    for k := 0 to p
      invariant encoded[..length - p] == old(encoded[..length - p])
      invariant forall l | length - k <= l < length :: encoded[l] == PAD
    {
      encoded[length - 1 - k] := PAD;
    }
  }

  /** The first loop of base64_encode. */
  method WriteRaw(data: seq<Byte>, encoded: array<char>)
    requires encoded.Length > 4 * ((|data| + 2) / 3)
    modifies encoded
    ensures encoded[..4 * ((|data| + 2) / 3)] == Text(Raw(data))
  {
    ghost var written: seq<Place> := [];
    var i, j := 0, 0;
    assert data[0..] == data;
    while i < |data|
      invariant 0 <= i <= |data| && j == |written|
      invariant written + Raw(data[i..]) == Raw(data)
      invariant encoded[..j] == Text(written)
    {
      var a, b, c, next := ReadThree(data, i);
      assert written + Raw(data[i..]) == (written + Group(a, b, c)) + Raw(data[next..]);
      WriteGroup(encoded, j, a, b, c);
      Appended(encoded[..], j, written, Group(a, b, c));
      written := written + Group(a, b, c);
      i, j := next, j + 4;
    }
    assert written == Raw(data);
  }

  /** base64_encode: what it leaves in the buffer is RFC 4648's encoding, and a NUL. */
  method EncodeBuffer(data: seq<Byte>) returns (encoded: array<char>)
    ensures fresh(encoded) && encoded.Length == 4 * ((|data| + 2) / 3) + 1
    ensures encoded[..] == Text(Encode(data)) + ['\0']
  {
    var length, p := 4 * ((|data| + 2) / 3), Padding(|data|);
    encoded := new char[length + 1];
    WriteRaw(data, encoded);
    ghost var e := Raw(data);
    RawOverwritten(data);
    assert encoded[..length - p] == encoded[..length][..length - p];
    WritePadding(encoded, length, p);
    encoded[length] := '\0';
    Finished(encoded[..], e, p);
  }

  lemma Finished(s: seq<char>, e: seq<Place>, p: nat)
    requires p <= |e| && |s| == |e| + 1 && s[..|e| - p] == Text(e)[..|e| - p] && s[|e|] == '\0'
    requires forall k | |e| - p <= k < |e| :: s[k] == PAD
    ensures s == Text(Overwritten(e, p)) + ['\0']
  {
    var t := Text(Overwritten(e, p));
    forall k | 0 <= k < |e| ensures s[k] == t[k] {
      assert k < |e| - p ==> s[k] == s[..|e| - p][k];
    }
  }

  lemma Appended(s: seq<char>, j: nat, written: seq<Place>, g: seq<Place>)
    requires j + |g| <= |s| && s[..j] == Text(written) && s[j..j + |g|] == Text(g)
    ensures s[..j + |g|] == Text(written + g)
  {
    assert s[..j + |g|] == s[..j] + s[j..j + |g|];
  }

  /** The three guarded writes of one round of base64_decode. */
  method WriteBytes(decoded: array<Byte>, j: nat, length: nat, x: Byte, y: Byte, z: Byte) returns (k: nat)
    requires j <= length < decoded.Length
    modifies decoded
    ensures k == if j + 3 <= length then j + 3 else length
    ensures decoded[..k] == old(decoded[..j]) + [x, y, z][..k - j]
  {
    k := j;
    if k < length {
      decoded[k] := x;
      k := k + 1;
    }
    if k < length {
      decoded[k] := y;
      k := k + 1;
    }
    if k < length {
      decoded[k] := z;
      k := k + 1;
    }
  }

  ghost predicate ReadsAs(c: char, p: Place) {
    (InAlphabet(c) || c == PAD) && Parse(c) == p
  }

  /** The first n characters of a text stand for these places. */
  ghost predicate Denotes(data: string, s: seq<Place>, n: nat)
    requires n <= |data| && |s| == |data|
  {
    n == 0 || (ReadsAs(data[n - 1], s[n - 1]) && Denotes(data, s, n - 1))
  }

  lemma {:induction false} DenotesAt(data: string, s: seq<Place>, n: nat, i: nat)
    requires i < n <= |data| && |s| == |data| && Denotes(data, s, n)
    ensures ReadsAs(data[i], s[i])
  {
    if i < n - 1 {
      DenotesAt(data, s, n - 1, i);
    }
  }

  lemma {:induction false} PlacesDenote(data: string, n: nat)
    requires Readable(data) && n <= |data|
    ensures Denotes(data, Places(data), n)
  {
    if n > 0 {
      PlacesDenote(data, n - 1);
    }
  }

  /** data[i] == '=' ? 0 : decoding_table[data[i]]. */
  method ReadSextet(table: seq<Option<Sextet>>, data: string, ghost s: seq<Place>, i: nat) returns (v: Sextet)
    requires |s| == |data| && Denotes(data, s, |data|) && Inverts(table) && i < |data|
    ensures v == Six(s[i])
  {
    DenotesAt(data, s, |data|, i);
    if data[i] == PAD {
      v := 0;
    } else {
      v := table[data[i] as int].value;
    }
  }

  /** The four reads and the shifts of one round of base64_decode. */
  method ReadFour(table: seq<Option<Sextet>>, data: string, ghost s: seq<Place>, i: nat)
    returns (x: Byte, y: Byte, z: Byte)
    requires |s| == |data| && Denotes(data, s, |data|) && Inverts(table) && i + 4 <= |data|
    ensures [x, y, z] == Three(s[i..])
  {
    var a := ReadSextet(table, data, s, i);
    var b := ReadSextet(table, data, s, i + 1);
    var c := ReadSextet(table, data, s, i + 2);
    var d := ReadSextet(table, data, s, i + 3);
    var triple := Triple4(a, b, c, d);
    TripleBytes(a, b, c, d);
    x := ((triple >> 16) & 0xFF) as Byte;
    y := ((triple >> 8) & 0xFF) as Byte;
    z := (triple & 0xFF) as Byte;
  }

  /** The g-th three bytes are those of the g-th group. */
  lemma {:induction false} BytesOfGroup(s: seq<Place>, g: nat)
    requires |s| % 4 == 0 && 4 * g < |s|
    ensures Bytes(s)[3 * g..3 * g + 3] == Three(s[4 * g..])
  {
    if g > 0 {
      BytesOfGroup(s[4..], g - 1);
      assert s[4..][4 * (g - 1)..] == s[4 * g..];
      Shifted(Three(s), Bytes(s[4..]), 3 * (g - 1));
    }
  }

  lemma Shifted(g: seq<Byte>, r: seq<Byte>, i: nat)
    requires |g| == 3 && i + 3 <= |r|
    ensures (g + r)[i + 3..i + 6] == r[i..i + 3]
  {
  }

  lemma Extended(all: seq<Byte>, j: nat, k: nat, g: seq<Byte>)
    requires j <= k <= j + 3 <= |all| && g == all[j..j + 3]
    ensures all[..j] + g[..k - j] == all[..k]
  {
  }

  /** The loop of base64_decode. */
  method WriteAll(table: seq<Option<Sextet>>, data: string, ghost s: seq<Place>, decoded: array<Byte>, length: nat)
    requires |s| == |data| && Denotes(data, s, |data|) && Inverts(table)
    requires |data| % 4 == 0 && length < decoded.Length && length <= |data| / 4 * 3
    modifies decoded
    ensures decoded[..length] == Bytes(s)[..length]
  {
    ghost var all := Bytes(s);
    ghost var g := 0;
    var i, j := 0, 0;
    while i < |data|
      invariant 0 <= i == 4 * g <= |data|
      invariant j == Min(3 * g, length) && decoded[..j] == all[..j]
    {
      var x, y, z := ReadFour(table, data, s, i);
      BytesOfGroup(s, g);
      var k := WriteBytes(decoded, j, length, x, y, z);
      if j < length {
        Extended(all, j, k, [x, y, z]);
      }
      i, j, g := i + 4, k, g + 1;
    }
  }

  /** The output length: one byte less for each '=' in the last two places. */
  method OutputLength(data: string, ghost s: seq<Place>) returns (length: nat)
    requires |s| == |data| && Denotes(data, s, |data|) && |data| >= 4
    ensures length == DecodedLength(s)
  {
    DenotesAt(data, s, |data|, |data| - 1);
    DenotesAt(data, s, |data|, |data| - 2);
    length := |data| / 4 * 3;
    if data[|data| - 1] == PAD {
      length := length - 1;
    }
    if data[|data| - 2] == PAD {
      length := length - 1;
    }
  }

  /** base64_decode: no buffer for a length that is not a multiple of four; Decode's
      bytes and a NUL for a text of symbols and '=' that is not empty. */
  method DecodeBuffer(data: string) returns (decoded: array?<Byte>)
    requires |data| % 4 == 0 ==> data != [] && Readable(data)
    ensures |data| % 4 != 0 ==> decoded == null
    ensures |data| % 4 == 0 ==>
      decoded != null && fresh(decoded) && decoded[..] == Decode(Places(data)).value + [0]
  {
    var table := BuildDecodingTable();
    if |data| % 4 != 0 {
      return null;
    }
    hide Decode, Places, Readable;
    ghost var s := Places(data);
    PlacesDenote(data, |data|);
    var length := OutputLength(data, s);
    var out := new Byte[length + 1];
    WriteAll(table[..], data, s, out, length);
    out[length] := 0;
    assert out[..] == out[..length] + [0];
    decoded := out;
  }
}
