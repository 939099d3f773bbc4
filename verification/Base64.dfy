/** base64.cpp: the table-driven decoder, against base64 encoding as section 4 of RFC 4648 defines
    it, with the alphabet of section 5 as the alternative. Bytes are 8-bit vectors and the 24 bits
    of a group are put together with shifts, as in the source. */
module Base64 {
  import opened Machine

  const PAD: Byte := 61
  const CR: Byte := 13
  const LF: Byte := 10

  /** `base64_lut`: the entry of one byte. Besides the two alphabets, ',' and '.' have entries;
      every other byte, '=' included, has 0. */
  function Lut(c: Byte): Byte {
    if c == 43 || c == 45 || c == 46 then 62
    else if c == 44 || c == 47 || c == 95 then 63
    else if 48 <= c <= 57 then c + 4
    else if 65 <= c <= 90 then c - 65
    else if 97 <= c <= 122 then c - 71
    else 0
  }

  predicate IsBreak(c: Byte) {
    c == CR || c == LF
  }

  /** The table entries of four characters, put together to 24 bits. */
  function Combine(c0: Byte, c1: Byte, c2: Byte, c3: Byte): bv32 {
    ((Lut(c0) as bv32) << 18) | ((Lut(c1) as bv32) << 12) | ((Lut(c2) as bv32) << 6) | (Lut(c3) as bv32)
  }

  /** The three bytes the decoder makes of four characters. */
  function DecodeGroup(c0: Byte, c1: Byte, c2: Byte, c3: Byte): (b: seq<Byte>)
    ensures |b| == 3
  {
    var n := Combine(c0, c1, c2, c3);
    [((n >> 16) & 0xFF) as Byte, ((n >> 8) & 0xFF) as Byte, (n & 0xFF) as Byte]
  }

  /** A character of the text, or the terminator behind it, which a C++ string also has. */
  function At(text: seq<Byte>, i: nat): Byte
    requires i <= |text|
  {
    if i < |text| then text[i] else 0
  }

  /** The text from `i` on, nothing if that is behind its end. */
  function From(text: seq<Byte>, i: nat): (t: seq<Byte>)
    ensures |t| == if i <= |text| then |text| - i else 0
  {
    text[Min(i, |text|)..]
  }

  /** Texts on which the decoder reads nothing behind the terminator: outside of line breaks there
      are always four more characters, or three and the terminator. */
  predicate InGroups(text: seq<Byte>) {
    if text == [] then true
    else if IsBreak(text[0]) then InGroups(text[1..])
    else |text| >= 3 && InGroups(From(text, 4))
  }

  function Groups(text: seq<Byte>): nat {
    if text == [] then 0
    else if IsBreak(text[0]) then Groups(text[1..])
    else 1 + Groups(From(text, 4))
  }

  /** What the decoder writes. */
  function Decoded(text: seq<Byte>): (d: seq<Byte>)
    requires InGroups(text)
    ensures |d| == 3 * Groups(text)
  {
    if text == [] then []
    else if IsBreak(text[0]) then Decoded(text[1..])
    else DecodeGroup(text[0], text[1], text[2], At(text, 3)) + Decoded(From(text, 4))
  }

  /** `base64_decode`: one loop over the text, which writes three bytes per group and nothing
      else. The output must have room for whole groups; `decoded_length` is not looked at. */
  method Decode(encoded: seq<Byte>, decoded: array<Byte>, decodedLength: nat)
    requires InGroups(encoded)
    requires 3 * Groups(encoded) <= decoded.Length
    modifies decoded
    ensures decoded[..3 * Groups(encoded)] == Decoded(encoded)
    ensures decoded[3 * Groups(encoded)..] == old(decoded[3 * Groups(encoded)..])
  {
    hide DecodeGroup, Lut, InGroups, Groups, Decoded, IsBreak, From;
    var i, j := 0, 0;
    ghost var size := 3 * Groups(encoded);
    FromEnds(encoded);
    while i < |encoded|
      invariant 0 <= i && 0 <= j
      invariant InGroups(From(encoded, i)) && j + 3 * Groups(From(encoded, i)) == size
      invariant Decoded(encoded) == decoded[..j] + Decoded(From(encoded, i))
      invariant decoded[size..] == old(decoded[size..])
    {
      DecodedAt(encoded, i);
      if IsBreak(encoded[i]) {
        i := i + 1;
        continue;
      }
      ghost var done, rest := decoded[..j], From(encoded, i + 4);
      ghost var group := DecodeGroup(encoded[i], encoded[i + 1], encoded[i + 2], At(encoded, i + 3));
      WriteGroup(encoded, i, decoded, j);
      assert done + (group + Decoded(rest)) == (done + group) + Decoded(rest);
      i, j := i + 4, j + 3;
    }
    assert decoded[..j] + [] == decoded[..j];
  }

  lemma FromEnds(text: seq<Byte>)
    ensures From(text, 0) == text
    ensures forall i: nat :: i >= |text| ==> From(text, i) == []
    ensures InGroups([]) && Groups([]) == 0 && Decoded([]) == []
  {
  }

  /** The part of the loop that handles one group. */
  method WriteGroup(encoded: seq<Byte>, i: nat, decoded: array<Byte>, j: nat)
    requires i + 3 <= |encoded| && j + 3 <= decoded.Length
    modifies decoded
    ensures decoded[..j + 3] ==
            old(decoded[..j]) + DecodeGroup(encoded[i], encoded[i + 1], encoded[i + 2], At(encoded, i + 3))
    ensures forall k :: j + 3 <= k < decoded.Length ==> decoded[k] == old(decoded[k])
  {
    hide Combine;
    var n := Combine(encoded[i], encoded[i + 1], encoded[i + 2], At(encoded, i + 3));
    decoded[j] := ((n >> 16) & 0xFF) as Byte;
    decoded[j + 1] := ((n >> 8) & 0xFF) as Byte;
    decoded[j + 2] := (n & 0xFF) as Byte;
  }

  lemma DecodedAt(text: seq<Byte>, i: nat)
    requires i < |text| && InGroups(From(text, i))
    ensures IsBreak(text[i]) ==>
      var rest := From(text, i + 1);
      InGroups(rest) && Groups(From(text, i)) == Groups(rest) && Decoded(From(text, i)) == Decoded(rest)
    ensures !IsBreak(text[i]) ==>
      var rest := From(text, i + 4);
      && i + 3 <= |text| && InGroups(rest) && Groups(From(text, i)) == 1 + Groups(rest)
      && Decoded(From(text, i)) == DecodeGroup(text[i], text[i + 1], text[i + 2], At(text, i + 3)) + Decoded(rest)
  {
    hide DecodeGroup;
    var left := From(text, i);
    assert left[0] == text[i] && left[1..] == From(text, i + 1);
    if !IsBreak(text[i]) {
      assert left[1] == text[i + 1] && left[2] == text[i + 2] && At(left, 3) == At(text, i + 3);
      assert From(left, 4) == From(text, i + 4);
    }
  }

  // ----- Encoding

  datatype Alphabet = Standard | UrlSafe

  /** The character of a 6-bit value. */
  function Char(v: Byte, a: Alphabet): Byte {
    if v < 26 then v + 65
    else if v < 52 then v + 71
    else if v < 62 then v - 4
    else if v == 62 then (if a.Standard? then 43 else 45)
    else (if a.Standard? then 47 else 95)
  }

  /** Four characters for one to three bytes; missing bytes count as zero bits and are marked by
      padding characters. */
  function EncodeGroup(b: seq<Byte>, a: Alphabet): (g: seq<Byte>)
    requires 1 <= |b| <= 3
    ensures |g| == 4
  {
    var b1: Byte := if |b| > 1 then b[1] else 0;
    var b2: Byte := if |b| > 2 then b[2] else 0;
    [Char(b[0] >> 2, a),
     Char(((b[0] & 3) << 4) | (b1 >> 4), a),
     if |b| > 1 then Char(((b1 & 15) << 2) | (b2 >> 6), a) else PAD,
     if |b| > 2 then Char(b2 & 63, a) else PAD]
  }

  predicate AllBreaks(s: seq<Byte>) {
    forall k :: 0 <= k < |s| ==> s[k] == 13 || s[k] == 10
  }

  /** How many groups `n` bytes are encoded in. */
  function GroupCount(n: nat): nat {
    (n + 2) / 3
  }

  /** Encoding with line breaks put in before each group and at the end. */
  function Encode(bytes: seq<Byte>, breaks: seq<seq<Byte>>, a: Alphabet): seq<Byte>
    requires |breaks| == GroupCount(|bytes|) + 1
    decreases |bytes|
  {
    if bytes == [] then breaks[0]
    else
      var n := if |bytes| < 3 then |bytes| else 3;
      breaks[0] + EncodeGroup(bytes[..n], a) + Encode(bytes[n..], breaks[1..], a)
  }

  /** The number of padding characters, which is the number of bytes missing in the last group. */
  function Padding(n: nat): nat {
    3 * GroupCount(n) - n
  }

  function Zeros(n: nat): (z: seq<Byte>)
    ensures |z| == n && forall k :: 0 <= k < n ==> z[k] == 0
  {
    seq(n, _ => 0)
  }

  const UPPER: string := "ABCDEFGHIJKLMNOPQRSTUVWXYZ"
  const LOWER: string := "abcdefghijklmnopqrstuvwxyz"
  const DIGITS: string := "0123456789"

  lemma UpperCode(k: nat)
    requires k < 26
    ensures UPPER[k] as int == 65 + k
  {
  }

  lemma LowerCode(k: nat)
    requires k < 26
    ensures LOWER[k] as int == 97 + k
  {
  }

  lemma DigitCode(k: nat)
    requires k < 10
    ensures DIGITS[k] as int == 48 + k
  {
  }

  /** The characters are those of sections 4 and 5 of RFC 4648, in their order. */
  lemma AlphabetTable(v: Byte, a: Alphabet)
    requires v < 64
    ensures v < 26 ==> Char(v, a) as int == UPPER[v as int] as int
    ensures 26 <= v < 52 ==> Char(v, a) as int == LOWER[(v - 26) as int] as int
    ensures 52 <= v < 62 ==> Char(v, a) as int == DIGITS[(v - 52) as int] as int
    ensures v == 62 ==> Char(v, a) as int == (if a.Standard? then '+' else '-') as int
    ensures v == 63 ==> Char(v, a) as int == (if a.Standard? then '/' else '_') as int
  {
    if v < 26 { UpperCode(v as int); }
    if 26 <= v < 52 { LowerCode((v - 26) as int); }
    if 52 <= v < 62 { DigitCode((v - 52) as int); }
  }

  /** The table has their values, besides them only ',' and '.', and 0 for any other byte. */
  lemma TableOf(c: Byte)
    ensures Lut(',' as Byte) == 63 && Lut('.' as Byte) == 62
    ensures c != 44 && c != 46 ==> Lut(c) == 0 || Char(Lut(c), Standard) == c || Char(Lut(c), UrlSafe) == c
  {
  }

  lemma CharIsReadBack(v: Byte, a: Alphabet)
    requires v < 64
    ensures Lut(Char(v, a)) == v && !IsBreak(Char(v, a)) && Char(v, a) != PAD
  {
  }

  lemma PaddingIsZero()
    ensures Lut(PAD) == 0
  {
  }

  /** Splitting 24 bits into four sextets and putting them together again. */
  lemma SextetsRoundTrip(b0: Byte, b1: Byte, b2: Byte)
    ensures var v0 := b0 >> 2;
            var v1 := ((b0 & 3) << 4) | (b1 >> 4);
            var v2 := ((b1 & 15) << 2) | (b2 >> 6);
            var v3 := b2 & 63;
            var n := ((v0 as bv32) << 18) | ((v1 as bv32) << 12) | ((v2 as bv32) << 6) | (v3 as bv32);
            && ((n >> 16) & 0xFF) as Byte == b0 && ((n >> 8) & 0xFF) as Byte == b1 && (n & 0xFF) as Byte == b2
  {
  }

  lemma SextetsAreSmall(b0: Byte, b1: Byte, b2: Byte)
    ensures b0 >> 2 < 64 && ((b0 & 3) << 4) | (b1 >> 4) < 64 && ((b1 & 15) << 2) | (b2 >> 6) < 64 && b2 & 63 < 64
    ensures b2 == 0 ==> b2 & 63 == 0
    ensures b1 == 0 && b2 == 0 ==> ((b1 & 15) << 2) | (b2 >> 6) == 0
  {
  }

  /** What the table makes of the four characters of a group: the sextets of the bytes, a missing
      byte counting as zero. */
  lemma GroupEntries(b: seq<Byte>, a: Alphabet)
    requires 1 <= |b| <= 3
    ensures var g := EncodeGroup(b, a);
            var b1: Byte := if |b| > 1 then b[1] else 0;
            var b2: Byte := if |b| > 2 then b[2] else 0;
            && !IsBreak(g[0])
            && Lut(g[0]) == b[0] >> 2 && Lut(g[1]) == ((b[0] & 3) << 4) | (b1 >> 4)
            && Lut(g[2]) == ((b1 & 15) << 2) | (b2 >> 6) && Lut(g[3]) == b2 & 63
  {
    var b1: Byte := if |b| > 1 then b[1] else 0;
    var b2: Byte := if |b| > 2 then b[2] else 0;
    SextetsAreSmall(b[0], b1, b2);
    CharIsReadBack(b[0] >> 2, a);
    CharIsReadBack(((b[0] & 3) << 4) | (b1 >> 4), a);
    CharIsReadBack(((b1 & 15) << 2) | (b2 >> 6), a);
    CharIsReadBack(b2 & 63, a);
    PaddingIsZero();
    hide Lut, Char, IsBreak;
  }

  /** One group is decoded to its bytes and one zero for every padding character. */
  lemma GroupRoundTrip(b: seq<Byte>, a: Alphabet)
    requires 1 <= |b| <= 3
    ensures var g := EncodeGroup(b, a);
            && !IsBreak(g[0])
            && DecodeGroup(g[0], g[1], g[2], g[3]) == b + Zeros(3 - |b|)
  {
    var b1: Byte := if |b| > 1 then b[1] else 0;
    var b2: Byte := if |b| > 2 then b[2] else 0;
    GroupEntries(b, a);
    SextetsRoundTrip(b[0], b1, b2);
    hide Lut, EncodeGroup;
    assert b + Zeros(3 - |b|) == [b[0], b1, b2];
  }

  /** Line breaks in front of a text make no difference to the decoder. */
  lemma {:induction false} BreaksAreSkipped(breaks: seq<Byte>, text: seq<Byte>)
    requires AllBreaks(breaks)
    ensures InGroups(breaks + text) == InGroups(text) && Groups(breaks + text) == Groups(text)
    ensures InGroups(text) ==> Decoded(breaks + text) == Decoded(text)
  {
    if breaks == [] {
      assert breaks + text == text;
    } else {
      assert (breaks + text)[1..] == breaks[1..] + text && (breaks + text)[0] == breaks[0];
      BreaksAreSkipped(breaks[1..], text);
    }
  }

  lemma GroupIsDecoded(b: seq<Byte>, a: Alphabet, text: seq<Byte>)
    requires 1 <= |b| <= 3
    ensures var g := EncodeGroup(b, a);
            && InGroups(g + text) == InGroups(text) && Groups(g + text) == 1 + Groups(text)
            && (InGroups(text) ==> Decoded(g + text) == b + Zeros(3 - |b|) + Decoded(text))
  {
    GroupRoundTrip(b, a);
    var g := EncodeGroup(b, a);
    hide EncodeGroup, DecodeGroup;
    assert (g + text)[4..] == text;
    assert (g + text)[0] == g[0] && (g + text)[1] == g[1] && (g + text)[2] == g[2] && (g + text)[3] == g[3];
  }

  /** The text `t` decodes, in `groups` groups, to `d`. */
  predicate DecodesTo(t: seq<Byte>, groups: nat, d: seq<Byte>) {
    InGroups(t) && Groups(t) == groups && Decoded(t) == d
  }

  lemma EmptyDecodes(breaks: seq<Byte>)
    requires AllBreaks(breaks)
    ensures DecodesTo(breaks, 0, [])
  {
    BreaksAreSkipped(breaks, []);
    assert breaks + [] == breaks;
  }

  lemma GroupDecodes(breaks: seq<Byte>, b: seq<Byte>, a: Alphabet, tail: seq<Byte>, groups: nat, d: seq<Byte>)
    requires AllBreaks(breaks) && 1 <= |b| <= 3 && DecodesTo(tail, groups, d)
    ensures DecodesTo(breaks + EncodeGroup(b, a) + tail, groups + 1, b + Zeros(3 - |b|) + d)
  {
    var group := EncodeGroup(b, a);
    GroupIsDecoded(b, a, tail);
    BreaksAreSkipped(breaks, group + tail);
    hide EncodeGroup, Decoded, InGroups, Groups;
    assert breaks + group + tail == breaks + (group + tail);
  }

  /** Decoding inverts encoding: the decoder stays inside the text, and writes the bytes followed
      by one zero for every padding character, three bytes per group in all. */
  lemma {:induction false} DecodeInvertsEncode(bytes: seq<Byte>, breaks: seq<seq<Byte>>, a: Alphabet)
    requires |breaks| == GroupCount(|bytes|) + 1
    requires forall k :: 0 <= k < |breaks| ==> AllBreaks(breaks[k])
    ensures DecodesTo(Encode(bytes, breaks, a), GroupCount(|bytes|), bytes + Zeros(Padding(|bytes|)))
    decreases |bytes|
  {
    hide AllBreaks, EncodeGroup, DecodesTo, GroupCount, Padding, Zeros;
    GroupCounts(|bytes|);
    if bytes == [] {
      EmptyDecodes(breaks[0]);
      assert [] + Zeros(0) == [];
    } else {
      var n := if |bytes| < 3 then |bytes| else 3;
      var first, others := bytes[..n], bytes[n..];
      DecodeInvertsEncode(others, breaks[1..], a);
      GroupDecodes(breaks[0], first, a, Encode(others, breaks[1..], a), GroupCount(|others|),
                   others + Zeros(Padding(|others|)));
      var zeros := Zeros(Padding(|bytes|));
      if n < 3 {
        assert first == bytes && others == [];
        JoinLast(bytes, zeros, others + Zeros(0));
      } else {
        assert first + others == bytes;
        JoinMore(first, Zeros(0), others, zeros);
      }
    }
  }

  /** The caller makes room for as many whole floats as the decoded bytes fill, which is enough for
      what the decoder writes exactly when their number is a multiple of 12. */
  lemma CallerRoomExactlyWhen(bytes: seq<Byte>, breaks: seq<seq<Byte>>, a: Alphabet)
    requires |breaks| == GroupCount(|bytes|) + 1
    requires forall k :: 0 <= k < |breaks| ==> AllBreaks(breaks[k])
    ensures 3 * Groups(Encode(bytes, breaks, a)) <= 4 * (|bytes| / 4) <==> |bytes| % 12 == 0
  {
    hide AllBreaks, Encode;
    DecodeInvertsEncode(bytes, breaks, a);
    RoundedUpAndDown(|bytes|);
  }

  lemma RoundedUpAndDown(n: nat)
    ensures 3 * GroupCount(n) <= 4 * (n / 4) <==> n % 12 == 0
  {
    var q, r := n / 12, n % 12;
    assert n == 12 * q + r;
    assert n / 4 == 3 * q + r / 4 && (n + 2) / 3 == 4 * q + (r + 2) / 3;
  }

  lemma JoinLast(b: seq<Byte>, zeros: seq<Byte>, none: seq<Byte>)
    requires none == []
    ensures b + zeros + none == b + zeros
  {
  }

  lemma JoinMore(first: seq<Byte>, none: seq<Byte>, others: seq<Byte>, zeros: seq<Byte>)
    requires none == []
    ensures first + none + (others + zeros) == first + others + zeros
  {
  }

  lemma GroupCounts(n: nat)
    ensures n >= 3 ==> GroupCount(n) == 1 + GroupCount(n - 3) && Padding(n) == Padding(n - 3)
    ensures 0 < n < 3 ==> GroupCount(n) == 1 && Padding(n) == 3 - n
    ensures GroupCount(0) == 0 && Padding(0) == 0
  {
  }
}
