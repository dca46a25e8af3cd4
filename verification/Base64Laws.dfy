/** The two routines undo each other, and keep the bits: section 4 of RFC 4648. */
module Base64Laws {
  import opened Base64

  // ---------- shape of the encoding ----------

  lemma {:induction false} SextetCount(bytes: seq<bv8>)
    ensures |ToSextets(bytes)| == |bytes| + (|bytes| + 2) / 3
    decreases |bytes|
  {
    if |bytes| >= 3 {
      SextetCount(bytes[3..]);
    }
  }

  /** Four characters for every three bytes begun; the last group is padded to four. */
  lemma {:induction false} EncodedLength(bytes: seq<bv8>)
    ensures |Encode(bytes)| == 4 * ((|bytes| + 2) / 3)
  {
    hide ToSextets, Letter;
    SextetCount(bytes);
    assert |Encode(bytes)| == |ToSextets(bytes)| + |Padding(|bytes|)|;
    PaddedLength(|bytes|);
  }

  lemma PaddedLength(n: nat)
    ensures n + (n + 2) / 3 + |Padding(n)| == 4 * ((n + 2) / 3)
  {
  }

  lemma ToSextetsCons(bytes: seq<bv8>)
    requires |bytes| >= 3
    ensures ToSextets(bytes) == Split(bytes[0], bytes[1], bytes[2]) + ToSextets(bytes[3..])
  {
  }

  lemma FromSextetsCons(t: seq<bv8>)
    requires |t| >= 4
    ensures FromSextets(t) == Join(t[0], t[1], t[2], t[3]) + FromSextets(t[4..])
  {
  }

  function Split(a: bv8, b: bv8, c: bv8): (four: seq<bv8>)
    ensures |four| == 4
  {
    [Sextet0(a), Sextet1(a, b), Sextet2(b, c), Sextet3(c)]
  }

  function Join(p: bv8, q: bv8, r: bv8, s: bv8): (three: seq<bv8>)
    ensures |three| == 3
  {
    [Byte0(p, q), Byte1(q, r), Byte2(r, s)]
  }

  lemma {:induction false} ReadSpelled(t: seq<bv8>)
    requires forall k :: 0 <= k < |t| ==> t[k] < 64
    ensures Read(Spell(t)) == t && forall k :: 0 <= k < |t| ==> IsBase64(Spell(t)[k])
  {
    forall k | 0 <= k < |t| ensures Lookup(Spell(t)[k]) == t[k] && IsBase64(Spell(t)[k]) {
      LookupLetter(t[k]);
    }
  }

  lemma {:induction false} PrefixIs(s: string, from: nat, n: nat)
    requires from <= n <= |s| && (forall k :: from <= k < n ==> IsBase64(s[k])) && (n < |s| ==> !IsBase64(s[n]))
    ensures PrefixLength(s, from) == n
    decreases n - from
  {
    if from < n {
      PrefixIs(s, from + 1, n);
    }
  }

  /** The letters of an encoding are its longest alphabet prefix: the padding is not in the alphabet. */
  lemma {:induction false} EncodedPrefix(bytes: seq<bv8>)
    ensures PrefixLength(Encode(bytes), 0) == |ToSextets(bytes)|
    ensures Encode(bytes)[..|ToSextets(bytes)|] == Spell(ToSextets(bytes))
  {
    var t := ToSextets(bytes);
    ReadSpelled(t);
    var s := Encode(bytes);
    assert forall k :: 0 <= k < |t| ==> s[k] == Spell(t)[k];
    assert |t| < |s| ==> s[|t|] == '=';
    PrefixIs(s, 0, |t|);
  }

  // ---------- decoding undoes encoding ----------

  lemma GroupRoundTrip(a: bv8, b: bv8, c: bv8)
    ensures Byte0(Sextet0(a), Sextet1(a, b)) == a
    ensures Byte1(Sextet1(a, b), Sextet2(b, c)) == b
    ensures Byte2(Sextet2(b, c), Sextet3(c)) == c
  {
  }

  lemma {:induction false} SextetsRoundTrip(bytes: seq<bv8>)
    ensures FromSextets(ToSextets(bytes)) == bytes
    decreases |bytes|
  {
    var n := |bytes|;
    if n > 0 {
      GroupRoundTrip(bytes[0], if n > 1 then bytes[1] else 0, if n > 2 then bytes[2] else 0);
    }
    if n >= 3 {
      SextetsRoundTrip(bytes[3..]);
      assert ToSextets(bytes)[4..] == ToSextets(bytes[3..]);
    }
  }

  /** Every byte sequence is recovered from its encoding. */
  lemma {:induction false} DecodeEncode(bytes: seq<bv8>)
    ensures Decode(Encode(bytes)) == bytes
  {
    EncodedPrefix(bytes);
    ReadSpelled(ToSextets(bytes));
    SextetsRoundTrip(bytes);
  }

  // ---------- encoding undoes decoding exactly on canonical encodings ----------

  /** Section 3.5 of RFC 4648: full groups, the right padding, and zeros in the bits that stand for no byte. */
  predicate Canonical(s: string) {
    var p := PrefixLength(s, 0);
    && |s| % 4 == 0
    && (match p % 4
        case 0 => s[p..] == ""
        case 1 => false
        case 2 => s[p..] == "==" && Lookup(s[p - 1]) & 0x0f == 0
        case _ => s[p..] == "=" && Lookup(s[p - 1]) & 0x03 == 0)
  }

  lemma GroupRoundTripBack(p: bv8, q: bv8, r: bv8, s: bv8)
    requires p < 64 && q < 64 && r < 64 && s < 64
    ensures Sextet0(Byte0(p, q)) == p
    ensures Sextet1(Byte0(p, q), Byte1(q, r)) == q
    ensures Sextet2(Byte1(q, r), Byte2(r, s)) == r
    ensures Sextet3(Byte2(r, s)) == s
  {
  }

  lemma TailRoundTripBack(p: bv8, q: bv8, r: bv8)
    requires p < 64 && q < 64 && r < 64
    ensures Sextet0(Byte0(p, q)) == p
    ensures q & 0x0f == 0 ==> Sextet1(Byte0(p, q), 0) == q
    ensures Sextet1(Byte0(p, q), Byte1(q, r)) == q
    ensures r & 0x03 == 0 ==> Sextet2(Byte1(q, r), 0) == r
  {
  }

  /** The bits beyond the last whole byte are zero. */
  predicate ZeroTail(t: seq<bv8>) {
    && |t| % 4 != 1
    && (|t| % 4 == 2 ==> t[|t| - 1] & 0x0f == 0)
    && (|t| % 4 == 3 ==> t[|t| - 1] & 0x03 == 0)
  }

  predicate AllSextets(t: seq<bv8>) {
    forall k :: 0 <= k < |t| ==> t[k] < 64
  }

  lemma DropGroup(t: seq<bv8>)
    requires |t| >= 4 && AllSextets(t) && ZeroTail(t)
    ensures AllSextets(t[4..]) && ZeroTail(t[4..]) && t == [t[0], t[1], t[2], t[3]] + t[4..]
    ensures t[0] < 64 && t[1] < 64 && t[2] < 64 && t[3] < 64
  {
  }

  lemma SplitJoined(p: bv8, q: bv8, r: bv8, s: bv8)
    requires p < 64 && q < 64 && r < 64 && s < 64
    ensures var three := Join(p, q, r, s); Split(three[0], three[1], three[2]) == [p, q, r, s]
  {
    GroupRoundTripBack(p, q, r, s);
  }

  lemma LastGroupRoundTripBack(t: seq<bv8>)
    requires |t| < 4 && AllSextets(t) && ZeroTail(t)
    ensures ToSextets(FromSextets(t)) == t
    ensures |FromSextets(t)| % 3 == (if |t| % 4 == 0 then 0 else |t| % 4 - 1)
  {
    if |t| >= 2 {
      TailRoundTripBack(t[0], t[1], if |t| == 3 then t[2] else 0);
    }
  }

  lemma {:induction false} SextetsRoundTripBack(t: seq<bv8>)
    requires AllSextets(t) && ZeroTail(t)
    ensures ToSextets(FromSextets(t)) == t
    ensures |FromSextets(t)| % 3 == (if |t| % 4 == 0 then 0 else |t| % 4 - 1)
    decreases |t|
  {
    hide *;
    if |t| >= 4 {
      DropGroup(t);
      SextetsRoundTripBack(t[4..]);
      FromSextetsCons(t);
      var three, rest := Join(t[0], t[1], t[2], t[3]), FromSextets(t[4..]);
      assert (three + rest)[3..] == rest;
      ToSextetsCons(three + rest);
      SplitJoined(t[0], t[1], t[2], t[3]);
    } else {
      LastGroupRoundTripBack(t);
    }
  }

  lemma {:induction false} EncodedTail(bytes: seq<bv8>)
    ensures ZeroTail(ToSextets(bytes))
    ensures |ToSextets(bytes)| % 4 == (if |bytes| % 3 == 0 then 0 else |bytes| % 3 + 1)
    decreases |bytes|
  {
    hide Sextet0, Sextet1, Sextet2, Sextet3;
    if |bytes| >= 3 {
      EncodedTail(bytes[3..]);
      ZeroTailAppend(Split(bytes[0], bytes[1], bytes[2]), ToSextets(bytes[3..]));
      ToSextetsCons(bytes);
    } else if |bytes| > 0 {
      TailBits(bytes[0], bytes[|bytes| - 1]);
    }
  }

  lemma ZeroTailAppend(four: seq<bv8>, t: seq<bv8>)
    requires |four| == 4 && ZeroTail(t)
    ensures ZeroTail(four + t) && |four + t| % 4 == |t| % 4
  {
  }

  lemma TailBits(a: bv8, b: bv8)
    ensures Sextet1(a, 0) & 0x0f == 0 && Sextet2(b, 0) & 0x03 == 0
  {
  }

  lemma {:induction false} EncodedIsCanonical(bytes: seq<bv8>)
    ensures Canonical(Encode(bytes))
  {
    hide Lookup, Letter, IsBase64, ToSextets, PrefixLength, Spell;
    var s, t := Encode(bytes), ToSextets(bytes);
    EncodedPrefix(bytes);
    EncodedTail(bytes);
    EncodedLength(bytes);
    assert s[|t|..] == Padding(|bytes|);
    if t != [] {
      ReadSpelled(t);
      assert s[|t| - 1] == Spell(t)[|t| - 1];
      LookupLetter(t[|t| - 1]);
    }
  }

  lemma ReadPrefix(s: string, p: nat)
    requires p <= |s| && forall k :: 0 <= k < p ==> IsBase64(s[k])
    ensures |Read(s[..p])| == p && AllSextets(Read(s[..p])) && Spell(Read(s[..p])) == s[..p]
  {
    forall k | 0 <= k < p ensures Lookup(s[k]) < 64 && Letter(Lookup(s[k])) == s[k] {
      LetterLookup(s[k]);
    }
    assert Spell(Read(s[..p])) == s[..p];
  }

  lemma {:induction false} CanonicalIsPadded(s: string)
    requires Canonical(s)
    ensures var p := PrefixLength(s, 0);
      ZeroTail(Read(s[..p])) && s[p..] == Padding(if p % 4 == 0 then 0 else p % 4 - 1)
        && Decode(s) == FromSextets(Read(s[..p]))
  {
    hide Lookup, IsBase64, FromSextets, PrefixLength;
  }

  lemma PaddingModulo(m: nat, n: nat)
    requires m % 3 == n
    ensures Padding(m) == Padding(n)
  {
  }

  lemma EncodeIs(bytes: seq<bv8>, t: seq<bv8>)
    requires ToSextets(bytes) == t
    ensures AllSextets(t) && Encode(bytes) == Spell(t) + Padding(|bytes|)
  {
  }

  lemma {:induction false} CanonicalIsEncoded(s: string)
    requires Canonical(s)
    ensures Encode(Decode(s)) == s
  {
    hide *;
    var p := PrefixLength(s, 0);
    var t := Read(s[..p]);
    PrefixIsLongest(s, 0);
    ReadPrefix(s, p);
    CanonicalIsPadded(s);
    SextetsRoundTripBack(t);
    PaddingModulo(|FromSextets(t)|, if p % 4 == 0 then 0 else p % 4 - 1);
    EncodeIs(Decode(s), t);
    assert s == s[..p] + s[p..];
  }

  /** Encoding restores exactly the canonical encodings. */
  lemma {:induction false} EncodeDecodeExactly(s: string)
    ensures Encode(Decode(s)) == s <==> Canonical(s)
  {
    if Canonical(s) {
      CanonicalIsEncoded(s);
    }
    EncodedIsCanonical(Decode(s));
  }

  /** Whatever follows the longest prefix of alphabet characters is ignored. */
  lemma {:induction false} DecodeReadsPrefix(s: string, r: string)
    requires r != "" ==> !IsBase64(r[0])
    ensures var p := s[..PrefixLength(s, 0)]; Decode(p + r) == Decode(s)
  {
    var p := s[..PrefixLength(s, 0)];
    PrefixIsLongest(s, 0);
    PrefixIs(p + r, 0, |p|);
    assert (p + r)[..|p|] == p;
  }

  // ---------- the bits ----------

  /** The bits of a byte and of a 6-bit group, most significant first. */
  function BitOfByte(x: bv8, i: nat): bool
    requires i < 8
  {
    x & (if i == 0 then 0x80 else if i == 1 then 0x40 else MaskOfSextet(i - 2)) != 0
  }

  function BitOfSextet(x: bv8, i: nat): bool
    requires i < 6
  {
    x & MaskOfSextet(i) != 0
  }

  function MaskOfSextet(i: nat): bv8
    requires i < 6
  {
    if i == 0 then 0x20 else if i == 1 then 0x10 else if i == 2 then 0x08
    else if i == 3 then 0x04 else if i == 4 then 0x02 else 0x01
  }

  function ByteBit(bytes: seq<bv8>, i: nat): bool
    requires i < 8 * |bytes|
  {
    BitOfByte(bytes[i / 8], i % 8)
  }

  function SextetBit(t: seq<bv8>, i: nat): bool
    requires i < 6 * |t|
  {
    BitOfSextet(t[i / 6], i % 6)
  }

  lemma GroupBit(a: bv8, b: bv8, c: bv8, k: nat)
    requires k < 6
    ensures BitOfSextet(Sextet0(a), k) == BitOfByte(a, k)
    ensures BitOfSextet(Sextet1(a, b), k) == if k < 2 then BitOfByte(a, k + 6) else BitOfByte(b, k - 2)
    ensures BitOfSextet(Sextet2(b, c), k) == if k < 4 then BitOfByte(b, k + 4) else BitOfByte(c, k - 4)
    ensures BitOfSextet(Sextet3(c), k) == BitOfByte(c, k + 2)
  {
  }

  lemma {:induction false} SplitBit(a: bv8, b: bv8, c: bv8, i: nat)
    requires i < 24
    ensures SextetBit(Split(a, b, c), i) == ByteBit([a, b, c], i)
  {
    hide BitOfSextet, BitOfByte, Sextet0, Sextet1, Sextet2, Sextet3;
    GroupBit(a, b, c, i % 6);
    assert i % 8 ==
      if i < 6 then i % 6 else if i < 8 then i % 6 + 6 else if i < 12 then i % 6 - 2
      else if i < 16 then i % 6 + 4 else if i < 18 then i % 6 - 4 else i % 6 + 2;
  }

  lemma SextetBitAppend(s: seq<bv8>, t: seq<bv8>, i: nat)
    requires i < 6 * |s + t|
    ensures SextetBit(s + t, i) == if i < 6 * |s| then SextetBit(s, i) else SextetBit(t, i - 6 * |s|)
  {
    hide BitOfSextet;
  }

  lemma ByteBitAppend(s: seq<bv8>, t: seq<bv8>, i: nat)
    requires i < 8 * |s + t|
    ensures ByteBit(s + t, i) == if i < 8 * |s| then ByteBit(s, i) else ByteBit(t, i - 8 * |s|)
  {
    hide BitOfByte;
  }

  lemma ZeroBits(i: nat)
    requires i < 16
    ensures !ByteBit([0, 0], i)
  {
  }

  /** The last group is split as if zero bytes followed. */
  lemma LastSplit(bytes: seq<bv8>)
    requires 1 <= |bytes| <= 2
    ensures Split(bytes[0], if |bytes| == 2 then bytes[1] else 0, 0)[..|bytes| + 1] == ToSextets(bytes)
  {
  }

  lemma LastGroupKeepsBits(bytes: seq<bv8>, i: nat)
    requires 1 <= |bytes| <= 2 && i < 6 * |ToSextets(bytes)|
    ensures SextetBit(ToSextets(bytes), i) == (i < 8 * |bytes| && ByteBit(bytes, i))
  {
    hide *;
    var b: bv8 := if |bytes| == 2 then bytes[1] else 0;
    var four := Split(bytes[0], b, 0);
    LastSplit(bytes);
    assert four == ToSextets(bytes) + four[|bytes| + 1..];
    SextetBitAppend(ToSextets(bytes), four[|bytes| + 1..], i);
    SplitBit(bytes[0], b, 0, i);
    var zeros: seq<bv8> := if |bytes| == 2 then [0] else [0, 0];
    assert [bytes[0], b, 0] == bytes + zeros;
    ByteBitAppend(bytes, zeros, i);
    if i >= 8 * |bytes| {
      ZeroBits(i - 8 * |bytes|);
      assert [0 as bv8, 0] == zeros + if |bytes| == 2 then [0] else [];
      ByteBitAppend(zeros, if |bytes| == 2 then [0] else [], i - 8 * |bytes|);
    }
  }

  /** The letters of an encoding spell the bits of the bytes in order, filled up with zero bits. */
  lemma {:induction false} EncodeKeepsBits(bytes: seq<bv8>, i: nat)
    requires i < 6 * |ToSextets(bytes)|
    ensures SextetBit(ToSextets(bytes), i) == (i < 8 * |bytes| && ByteBit(bytes, i))
    decreases |bytes|
  {
    hide *;
    SextetCount(bytes);
    if 1 <= |bytes| <= 2 {
      LastGroupKeepsBits(bytes, i);
    } else {
      ToSextetsCons(bytes);
      var four, three, rest := Split(bytes[0], bytes[1], bytes[2]), bytes[..3], bytes[3..];
      assert three == [bytes[0], bytes[1], bytes[2]] && bytes == three + rest;
      SextetBitAppend(four, ToSextets(rest), i);
      if i < 24 {
        SplitBit(bytes[0], bytes[1], bytes[2], i);
        ByteBitAppend(three, rest, i);
      } else {
        EncodeKeepsBits(rest, i - 24);
        if i < 8 * |bytes| {
          ByteBitAppend(three, rest, i);
        }
      }
    }
  }

  // ---------- the bits of a decoding ----------

  lemma JoinedBit(p: bv8, q: bv8, r: bv8, s: bv8, k: nat)
    requires p < 64 && s < 64 && k < 8
    ensures BitOfByte(Byte0(p, q), k) == if k < 6 then BitOfSextet(p, k) else BitOfSextet(q, k - 6)
    ensures BitOfByte(Byte1(q, r), k) == if k < 4 then BitOfSextet(q, k + 2) else BitOfSextet(r, k - 4)
    ensures BitOfByte(Byte2(r, s), k) == if k < 2 then BitOfSextet(r, k + 4) else BitOfSextet(s, k - 2)
  {
  }

  lemma {:induction false} JoinBit(p: bv8, q: bv8, r: bv8, s: bv8, i: nat)
    requires p < 64 && s < 64 && i < 24
    ensures ByteBit(Join(p, q, r, s), i) == SextetBit([p, q, r, s], i)
  {
    hide BitOfSextet, BitOfByte, Byte0, Byte1, Byte2;
    JoinedBit(p, q, r, s, i % 8);
    assert i % 6 ==
      if i < 6 then i % 8 else if i < 8 then i % 8 - 6 else if i < 12 then i % 8 + 2
      else if i < 16 then i % 8 - 4 else if i < 18 then i % 8 + 4 else i % 8 - 2;
  }

  /** The last group is joined as if zero groups followed, of which no whole byte depends on them. */
  lemma LastJoin(t: seq<bv8>)
    requires 2 <= |t| <= 3
    ensures FromSextets(t) == Join(t[0], t[1], if |t| == 3 then t[2] else 0, 0)[..|t| - 1]
  {
  }

  lemma {:induction false} LastJoinKeepsBits(t: seq<bv8>, i: nat)
    requires 2 <= |t| <= 3 && AllSextets(t) && i < 8 * (|t| - 1)
    ensures |FromSextets(t)| == |t| - 1 && ByteBit(FromSextets(t), i) == SextetBit(t, i)
  {
    hide *;
    var r: bv8 := if |t| == 3 then t[2] else 0;
    var three := Join(t[0], t[1], r, 0);
    LastJoin(t);
    FirstIsSmall(t);
    JoinBit(t[0], t[1], r, 0, i);
    assert three == FromSextets(t) + three[|t| - 1..];
    ByteBitAppend(FromSextets(t), three[|t| - 1..], i);
    var zeros: seq<bv8> := if |t| == 3 then [0] else [0, 0];
    assert [t[0], t[1], r, 0] == t + zeros;
    SextetBitAppend(t, zeros, i);
  }

  lemma FirstIsSmall(t: seq<bv8>)
    requires AllSextets(t) && t != []
    ensures t[0] < 64
  {
  }

  lemma {:induction false} FromSextetsKeepsBits(t: seq<bv8>, i: nat)
    requires AllSextets(t)
    ensures |FromSextets(t)| == 6 * |t| / 8
    ensures i < 8 * |FromSextets(t)| ==> ByteBit(FromSextets(t), i) == SextetBit(t, i)
    decreases |t|
  {
    hide ByteBit, SextetBit, Join;
    if |t| >= 4 {
      var four, rest := t[..4], t[4..];
      FromSextetsCons(t);
      var three := Join(t[0], t[1], t[2], t[3]);
      FromSextetsKeepsBits(rest, if i < 24 then 0 else i - 24);
      assert four == [t[0], t[1], t[2], t[3]] && t == four + rest;
      if i < 8 * |FromSextets(t)| {
        ByteBitAppend(three, FromSextets(rest), i);
        SextetBitAppend(four, rest, i);
        if i < 24 {
          JoinBit(t[0], t[1], t[2], t[3], i);
        }
      }
    } else if |t| >= 2 {
      LastJoinKeepsBits(t, if i < 8 * (|t| - 1) then i else 0);
    }
  }

  /**
    Of any string, canonical or not, decoding gives the whole bytes spelled by the longest prefix of alphabet
    characters, bit by bit: six bits a character, and the bits after the last whole byte are dropped.
   */
  lemma {:induction false} DecodeKeepsBits(s: string, i: nat)
    ensures var p := PrefixLength(s, 0);
      && |Decode(s)| == 6 * p / 8
      && (i < 8 * |Decode(s)| ==>
           i / 6 < p && Lookup(s[i / 6]) < 64 && ByteBit(Decode(s), i) == BitOfSextet(Lookup(s[i / 6]), i % 6))
  {
    hide FromSextets, BitOfSextet, BitOfByte, Lookup, IsBase64, PrefixLength;
    var p := PrefixLength(s, 0);
    PrefixIsLongest(s, 0);
    ReadPrefix(s, p);
    FromSextetsKeepsBits(Read(s[..p]), i);
    if i < 8 * |Decode(s)| {
      LetterLookup(s[i / 6]);
    }
  }
}
