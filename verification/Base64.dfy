/** The Base64 codec: the two routines of the source, and the functions they compute. */
module Base64 {
  import opened Strings

  const UPPER := "ABCDEFGHIJKLMNOPQRSTUVWXYZ"
  const LOWER := "abcdefghijklmnopqrstuvwxyz"
  const OTHER := "0123456789+/"
  const BASE64_CHARS := UPPER + LOWER + OTHER

  predicate IsBase64(c: char) {
    'A' <= c <= 'Z' || 'a' <= c <= 'z' || '0' <= c <= '9' || c == '+' || c == '/'
  }

  function Letter(x: bv8): char
    requires x < 64
  {
    AlphabetAt(x as int);
    BASE64_CHARS[x as int]
  }

  /** `base64_chars.find(c)` as stored in an `unsigned char`: not found is cut down to 0xFF. */
  function Lookup(c: char): bv8 {
    AlphabetAt(0);
    var i := IndexOf(BASE64_CHARS, c, 0);
    if i == 64 then 0xFF else i as bv8
  }

  // ---------- the alphabet ----------

  function LetterCode(i: nat): int
    requires i < 64
  {
    if i < 26 then 65 + i else if i < 52 then 71 + i else if i < 62 then i - 4 else if i == 62 then 43 else 47
  }

  lemma UpperAt(i: nat)
    requires i < 26
    ensures |UPPER| == 26 && UPPER[i] as int == 65 + i
  {
    if i < 13 { if i < 6 {} else {} } else { if i < 20 {} else {} }
  }

  lemma LowerAt(i: nat)
    requires i < 26
    ensures |LOWER| == 26 && LOWER[i] as int == 97 + i
  {
    if i < 13 { if i < 6 {} else {} } else { if i < 20 {} else {} }
  }

  lemma AlphabetAt(i: nat)
    requires i < 64
    ensures |BASE64_CHARS| == 64 && BASE64_CHARS[i] as int == LetterCode(i)
  {
    UpperAt(0);
    LowerAt(0);
    assert |OTHER| == 12;
    if i < 26 {
      UpperAt(i);
      assert BASE64_CHARS[i] == UPPER[i];
    } else if i < 52 {
      LowerAt(i - 26);
      assert BASE64_CHARS[i] == LOWER[i - 26];
    } else {
      assert BASE64_CHARS[i] == OTHER[i - 52];
    }
  }

  lemma FindFinds(c: char, i: nat)
    requires i < 64 && c as int == LetterCode(i)
    ensures IndexOf(BASE64_CHARS, c, 0) == i
  {
    AlphabetAt(i);
    forall j | 0 <= j < i ensures BASE64_CHARS[j] != c {
      AlphabetAt(j);
    }
    IndexIs(BASE64_CHARS, c, 0, i);
  }

  lemma FindNothing(c: char)
    requires !IsBase64(c)
    ensures IndexOf(BASE64_CHARS, c, 0) == 64
  {
    AlphabetAt(0);
    forall j | 0 <= j < 64 ensures BASE64_CHARS[j] != c {
      AlphabetAt(j);
    }
    IndexIs(BASE64_CHARS, c, 0, 64);
  }

  /** The alphabet is what `is_base64` accepts. */
  lemma FoundExactly(c: char)
    ensures IndexOf(BASE64_CHARS, c, 0) < |BASE64_CHARS| <==> IsBase64(c)
  {
    AlphabetAt(0);
    if IsBase64(c) {
      var x := CodeOf(c);
      FindFinds(c, x as int);
    } else {
      FindNothing(c);
    }
  }

  lemma LookupLetter(x: bv8)
    requires x < 64
    ensures Lookup(Letter(x)) == x && IsBase64(Letter(x))
  {
    AlphabetAt(x as int);
    FindFinds(Letter(x), x as int);
  }

  lemma CodeOf(c: char) returns (x: bv8)
    requires IsBase64(c)
    ensures x < 64 && LetterCode(x as int) == c as int
  {
    var k := c as int;
    var i := if k == 43 then 62 else if k == 47 then 63 else if k < 58 then k + 4 else if k < 91 then k - 65
      else k - 71;
    x := i as bv8;
  }

  lemma LetterLookup(c: char)
    ensures IsBase64(c) ==> Lookup(c) < 64 && Letter(Lookup(c)) == c
    ensures !IsBase64(c) ==> Lookup(c) == 0xFF
  {
    if IsBase64(c) {
      var x := CodeOf(c);
      AlphabetAt(x as int);
      assert Letter(x) == c;
      LookupLetter(x);
    } else {
      FindNothing(c);
    }
  }

  // ---------- the masks ----------

  function Sextet0(a: bv8): bv8 { (a & 0xfc) >> 2 }
  function Sextet1(a: bv8, b: bv8): bv8 { ((a & 0x03) << 4) + ((b & 0xf0) >> 4) }
  function Sextet2(b: bv8, c: bv8): bv8 { ((b & 0x0f) << 2) + ((c & 0xc0) >> 6) }
  function Sextet3(c: bv8): bv8 { c & 0x3f }

  function Byte0(p: bv8, q: bv8): bv8 { (p << 2) + ((q & 0x30) >> 4) }
  function Byte1(q: bv8, r: bv8): bv8 { ((q & 0xf) << 4) + ((r & 0x3c) >> 2) }
  function Byte2(r: bv8, s: bv8): bv8 { ((r & 0x3) << 6) + s }

  // ---------- what the routines compute ----------

  /** The 6-bit groups of the bytes, the last one filled up with zero bits. */
  function ToSextets(bytes: seq<bv8>): (t: seq<bv8>)
    ensures forall k :: 0 <= k < |t| ==> t[k] < 64
  {
    if |bytes| == 0 then []
    else if |bytes| == 1 then [Sextet0(bytes[0]), Sextet1(bytes[0], 0)]
    else if |bytes| == 2 then [Sextet0(bytes[0]), Sextet1(bytes[0], bytes[1]), Sextet2(bytes[1], 0)]
    else
      [Sextet0(bytes[0]), Sextet1(bytes[0], bytes[1]), Sextet2(bytes[1], bytes[2]), Sextet3(bytes[2])] +
      ToSextets(bytes[3..])
  }

  /** The whole bytes in a string of 6-bit groups. */
  function FromSextets(t: seq<bv8>): seq<bv8> {
    if |t| < 2 then []
    else if |t| == 2 then [Byte0(t[0], t[1])]
    else if |t| == 3 then [Byte0(t[0], t[1]), Byte1(t[1], t[2])]
    else [Byte0(t[0], t[1]), Byte1(t[1], t[2]), Byte2(t[2], t[3])] + FromSextets(t[4..])
  }

  function Spell(t: seq<bv8>): string
    requires forall k :: 0 <= k < |t| ==> t[k] < 64
  {
    seq(|t|, k requires 0 <= k < |t| => Letter(t[k]))
  }

  function Read(s: string): seq<bv8> {
    seq(|s|, k requires 0 <= k < |s| => Lookup(s[k]))
  }

  function Padding(n: nat): string {
    if n % 3 == 0 then "" else if n % 3 == 1 then "==" else "="
  }

  function Encode(bytes: seq<bv8>): string {
    Spell(ToSextets(bytes)) + Padding(|bytes|)
  }

  /** The length of the longest prefix of alphabet characters. */
  function PrefixLength(s: string, from: nat): (n: nat)
    requires from <= |s|
    ensures from <= n <= |s|
    decreases |s| - from
  {
    if from == |s| || !IsBase64(s[from]) then from else PrefixLength(s, from + 1)
  }

  lemma {:induction false} PrefixIsLongest(s: string, from: nat)
    requires from <= |s|
    ensures var n := PrefixLength(s, from);
      (forall k :: from <= k < n ==> IsBase64(s[k])) && (n < |s| ==> !IsBase64(s[n]))
    decreases |s| - from
  {
    if from < |s| && IsBase64(s[from]) {
      PrefixIsLongest(s, from + 1);
    }
  }

  function Decode(s: string): seq<bv8> {
    FromSextets(Read(s[..PrefixLength(s, 0)]))
  }

  // ---------- the code ----------

  /** The letters of the bytes from `p` on, without the padding. */
  function LettersFrom(bytes: seq<bv8>, p: nat): string
    requires p <= |bytes|
  {
    Spell(ToSextets(bytes[p..]))
  }

  lemma WholeLetters(bytes: seq<bv8>)
    ensures Encode(bytes) == LettersFrom(bytes, 0) + Padding(|bytes|)
    ensures LettersFrom(bytes, |bytes|) == "" && (|bytes| % 3 == 0 ==> Padding(|bytes|) == "")
  {
    assert bytes[0..] == bytes && bytes[|bytes|..] == [];
  }

  method Base64Encode(bytes: seq<bv8>) returns (ret: string)
    ensures ret == Encode(bytes)
  {
    hide *;
    ret := "";
    var i := 0;
    var three, four := new bv8[3], new bv8[4];
    var at := 0;
    ghost var groups := 0;
    while at < |bytes|
      invariant 0 <= i < 3 && at == 3 * groups + i && at <= |bytes|
      invariant forall k :: 0 <= k < i ==> three[k] == bytes[at - i + k]
      invariant ret + LettersFrom(bytes, at - i) == LettersFrom(bytes, 0)
    {
      three[i] := bytes[at];
      i, at := i + 1, at + 1;
      if i == 3 {
        ret := EncodeGroup(ret, bytes, at - 3, three, four);
        i, groups := 0, groups + 1;
      }
    }
    WholeLetters(bytes);
    if i != 0 {
      ret := EncodeRest(ret, bytes, i, three, four);
    }
  }

  /** One full group of three bytes. */
  method EncodeGroup(letters: string, bytes: seq<bv8>, p: nat, three: array<bv8>, four: array<bv8>)
    returns (ret: string)
    requires p + 3 <= |bytes| && three.Length == 3 && four.Length == 4 && three != four
    requires forall k :: 0 <= k < 3 ==> three[k] == bytes[p + k]
    modifies four
    ensures ret + LettersFrom(bytes, p + 3) == letters + LettersFrom(bytes, p)
  {
    hide *;
    SplitGroup(three, four);
    EncodeStep(bytes, p, four[..]);
    ret := AppendLetters(letters, four, 4);
    assert four[..4] == four[..];
  }

  /** The one or two bytes of the last group, filled up with zeros. */
  method EncodeRest(letters: string, bytes: seq<bv8>, n: nat, three: array<bv8>, four: array<bv8>) returns (ret: string)
    requires 1 <= n <= 2 && n <= |bytes| && (|bytes| - n) % 3 == 0
    requires three.Length == 3 && four.Length == 4 && three != four
    requires forall k :: 0 <= k < n ==> three[k] == bytes[|bytes| - n + k]
    modifies three, four
    ensures ret == letters + LettersFrom(bytes, |bytes| - n) + Padding(|bytes|)
  {
    hide *;
    var i := n;
    var j := i;
    while j < 3
      invariant i <= j <= 3
      invariant forall k :: 0 <= k < i ==> three[k] == bytes[|bytes| - n + k]
      invariant forall k :: i <= k < j ==> three[k] == 0
    {
      three[j] := 0;
      j := j + 1;
    }
    SplitGroup(three, four);
    EncodeTail(bytes, |bytes| - n, four[..]);
    ret := AppendLetters(letters, four, i + 1);
    assert four[..i + 1] == four[..][..i + 1];
    while i < 3
      invariant n <= i <= 3
      invariant ret == letters + LettersFrom(bytes, |bytes| - n) + seq(i - n, _ => '=')
    {
      ret := ret + ['='];
      i := i + 1;
    }
    PaddingIs(|bytes|, n);
  }

  lemma PaddingIs(m: nat, n: nat)
    requires 1 <= n <= 2 && n <= m && (m - n) % 3 == 0
    ensures seq(3 - n, _ => '=') == Padding(m)
  {
  }

  /** The masks and shifts of the source, from three bytes to four groups. */
  method SplitGroup(three: array<bv8>, four: array<bv8>)
    requires three.Length == 3 && four.Length == 4 && three != four
    modifies four
    ensures IsSplit(four[..], three[0], three[1], three[2])
  {
    four[0] := (three[0] & 0xfc) >> 2;
    four[1] := ((three[0] & 0x03) << 4) + ((three[1] & 0xf0) >> 4);
    four[2] := ((three[1] & 0x0f) << 2) + ((three[2] & 0xc0) >> 6);
    four[3] := three[2] & 0x3f;
  }

  predicate IsSplit(four: seq<bv8>, a: bv8, b: bv8, c: bv8) {
    |four| == 4 && four[0] == Sextet0(a) && four[1] == Sextet1(a, b) && four[2] == Sextet2(b, c)
      && four[3] == Sextet3(c)
  }

  lemma SplitIsSmall(four: seq<bv8>, a: bv8, b: bv8, c: bv8)
    requires IsSplit(four, a, b, c)
    ensures forall k :: 0 <= k < |four| ==> four[k] < 64
  {
  }

  lemma EncodeStep(bytes: seq<bv8>, p: nat, four: seq<bv8>)
    requires p + 3 <= |bytes| && IsSplit(four, bytes[p], bytes[p + 1], bytes[p + 2])
    ensures forall k :: 0 <= k < |four| ==> four[k] < 64
    ensures LettersFrom(bytes, p) == Spell(four) + LettersFrom(bytes, p + 3)
  {
    SplitIsSmall(four, bytes[p], bytes[p + 1], bytes[p + 2]);
    assert bytes[p..][3..] == bytes[p + 3..];
    assert ToSextets(bytes[p..]) == four + ToSextets(bytes[p + 3..]);
    SpellAppend(four, ToSextets(bytes[p + 3..]));
  }

  /** The groups computed from zeros beyond the last byte are not spelled. */
  lemma EncodeTail(bytes: seq<bv8>, p: nat, four: seq<bv8>)
    requires p < |bytes| < p + 3
    requires IsSplit(four, bytes[p], if p + 1 < |bytes| then bytes[p + 1] else 0, 0)
    ensures forall k :: 0 <= k < |four| ==> four[k] < 64
    ensures Spell(four[..|bytes| - p + 1]) == LettersFrom(bytes, p)
  {
    SplitIsSmall(four, bytes[p], if p + 1 < |bytes| then bytes[p + 1] else 0, 0);
    assert four[..|bytes| - p + 1] == ToSextets(bytes[p..]);
  }

  method AppendLetters(s: string, four: array<bv8>, n: nat) returns (ret: string)
    requires n <= four.Length && forall k :: 0 <= k < four.Length ==> four[k] < 64
    ensures ret == s + Spell(four[..n])
  {
    ret := s;
    var i := 0;
    while i < n
      invariant 0 <= i <= n
      invariant ret == s + Spell(four[..i])
    {
      AlphabetAt(four[i] as int);
      ret := ret + [BASE64_CHARS[four[i] as int]];
      i := i + 1;
    }
  }

  lemma SpellAppend(a: seq<bv8>, b: seq<bv8>)
    requires forall k :: 0 <= k < |a| ==> a[k] < 64
    requires forall k :: 0 <= k < |b| ==> b[k] < 64
    ensures Spell(a + b) == Spell(a) + Spell(b)
  {
  }

  /** The bytes that the characters from `p` to `n` stand for. */
  function BytesFrom(s: string, p: nat, n: nat): seq<bv8>
    requires p <= n <= |s|
  {
    FromSextets(Read(s[p..n]))
  }

  lemma WholeBytes(s: string)
    ensures var n := PrefixLength(s, 0); Decode(s) == BytesFrom(s, 0, n) && BytesFrom(s, n, n) == []
  {
    var n := PrefixLength(s, 0);
    assert s[0..n] == s[..n] && s[n..n] == [];
  }

  lemma SliceGrows(s: string, p: nat, q: nat)
    requires p <= q < |s|
    ensures s[p..q + 1] == s[p..q] + [s[q]]
  {
  }

  lemma InPrefix(s: string, at: nat)
    requires at <= PrefixLength(s, 0) && at < |s| && IsBase64(s[at])
    ensures at < PrefixLength(s, 0)
  {
    PrefixIsLongest(s, 0);
  }

  lemma AtPrefixEnd(s: string, at: nat)
    requires at <= PrefixLength(s, 0) && !(at < |s| && s[at] != '=' && IsBase64(s[at]))
    ensures at == PrefixLength(s, 0)
  {
    PrefixIsLongest(s, 0);
  }

  method Base64Decode(s: string) returns (ret: seq<bv8>)
    ensures ret == Decode(s)
  {
    hide *;
    ret := [];
    var i, at := 0, 0;
    var four, three := new char[4], new bv8[3];
    ghost var n := PrefixLength(s, 0);
    WholeBytes(s);
    while at < |s| && s[at] != '=' && IsBase64(s[at])
      invariant 0 <= i < 4 && i <= at <= n
      invariant four[..i] == s[at - i..at]
      invariant ret + BytesFrom(s, at - i, n) == BytesFrom(s, 0, n)
      decreases |s| - at
    {
      InPrefix(s, at);
      SliceGrows(s, at - i, at);
      Store(four, i, s[at]);
      i, at := i + 1, at + 1;
      if i == 4 {
        assert four[..] == four[..4];
        ret := DecodeGroup(ret, s, at - 4, n, four, three);
        i := 0;
      }
    }
    AtPrefixEnd(s, at);
    if i != 0 {
      ret := DecodeRest(ret, s, i, n, four, three);
    }
  }

  /** One full group of four characters. */
  method DecodeGroup(bytes: seq<bv8>, s: string, p: nat, ghost n: nat, four: array<char>, three: array<bv8>)
    returns (ret: seq<bv8>)
    requires p + 4 <= n <= |s| && four.Length == 4 && three.Length == 3
    requires four[..] == s[p..p + 4]
    modifies three
    ensures ret + BytesFrom(s, p + 4, n) == bytes + BytesFrom(s, p, n)
    ensures unchanged(four)
  {
    hide *;
    var values := LookupAll(four);
    JoinGroup(values, three);
    DecodeStep(s, p, n, values[..], three[..]);
    ret := AppendBytes(bytes, three, 3);
    assert three[..3] == three[..];
  }

  /**
    The last one to three characters. The code looks up all four slots, the others being filled up with the
    null character, whose lookup is 0xFF; only the bytes that depend on the slots that were read are appended.
   */
  method DecodeRest(bytes: seq<bv8>, s: string, i: nat, ghost n: nat, four: array<char>, three: array<bv8>)
    returns (ret: seq<bv8>)
    requires 1 <= i <= 3 && i <= n <= |s| && four.Length == 4 && three.Length == 3
    requires four[..i] == s[n - i..n]
    modifies four, three
    ensures ret == bytes + BytesFrom(s, n - i, n)
  {
    hide *;
    FillUp(four, i);
    var values := LookupAll(four);
    JoinGroup(values, three);
    DecodeTail(s, n - i, n, values[..], three[..]);
    ret := AppendBytes(bytes, three, i - 1);
  }

  method Store(four: array<char>, i: nat, c: char)
    requires i < four.Length
    modifies four
    ensures four[..i + 1] == old(four[..i]) + [c]
  {
    four[i] := c;
  }

  method FillUp(four: array<char>, i: nat)
    requires four.Length == 4 && i <= 4
    modifies four
    ensures four[..i] == old(four[..i]) && forall k :: i <= k < 4 ==> four[k] == '\0'
  {
    var j := i;
    while j < 4
      invariant i <= j <= 4
      invariant four[..i] == old(four[..i]) && forall k :: i <= k < j ==> four[k] == '\0'
    {
      four[j] := '\0';
      j := j + 1;
    }
  }

  /** The masks and shifts of the source, from four groups to three bytes. */
  method JoinGroup(values: array<bv8>, three: array<bv8>)
    requires values.Length == 4 && three.Length == 3 && three != values
    modifies three
    ensures IsJoin(three[..], values[..])
  {
    three[0] := (values[0] << 2) + ((values[1] & 0x30) >> 4);
    three[1] := ((values[1] & 0xf) << 4) + ((values[2] & 0x3c) >> 2);
    three[2] := ((values[2] & 0x3) << 6) + values[3];
  }

  predicate IsJoin(three: seq<bv8>, values: seq<bv8>) {
    && |three| == 3 && |values| == 4
    && three[0] == Byte0(values[0], values[1])
    && three[1] == Byte1(values[1], values[2])
    && three[2] == Byte2(values[2], values[3])
  }

  lemma ReadAt(s: string, p: nat, n: nat)
    requires p <= n <= |s|
    ensures |Read(s[p..n])| == n - p && forall k :: 0 <= k < n - p ==> Read(s[p..n])[k] == Lookup(s[p + k])
    ensures p + 4 <= n ==> Read(s[p..n])[4..] == Read(s[p + 4..n])
  {
    hide Lookup;
  }

  lemma DecodeStep(s: string, p: nat, n: nat, values: seq<bv8>, three: seq<bv8>)
    requires p + 4 <= n <= |s| && IsJoin(three, values) && forall k :: 0 <= k < 4 ==> values[k] == Lookup(s[p + k])
    ensures BytesFrom(s, p, n) == three + BytesFrom(s, p + 4, n)
  {
    hide Lookup, Byte0, Byte1, Byte2;
    ReadAt(s, p, n);
  }

  /** The slots that were not read hold 0xFF, and what depends on them is not appended. */
  lemma DecodeTail(s: string, p: nat, n: nat, values: seq<bv8>, three: seq<bv8>)
    requires p < n < p + 4 && n <= |s| && IsJoin(three, values)
    requires forall k :: 0 <= k < n - p ==> values[k] == Lookup(s[p + k])
    ensures BytesFrom(s, p, n) == three[..n - p - 1]
  {
  }

  method LookupAll(four: array<char>) returns (values: array<bv8>)
    requires four.Length == 4
    ensures fresh(values) && values.Length == 4
    ensures forall k :: 0 <= k < 4 ==> values[k] == Lookup(four[k])
  {
    hide *;
    values := new bv8[4];
    var i := 0;
    while i < 4
      invariant 0 <= i <= 4
      invariant forall k :: 0 <= k < i ==> values[k] == Lookup(four[k])
    {
      values[i] := Lookup(four[i]);
      i := i + 1;
    }
  }

  method AppendBytes(s: seq<bv8>, three: array<bv8>, n: nat) returns (ret: seq<bv8>)
    requires n <= three.Length
    ensures ret == s + three[..n]
  {
    ret := s;
    var i := 0;
    while i < n
      invariant 0 <= i <= n
      invariant ret == s + three[..i]
    {
      assert s + three[..i + 1] == s + three[..i] + [three[i]];
      ret := ret + [three[i]];
      i := i + 1;
    }
  }
}
