/**
  Base64::Encode and Base64::Decode. Text is a string of bytes, as in the program.
 */
module Base64 {
  type Byte = bv8
  type Bytes = seq<Byte>

  const PAD: Byte := 0x3d

  /** BASE64_CHARS[i]: "A-Z", "a-z", "0-9", "+", "/" */
  function Char(i: Byte): Byte {
    if i < 26 then 0x41 + i
    else if i < 52 then 0x61 + (i - 26)
    else if i < 62 then 0x30 + (i - 52)
    else if i == 62 then 0x2b else 0x2f
  }

  predicate IsBase64Char(c: Byte) {
    0x41 <= c <= 0x5a || 0x61 <= c <= 0x7a || 0x30 <= c <= 0x39 || c == 0x2b || c == 0x2f
  }

  /** BASE64_CHARS.find(c), where c is one of them. */
  function Index(c: Byte): (i: Byte)
    requires IsBase64Char(c)
    ensures i < 64 && Char(i) == c
  {
    if 0x41 <= c <= 0x5a then c - 0x41
    else if 0x61 <= c <= 0x7a then c - 0x61 + 26
    else if 0x30 <= c <= 0x39 then c - 0x30 + 52
    else if c == 0x2b then 62 else 63
  }

  lemma CharIndex(i: Byte)
    requires i < 64
    ensures IsBase64Char(Char(i)) && Index(Char(i)) == i
  {
  }

  /** The alphabet, and the padding, as text. */
  lemma CharsAreText(i: Byte)
    ensures i < 26 ==> Char(i) as char == "ABCDEFGHIJKLMNOPQRSTUVWXYZ"[i as int]
    ensures 26 <= i < 52 ==> Char(i) as char == "abcdefghijklmnopqrstuvwxyz"[(i - 26) as int]
    ensures 52 <= i < 62 ==> Char(i) as char == "0123456789"[(i - 52) as int]
    ensures Char(62) as char == '+' && Char(63) as char == '/' && PAD as char == '='
  {
  }

  /** MakeCharFour */
  function Four(a: Byte, b: Byte, c: Byte): Bytes {
    [(a & 0xfc) >> 2,
     ((a & 0x03) << 4) + ((b & 0xf0) >> 4),
     ((b & 0x0f) << 2) + ((c & 0xc0) >> 6),
     c & 0x3f]
  }

  /** MakeCharTree */
  function Three(p: Byte, q: Byte, r: Byte, s: Byte): Bytes {
    [(p << 2) + ((q & 0x30) >> 4),
     ((q & 0x0f) << 4) + ((r & 0x3c) >> 2),
     ((r & 0x03) << 6) + s]
  }

  function Chars(ss: Bytes): Bytes {
    if ss == [] then [] else [Char(ss[0])] + Chars(ss[1..])
  }

  // ---- Bits, two at a time -----------------------------------------------------------------------

  /** The bits of a byte, and the low six bits of a byte, as base-4 digits. */
  function Pairs8(b: Byte): Bytes {
    [b >> 6, (b >> 4) & 3, (b >> 2) & 3, b & 3]
  }

  function Pairs6(b: Byte): Bytes {
    [(b >> 4) & 3, (b >> 2) & 3, b & 3]
  }

  lemma FourDigits(a: Byte, b: Byte, c: Byte)
    ensures Pairs6((a & 0xfc) >> 2) == [a >> 6, (a >> 4) & 3, (a >> 2) & 3]
    ensures Pairs6(((a & 0x03) << 4) + ((b & 0xf0) >> 4)) == [a & 3, b >> 6, (b >> 4) & 3]
    ensures Pairs6(((b & 0x0f) << 2) + ((c & 0xc0) >> 6)) == [(b >> 2) & 3, b & 3, c >> 6]
    ensures Pairs6(c & 0x3f) == [(c >> 4) & 3, (c >> 2) & 3, c & 3]
  {
  }

  /** Twelve digits in threes, and in fours. */
  lemma Regrouped<T>(x: seq<T>)
    requires |x| == 12
    ensures [x[0], x[1], x[2]] + [x[3], x[4], x[5]] + [x[6], x[7], x[8]] + [x[9], x[10], x[11]] ==
            [x[0], x[1], x[2], x[3]] + [x[4], x[5], x[6], x[7]] + [x[8], x[9], x[10], x[11]]
  {
  }

  lemma FourPairs(a: Byte, b: Byte, c: Byte)
    ensures var f := Four(a, b, c);
      Pairs6(f[0]) + Pairs6(f[1]) + Pairs6(f[2]) + Pairs6(f[3]) == Pairs8(a) + Pairs8(b) + Pairs8(c)
  {
    FourDigits(a, b, c);
    Regrouped([a >> 6, (a >> 4) & 3, (a >> 2) & 3, a & 3, b >> 6, (b >> 4) & 3, (b >> 2) & 3, b & 3,
               c >> 6, (c >> 4) & 3, (c >> 2) & 3, c & 3]);
  }

  lemma FourSmall(a: Byte, b: Byte, c: Byte)
    ensures var f := Four(a, b, c); f[0] < 64 && f[1] < 64 && f[2] < 64 && f[3] < 64
  {
  }

  lemma ThreePairs(p: Byte, q: Byte, r: Byte, s: Byte)
    requires p < 64 && q < 64 && r < 64 && s < 64
    ensures var t := Three(p, q, r, s);
      Pairs8(t[0]) + Pairs8(t[1]) + Pairs8(t[2]) == Pairs6(p) + Pairs6(q) + Pairs6(r) + Pairs6(s)
  {
    var t := Three(p, q, r, s);
    var f := Four(t[0], t[1], t[2]);
    FourPairs(t[0], t[1], t[2]);
    FourOfThree(p, q, r, s);
  }

  lemma FourOfThree(p: Byte, q: Byte, r: Byte, s: Byte)
    requires p < 64 && q < 64 && r < 64 && s < 64
    ensures var t := Three(p, q, r, s); Four(t[0], t[1], t[2]) == [p, q, r, s]
  {
  }

  lemma PairsInjective(a: Byte, b: Byte)
    requires Pairs8(a) == Pairs8(b)
    ensures a == b
  {
    var x, y := Pairs8(a), Pairs8(b);
    assert x[0] == y[0] && x[1] == y[1] && x[2] == y[2] && x[3] == y[3];
  }

  function PairsOfBytes(bs: Bytes): Bytes {
    if bs == [] then [] else Pairs8(bs[0]) + PairsOfBytes(bs[1..])
  }

  function PairsOfSextets(ss: Bytes): Bytes {
    if ss == [] then [] else Pairs6(ss[0]) + PairsOfSextets(ss[1..])
  }

  lemma Nested<T>(a: seq<T>, b: seq<T>, c: seq<T>, d: seq<T>, e: seq<T>)
    ensures a + (b + (c + d)) == a + b + c + d
    ensures a + (b + (c + (d + e))) == a + b + c + d + e
  {
  }

  lemma ByteThen(x: Byte, rest: Bytes)
    ensures PairsOfBytes([x] + rest) == Pairs8(x) + PairsOfBytes(rest)
  {
    assert ([x] + rest)[1..] == rest;
  }

  lemma SextetThen(x: Byte, rest: Bytes)
    ensures PairsOfSextets([x] + rest) == Pairs6(x) + PairsOfSextets(rest)
  {
    assert ([x] + rest)[1..] == rest;
  }

  lemma ThreeBytes(x: Byte, y: Byte, z: Byte, rest: Bytes)
    ensures PairsOfBytes([x, y, z] + rest) == Pairs8(x) + Pairs8(y) + Pairs8(z) + PairsOfBytes(rest)
  {
    ByteThen(z, rest);
    ByteThen(y, [z] + rest);
    ByteThen(x, [y] + ([z] + rest));
    assert [x] + ([y] + ([z] + rest)) == [x, y, z] + rest;
    Nested(Pairs8(x), Pairs8(y), Pairs8(z), PairsOfBytes(rest), []);
  }

  lemma FourSextets(p: Byte, q: Byte, r: Byte, s: Byte, rest: Bytes)
    ensures PairsOfSextets([p, q, r, s] + rest) ==
            Pairs6(p) + Pairs6(q) + Pairs6(r) + Pairs6(s) + PairsOfSextets(rest)
  {
    SextetThen(s, rest);
    SextetThen(r, [s] + rest);
    SextetThen(q, [r] + ([s] + rest));
    SextetThen(p, [q] + ([r] + ([s] + rest)));
    assert [p] + ([q] + ([r] + ([s] + rest))) == [p, q, r, s] + rest;
    Nested(Pairs6(p), Pairs6(q), Pairs6(r), Pairs6(s), PairsOfSextets(rest));
  }

  lemma FewSextets(p: Byte, q: Byte, r: Byte)
    ensures PairsOfSextets([p, q]) == Pairs6(p) + Pairs6(q)
    ensures PairsOfSextets([p, q, r]) == Pairs6(p) + Pairs6(q) + Pairs6(r)
  {
    SextetThen(p, [q]);
    SextetThen(q, [r]);
    SextetThen(p, [q, r]);
    assert [p] + [q] == [p, q] && [q] + [r] == [q, r] && [p] + [q, r] == [p, q, r];
  }

  lemma FewBytes(a: Byte, b: Byte)
    ensures PairsOfBytes([a]) == Pairs8(a) && PairsOfBytes([a, b]) == Pairs8(a) + Pairs8(b)
  {
    ByteThen(a, [b]);
    assert [a] + [b] == [a, b];
  }

  lemma {:induction false} PairsLength(bs: Bytes)
    ensures |PairsOfBytes(bs)| == 4 * |bs|
  {
    if bs == [] {
    } else {
      PairsLength(bs[1..]);
    }
  }

  lemma {:induction false} PairsTellBytes(a: Bytes, b: Bytes)
    requires PairsOfBytes(a) == PairsOfBytes(b)
    ensures a == b
  {
    PairsLength(a);
    PairsLength(b);
    if a == [] {
    } else {
      assert PairsOfBytes(a)[..4] == Pairs8(a[0]) && PairsOfBytes(b)[..4] == Pairs8(b[0]);
      assert PairsOfBytes(a)[4..] == PairsOfBytes(a[1..]) && PairsOfBytes(b)[4..] == PairsOfBytes(b[1..]);
      PairsInjective(a[0], b[0]);
      PairsTellBytes(a[1..], b[1..]);
    }
  }

  // ---- What encoding computes --------------------------------------------------------------------

  /** Group by group; the last group is filled up with zero bytes and cut short. */
  function Sextets(bs: Bytes): Bytes {
    if bs == [] then []
    else if |bs| == 1 then Four(bs[0], 0, 0)[..2]
    else if |bs| == 2 then Four(bs[0], bs[1], 0)[..3]
    else Four(bs[0], bs[1], bs[2]) + Sextets(bs[3..])
  }

  function Pads(n: nat): Bytes {
    if n % 3 == 0 then [] else if n % 3 == 1 then [PAD, PAD] else [PAD]
  }

  function Encoded(bs: Bytes): Bytes {
    Chars(Sextets(bs)) + Pads(|bs|)
  }

  predicate AllSextets(ss: Bytes) {
    forall i | 0 <= i < |ss| :: ss[i] < 64
  }

  /** Zero bits behind `n` bytes, in pairs. */
  function Fill(n: nat): Bytes {
    if n % 3 == 0 then [] else if n % 3 == 1 then [0, 0] else [0]
  }

  lemma LastOne(a: Byte)
    ensures PairsOfSextets(Sextets([a])) == PairsOfBytes([a]) + Fill(1)
  {
    var f := Four(a, 0, 0);
    assert f[..2] == [f[0], f[1]];
    FewSextets(f[0], f[1], 0);
    FewBytes(a, 0);
    FourDigits(a, 0, 0);
  }

  lemma LastTwo(a: Byte, b: Byte)
    ensures PairsOfSextets(Sextets([a, b])) == PairsOfBytes([a, b]) + Fill(2)
  {
    var f := Four(a, b, 0);
    assert f[..3] == [f[0], f[1], f[2]];
    FewSextets(f[0], f[1], f[2]);
    FewBytes(a, b);
    FourDigits(a, b, 0);
    RegroupedShort([a >> 6, (a >> 4) & 3, (a >> 2) & 3, a & 3, b >> 6, (b >> 4) & 3, (b >> 2) & 3, b & 3, 0]);
  }

  lemma RegroupedShort<T>(x: seq<T>)
    requires |x| == 9
    ensures [x[0], x[1], x[2]] + [x[3], x[4], x[5]] + [x[6], x[7], x[8]] ==
            [x[0], x[1], x[2], x[3]] + [x[4], x[5], x[6], x[7]] + [x[8]]
  {
  }

  /** The sextets hold the bits of the bytes, in order, and then zero bits only. */
  lemma {:induction false} EncodeKeepsBits(bs: Bytes)
    ensures PairsOfSextets(Sextets(bs)) == PairsOfBytes(bs) + Fill(|bs|)
    decreases |bs|
  {
    if |bs| == 1 {
      LastOne(bs[0]);
      assert bs == [bs[0]];
    } else if |bs| == 2 {
      LastTwo(bs[0], bs[1]);
      assert bs == [bs[0], bs[1]];
    } else if bs != [] {
      EncodeKeepsBits(bs[3..]);
      GroupKeepsBits(bs[0], bs[1], bs[2], bs[3..], Sextets(bs[3..]), Fill(|bs| - 3));
      FillRepeats(|bs| - 3);
      assert bs == [bs[0], bs[1], bs[2]] + bs[3..];
    }
  }

  lemma GroupKeepsBits(a: Byte, b: Byte, c: Byte, rest: Bytes, ss: Bytes, fill: Bytes)
    requires PairsOfSextets(ss) == PairsOfBytes(rest) + fill
    ensures PairsOfSextets(Four(a, b, c) + ss) == PairsOfBytes([a, b, c] + rest) + fill
  {
    ThreeBytes(a, b, c, rest);
    GroupThen(a, b, c, ss);
    Glue(PairsOfSextets(Four(a, b, c) + ss), PairsOfBytes([a, b, c] + rest),
         Pairs8(a) + Pairs8(b) + Pairs8(c), PairsOfSextets(ss), PairsOfBytes(rest), fill);
  }

  lemma FillRepeats(n: nat)
    ensures Fill(n + 3) == Fill(n)
  {
    assert (n + 3) % 3 == n % 3;
  }

  lemma GroupThen(a: Byte, b: Byte, c: Byte, rest: Bytes)
    ensures PairsOfSextets(Four(a, b, c) + rest) == Pairs8(a) + Pairs8(b) + Pairs8(c) + PairsOfSextets(rest)
  {
    var f := Four(a, b, c);
    FourPairs(a, b, c);
    FourSextets(f[0], f[1], f[2], f[3], rest);
  }

  lemma Glue<T>(l: seq<T>, r: seq<T>, x: seq<T>, s: seq<T>, b: seq<T>, fill: seq<T>)
    requires l == x + s && r == x + b && s == b + fill
    ensures l == r + fill
  {
  }

  // ---- What decoding computes --------------------------------------------------------------------

  /** Group by group; the last group is filled up with zeros, and cut short by one byte more. */
  function FromSextets(ss: Bytes): Bytes {
    if |ss| < 2 then []
    else if |ss| == 2 then Three(ss[0], ss[1], 0, 0)[..1]
    else if |ss| == 3 then Three(ss[0], ss[1], ss[2], 0)[..2]
    else Three(ss[0], ss[1], ss[2], ss[3]) + FromSextets(ss[4..])
  }

  lemma PrefixOfLonger<T>(x: seq<T>, y: seq<T>, z: seq<T>)
    requires x <= y
    ensures z + x <= z + y
  {
  }

  lemma LastTwoSextets(p: Byte, q: Byte)
    requires p < 64 && q < 64
    ensures PairsOfBytes(FromSextets([p, q])) <= PairsOfSextets([p, q])
  {
    var t := Three(p, q, 0, 0);
    assert t[..1] == [t[0]];
    FewBytes(t[0], 0);
    FewSextets(p, q, 0);
    ThreePairs(p, q, 0, 0);
    var x := Pairs8(t[0]) + Pairs8(t[1]) + Pairs8(t[2]);
    assert Pairs8(t[0]) == x[..4];
  }

  lemma LastThreeSextets(p: Byte, q: Byte, r: Byte)
    requires p < 64 && q < 64 && r < 64
    ensures PairsOfBytes(FromSextets([p, q, r])) <= PairsOfSextets([p, q, r])
  {
    var t := Three(p, q, r, 0);
    assert t[..2] == [t[0], t[1]];
    FewBytes(t[0], t[1]);
    FewSextets(p, q, r);
    ThreePairs(p, q, r, 0);
    var x := Pairs8(t[0]) + Pairs8(t[1]) + Pairs8(t[2]);
    assert Pairs8(t[0]) + Pairs8(t[1]) == x[..8];
  }

  lemma GroupDecodes(p: Byte, q: Byte, r: Byte, s: Byte, rest: Bytes, bs: Bytes)
    requires p < 64 && q < 64 && r < 64 && s < 64 && PairsOfBytes(bs) <= PairsOfSextets(rest)
    ensures PairsOfBytes(Three(p, q, r, s) + bs) <= PairsOfSextets([p, q, r, s] + rest)
  {
    var t := Three(p, q, r, s);
    ThreePairs(p, q, r, s);
    ThreeBytes(t[0], t[1], t[2], bs);
    FourSextets(p, q, r, s, rest);
    PrefixOfLonger(PairsOfBytes(bs), PairsOfSextets(rest), Pairs6(p) + Pairs6(q) + Pairs6(r) + Pairs6(s));
  }

  /** The bytes hold the bits of the sextets, in order, as many as fill whole bytes. */
  lemma {:induction false} DecodeKeepsBits(ss: Bytes)
    requires AllSextets(ss)
    ensures PairsOfBytes(FromSextets(ss)) <= PairsOfSextets(ss)
    ensures |FromSextets(ss)| == 3 * |ss| / 4
    decreases |ss|
  {
    if |ss| == 2 {
      assert ss == [ss[0], ss[1]];
      LastTwoSextets(ss[0], ss[1]);
    } else if |ss| == 3 {
      assert ss == [ss[0], ss[1], ss[2]];
      LastThreeSextets(ss[0], ss[1], ss[2]);
    } else if |ss| >= 4 {
      DecodeKeepsBits(ss[4..]);
      GroupDecodes(ss[0], ss[1], ss[2], ss[3], ss[4..], FromSextets(ss[4..]));
      assert ss == [ss[0], ss[1], ss[2], ss[3]] + ss[4..];
    }
  }

  lemma {:induction false} SextetsLength(bs: Bytes)
    ensures AllSextets(Sextets(bs)) && 3 * |Sextets(bs)| / 4 == |bs|
    decreases |bs|
  {
    if 0 < |bs| {
      FourSmall(bs[0], if |bs| > 1 then bs[1] else 0, if |bs| > 2 then bs[2] else 0);
      if |bs| > 3 {
        SextetsLength(bs[3..]);
      }
    }
  }

  lemma {:induction false} SextetsAndPads(bs: Bytes)
    ensures |Sextets(bs)| + |Pads(|bs|)| == 4 * ((|bs| + 2) / 3)
    decreases |bs|
  {
    if |bs| >= 3 {
      SextetsAndPads(bs[3..]);
      PadsRepeat(|bs| - 3);
      Third(|bs| - 3);
    }
  }

  lemma Third(n: nat)
    ensures (n + 3 + 2) / 3 == (n + 2) / 3 + 1
  {
  }

  lemma {:induction false} CharsLength(ss: Bytes)
    ensures |Chars(ss)| == |ss|
  {
    if ss == [] {
    } else {
      CharsLength(ss[1..]);
    }
  }

  /** Four characters for every three bytes begun. */
  lemma EncodedLength(bs: Bytes)
    ensures |Encoded(bs)| == 4 * ((|bs| + 2) / 3)
  {
    SextetsAndPads(bs);
    CharsLength(Sextets(bs));
  }

  lemma SextetsRoundTrip(bs: Bytes)
    ensures FromSextets(Sextets(bs)) == bs
  {
    var f := FromSextets(Sextets(bs));
    SextetsLength(bs);
    DecodeKeepsBits(Sextets(bs));
    EncodeKeepsBits(bs);
    PairsLength(f);
    PairsLength(bs);
    CutAtLength(PairsOfBytes(f), PairsOfBytes(bs), Fill(|bs|));
    PairsTellBytes(f, bs);
  }

  lemma CutAtLength<T>(x: seq<T>, y: seq<T>, z: seq<T>)
    requires x <= y + z && |x| == |y|
    ensures x == y
  {
  }

  // ---- Text --------------------------------------------------------------------------------------

  /** What Decode reads: everything in front of the first byte that is not in the alphabet. */
  function Body(text: Bytes): Bytes {
    if text != [] && IsBase64Char(text[0]) then [text[0]] + Body(text[1..]) else []
  }

  predicate InAlphabet(text: Bytes) {
    forall i | 0 <= i < |text| :: IsBase64Char(text[i])
  }

  function Indices(text: Bytes): Bytes
    requires InAlphabet(text)
  {
    if text == [] then [] else [Index(text[0])] + Indices(text[1..])
  }

  lemma {:induction false} BodyInAlphabet(text: Bytes)
    ensures InAlphabet(Body(text)) && Body(text) <= text
  {
    if text != [] && IsBase64Char(text[0]) {
      BodyInAlphabet(text[1..]);
    }
  }

  function Decoded(text: Bytes): Bytes {
    BodyInAlphabet(text);
    FromSextets(Indices(Body(text)))
  }

  lemma {:induction false} CharsIndices(text: Bytes)
    requires InAlphabet(text)
    ensures Chars(Indices(text)) == text && AllSextets(Indices(text)) && |Indices(text)| == |text|
  {
    if text == [] {
    } else {
      CharsIndices(text[1..]);
      assert Indices(text)[1..] == Indices(text[1..]);
    }
  }

  lemma {:induction false} IndicesChars(ss: Bytes)
    requires AllSextets(ss)
    ensures InAlphabet(Chars(ss)) && Indices(Chars(ss)) == ss
  {
    if ss == [] {
    } else {
      IndicesChars(ss[1..]);
      CharIndex(ss[0]);
      assert Chars(ss)[1..] == Chars(ss[1..]);
    }
  }

  lemma {:induction false} BodyStops(text: Bytes, rest: Bytes)
    requires InAlphabet(text) && (rest == [] || !IsBase64Char(rest[0]))
    ensures Body(text + rest) == text
  {
    if text == [] {
      assert text + rest == rest;
    } else {
      assert (text + rest)[1..] == text[1..] + rest;
      BodyStops(text[1..], rest);
    }
  }

  lemma BodyOfEncoded(bs: Bytes)
    ensures AllSextets(Sextets(bs)) && InAlphabet(Chars(Sextets(bs)))
    ensures Body(Encoded(bs)) == Chars(Sextets(bs)) && Indices(Chars(Sextets(bs))) == Sextets(bs)
  {
    SextetsLength(bs);
    IndicesChars(Sextets(bs));
    BodyStops(Chars(Sextets(bs)), Pads(|bs|));
  }

  /** Decode undoes Encode, for every input. */
  lemma DecodeEncode(bs: Bytes)
    ensures Decoded(Encoded(bs)) == bs
  {
    BodyOfEncoded(bs);
    SextetsRoundTrip(bs);
  }

  /** Zero below the bits that fill whole bytes. */
  predicate SpareBitsZero(ss: Bytes) {
    if |ss| % 4 == 2 then ss[|ss| - 1] & 0x0f == 0 else if |ss| % 4 == 3 then ss[|ss| - 1] & 0x03 == 0 else true
  }

  lemma ShortFromSextets(p: Byte, q: Byte, r: Byte)
    ensures FromSextets([p, q]) == [Three(p, q, 0, 0)[0]]
    ensures FromSextets([p, q, r]) == [Three(p, q, r, 0)[0], Three(p, q, r, 0)[1]]
  {
  }

  lemma ShortSextets(a: Byte, b: Byte)
    ensures Sextets([a]) == [Four(a, 0, 0)[0], Four(a, 0, 0)[1]]
    ensures Sextets([a, b]) == [Four(a, b, 0)[0], Four(a, b, 0)[1], Four(a, b, 0)[2]]
  {
  }

  lemma TwoAgain(p: Byte, q: Byte)
    requires p < 64 && q < 64
    ensures Sextets(FromSextets([p, q])) == [p, q] <==> q & 0x0f == 0
  {
    ShortFromSextets(p, q, 0);
    var t := (p << 2) + ((q & 0x30) >> 4);
    ShortSextets(t, 0);
    OneByteBits(p, q);
    SameElements([Four(t, 0, 0)[0], Four(t, 0, 0)[1]], [p, q]);
  }

  lemma OneByteBits(p: Byte, q: Byte)
    requires p < 64 && q < 64
    ensures var t := (p << 2) + ((q & 0x30) >> 4);
      (t & 0xfc) >> 2 == p && (((t & 0x03) << 4) + ((0 & 0xf0) >> 4) == q <==> q & 0x0f == 0)
  {
  }

  lemma ThreeAgain(p: Byte, q: Byte, r: Byte)
    requires p < 64 && q < 64 && r < 64
    ensures Sextets(FromSextets([p, q, r])) == [p, q, r] <==> r & 0x03 == 0
  {
    ShortFromSextets(p, q, r);
    var t, u := (p << 2) + ((q & 0x30) >> 4), ((q & 0x0f) << 4) + ((r & 0x3c) >> 2);
    ShortSextets(t, u);
    TwoByteBits(p, q, r);
    SameElements([Four(t, u, 0)[0], Four(t, u, 0)[1], Four(t, u, 0)[2]], [p, q, r]);
  }

  lemma TwoByteBits(p: Byte, q: Byte, r: Byte)
    requires p < 64 && q < 64 && r < 64
    ensures var t, u := (p << 2) + ((q & 0x30) >> 4), ((q & 0x0f) << 4) + ((r & 0x3c) >> 2);
      (t & 0xfc) >> 2 == p && ((t & 0x03) << 4) + ((u & 0xf0) >> 4) == q
      && (((u & 0x0f) << 2) + ((0 & 0xc0) >> 6) == r <==> r & 0x03 == 0)
  {
  }

  lemma SameElements<T>(x: seq<T>, y: seq<T>)
    requires |x| == |y|
    ensures x == y <==> forall i | 0 <= i < |x| :: x[i] == y[i]
  {
  }

  lemma GroupAgain(p: Byte, q: Byte, r: Byte, s: Byte, bs: Bytes)
    requires p < 64 && q < 64 && r < 64 && s < 64
    ensures Sextets(Three(p, q, r, s) + bs) == [p, q, r, s] + Sextets(bs)
  {
    var t := Three(p, q, r, s);
    FourOfThree(p, q, r, s);
    assert (t + bs)[3..] == bs;
  }

  /** Sextets come back unless one is left over or bits outside the whole bytes are set. */
  lemma {:induction false} SextetsAgain(ss: Bytes)
    requires AllSextets(ss)
    ensures Sextets(FromSextets(ss)) == ss <==> |ss| % 4 != 1 && SpareBitsZero(ss)
    decreases |ss|
  {
    if |ss| == 2 {
      assert ss == [ss[0], ss[1]];
      TwoAgain(ss[0], ss[1]);
    } else if |ss| == 3 {
      assert ss == [ss[0], ss[1], ss[2]];
      ThreeAgain(ss[0], ss[1], ss[2]);
    } else if |ss| >= 4 {
      var first, rest := ss[..4], ss[4..];
      SextetsAgain(rest);
      GroupAgain(ss[0], ss[1], ss[2], ss[3], FromSextets(rest));
      assert first == [ss[0], ss[1], ss[2], ss[3]];
      SameFront(first, Sextets(FromSextets(rest)), rest);
      assert ss == first + rest;
      SpareBitsBehind(ss);
    }
  }

  lemma SameFront<T>(x: seq<T>, y: seq<T>, z: seq<T>)
    ensures x + y == x + z <==> y == z
  {
    assert (x + y)[|x|..] == y && (x + z)[|x|..] == z;
  }

  lemma SpareBitsBehind(ss: Bytes)
    requires |ss| >= 4
    ensures SpareBitsZero(ss[4..]) == SpareBitsZero(ss) && |ss[4..]| % 4 == |ss| % 4
  {
  }

  /** The padding that follows `n` characters. */
  function PadsAfter(n: nat): Bytes {
    if n % 4 == 2 then [PAD, PAD] else if n % 4 == 3 then [PAD] else []
  }

  /** Nothing but characters and the right padding, no character left over, and the spare bits zero. */
  predicate IsCanonical(text: Bytes) {
    BodyInAlphabet(text);
    var n := |Body(text)|;
    text == Body(text) + PadsAfter(n) && n % 4 != 1 && SpareBitsZero(Indices(Body(text)))
  }

  lemma {:induction false} PadsAgree(n: nat)
    requires n % 4 != 1
    ensures PadsAfter(n) == Pads(3 * n / 4)
  {
    if n >= 4 {
      Quarter(n - 4);
      PadsAgree(n - 4);
      PadsRepeat(3 * (n - 4) / 4);
    }
  }

  lemma Quarter(m: nat)
    ensures 3 * (m + 4) / 4 == 3 * m / 4 + 3 && (m + 4) % 4 == m % 4
  {
  }

  lemma PadsRepeat(n: nat)
    ensures Pads(n + 3) == Pads(n)
  {
    assert (n + 3) % 3 == n % 3;
  }

  /** Encode undoes Decode exactly on canonical text. */
  lemma EncodeDecode(text: Bytes)
    ensures Encoded(Decoded(text)) == text <==> IsCanonical(text)
  {
    BodyInAlphabet(text);
    var body := Body(text);
    var ss := Indices(body);
    CharsIndices(body);
    DecodeKeepsBits(ss);
    SextetsAgain(ss);
    if |body| % 4 != 1 {
      PadsAgree(|body|);
    }
    if Encoded(Decoded(text)) == text {
      BodyOfEncoded(Decoded(text));
    }
  }

  // ---- The code ----------------------------------------------------------------------------------

  method CopyTable(table: Bytes, target: array<Byte>)
    requires |table| == target.Length
    modifies target
    ensures target[..] == table
  {
    var index := 0;
    while index < target.Length
      invariant 0 <= index <= target.Length
      invariant forall k | 0 <= k < index :: target[k] == table[k]
    {
      target[index] := table[index];
      index := index + 1;
    }
  }

  method MakeCharFour(charArrayThree: array<Byte>, charArrayFour: array<Byte>)
    requires charArrayThree.Length == 3 && charArrayFour.Length == 4
    modifies charArrayFour
    ensures charArrayFour[..] == Four(charArrayThree[0], charArrayThree[1], charArrayThree[2])
  {
    var table := Four(charArrayThree[0], charArrayThree[1], charArrayThree[2]);
    CopyTable(table, charArrayFour);
  }

  method MakeCharThree(charArrayFour: array<Byte>, charArrayThree: array<Byte>)
    requires charArrayThree.Length == 3 && charArrayFour.Length == 4
    modifies charArrayThree
    ensures charArrayThree[..] == Three(charArrayFour[0], charArrayFour[1], charArrayFour[2], charArrayFour[3])
  {
    var table := Three(charArrayFour[0], charArrayFour[1], charArrayFour[2], charArrayFour[3]);
    CopyTable(table, charArrayThree);
  }

  lemma {:induction false} CharsSplit(a: Bytes, b: Bytes)
    ensures Chars(a + b) == Chars(a) + Chars(b)
  {
    if a == [] {
      assert a + b == b;
    } else {
      assert (a + b)[1..] == a[1..] + b;
      CharsSplit(a[1..], b);
    }
  }

  lemma {:induction false} SextetsSplit(a: Bytes, b: Bytes)
    requires |a| % 3 == 0
    ensures Sextets(a + b) == Sextets(a) + Sextets(b)
  {
    if a == [] {
      assert a + b == b;
    } else {
      assert (a + b)[3..] == a[3..] + b;
      SextetsSplit(a[3..], b);
    }
  }

  /** BASE64_CHARS[idx] for each, behind `ret`. */
  method AppendChars(ret: Bytes, ss: array<Byte>, n: nat) returns (out: Bytes)
    requires n <= ss.Length
    ensures out == ret + Chars(ss[..n])
  {
    out := ret;
    var i := 0;
    while i < n
      invariant 0 <= i <= n && out == ret + Chars(ss[..i])
    {
      CharsSplit(ss[..i], [ss[i]]);
      assert ss[..i + 1] == ss[..i] + [ss[i]];
      out := out + [Char(ss[i])];
      i := i + 1;
    }
  }

  /** One whole group more. */
  lemma GroupAppended(source: Bytes, done: nat)
    requires done + 3 <= |source| && done % 3 == 0
    ensures Chars(Sextets(source[..done + 3])) ==
            Chars(Sextets(source[..done])) + Chars(Four(source[done], source[done + 1], source[done + 2]))
  {
    var a, b := source[..done], source[done..done + 3];
    assert source[..done + 3] == a + b;
    SextetsSplit(a, b);
    assert Sextets(b) == Four(b[0], b[1], b[2]) by { assert b[3..] == []; }
    CharsSplit(Sextets(a), Sextets(b));
  }

  function TailOr0(tail: Bytes, i: nat): Byte {
    if i < |tail| then tail[i] else 0
  }

  /** A last group of one or two bytes. */
  lemma TailAppended(a: Bytes, tail: Bytes)
    requires |a| % 3 == 0 && 0 < |tail| < 3
    ensures Encoded(a + tail) == Chars(Sextets(a))
              + Chars(Four(tail[0], TailOr0(tail, 1), 0)[..|tail| + 1]) + (if |tail| == 1 then [PAD, PAD] else [PAD])
  {
    SextetsSplit(a, tail);
    CharsSplit(Sextets(a), Sextets(tail));
    PadsOfTail(|a|, |tail|);
  }

  lemma PadsOfTail(n: nat, k: nat)
    requires n % 3 == 0 && 0 < k < 3
    ensures Pads(n + k) == if k == 1 then [PAD, PAD] else [PAD]
  {
    assert (n + k) % 3 == k;
  }

  method Encode(source: Bytes) returns (ret: Bytes)
    ensures ret == Encoded(source)
  {
    var it, index := 0, 0;
    var charArrayThree, charArrayFour := new Byte[][0, 0, 0], new Byte[][0, 0, 0, 0];
    ret := [];
    ghost var done := 0;
    while it != |source|
      invariant 0 <= index < 3 && it == done + index <= |source| && done % 3 == 0
      invariant charArrayThree[..index] == source[done..it]
      invariant ret == Chars(Sextets(source[..done]))
      decreases |source| - it
    {
      charArrayThree[index] := source[it];
      index, it := index + 1, it + 1;
      assert charArrayThree[..index] == source[done..it];
      if index != 3 {
        continue;
      }
      ret := AppendGroup(source, done, charArrayThree, charArrayFour, ret);
      index, done := 0, it;
    }
    if index == 0 {
      NoTail(source);
      return;
    }
    ret := EncodeTail(source[..done], source[done..], charArrayThree, charArrayFour, index, ret);
    assert source[..done] + source[done..] == source;
  }

  lemma NoTail(source: Bytes)
    requires |source| % 3 == 0
    ensures Chars(Sextets(source[..|source|])) == Encoded(source)
  {
    assert source[..|source|] == source;
  }

  method AppendGroup(ghost source: Bytes, ghost done: nat, charArrayThree: array<Byte>, charArrayFour: array<Byte>,
                     ret: Bytes) returns (out: Bytes)
    requires charArrayThree.Length == 3 && charArrayFour.Length == 4
    requires done + 3 <= |source| && done % 3 == 0 && charArrayThree[..] == source[done..done + 3]
    requires ret == Chars(Sextets(source[..done]))
    modifies charArrayFour
    ensures out == Chars(Sextets(source[..done + 3])) && (done + 3) % 3 == 0
  {
    GroupAppended(source, done);
    var three := charArrayThree[..];
    assert three[0] == source[done] && three[1] == source[done + 1] && three[2] == source[done + 2];
    MakeCharFour(charArrayThree, charArrayFour);
    out := AppendChars(ret, charArrayFour, 4);
    assert charArrayFour[..4] == charArrayFour[..];
  }

  method EncodeTail(ghost whole: Bytes, ghost tail: Bytes, charArrayThree: array<Byte>, charArrayFour: array<Byte>,
                    index: nat, ret: Bytes) returns (out: Bytes)
    requires charArrayThree.Length == 3 && charArrayFour.Length == 4
    requires |whole| % 3 == 0 && 0 < index == |tail| < 3 && charArrayThree[..index] == tail
    requires ret == Chars(Sextets(whole))
    modifies charArrayThree, charArrayFour
    ensures out == Encoded(whole + tail)
  {
    TailAppended(whole, tail);
    var i := index;
    while i < 3
      invariant index <= i <= 3 && charArrayThree[..index] == tail
      invariant forall k | index <= k < i :: charArrayThree[k] == 0
    {
      charArrayThree[i] := 0;
      i := i + 1;
    }
    MakeCharFour(charArrayThree, charArrayFour);
    assert charArrayFour[..index + 1] == Four(tail[0], TailOr0(tail, 1), 0)[..index + 1];
    out := AppendChars(ret, charArrayFour, index + 1);
    out := AppendPads(out, index);
  }

  method AppendPads(ret: Bytes, index: nat) returns (out: Bytes)
    requires 0 < index < 3
    ensures out == ret + if index == 1 then [PAD, PAD] else [PAD]
  {
    out := ret;
    var i := index;
    while i < 3
      invariant index <= i <= 3 && out == ret + [PAD, PAD][..i - index]
    {
      assert [PAD, PAD][..i - index + 1] == [PAD, PAD][..i - index] + [PAD];
      out := out + [PAD];
      i := i + 1;
    }
  }

  lemma {:induction false} IndicesSplit(a: Bytes, b: Bytes)
    requires InAlphabet(a) && InAlphabet(b)
    ensures InAlphabet(a + b) && Indices(a + b) == Indices(a) + Indices(b) && |Indices(a)| == |a|
  {
    if a == [] {
      assert a + b == b;
    } else {
      assert (a + b)[1..] == a[1..] + b;
      IndicesSplit(a[1..], b);
    }
  }

  lemma {:induction false} FromSextetsSplit(a: Bytes, b: Bytes)
    requires |a| % 4 == 0
    ensures FromSextets(a + b) == FromSextets(a) + FromSextets(b)
  {
    if a == [] {
      assert a + b == b;
    } else {
      assert (a + b)[4..] == a[4..] + b;
      FromSextetsSplit(a[4..], b);
    }
  }

  lemma TextSplits(a: Bytes, b: Bytes)
    requires InAlphabet(a) && InAlphabet(b) && |a| % 4 == 0
    ensures InAlphabet(a + b) && FromSextets(Indices(a + b)) == FromSextets(Indices(a)) + FromSextets(Indices(b))
  {
    IndicesSplit(a, b);
    FromSextetsSplit(Indices(a), Indices(b));
  }

  /** What the last loop makes of a byte: the zeros that fill the group are not in the alphabet. */
  function Lookup(c: Byte): Byte {
    if IsBase64Char(c) then Index(c) else c
  }

  method LookupAll(charArrayFour: array<Byte>)
    requires charArrayFour.Length == 4
    modifies charArrayFour
    ensures forall k | 0 <= k < 4 :: charArrayFour[k] == Lookup(old(charArrayFour[k]))
  {
    var i := 0;
    while i < 4
      invariant 0 <= i <= 4
      invariant forall k | 0 <= k < i :: charArrayFour[k] == Lookup(old(charArrayFour[k]))
      invariant forall k | i <= k < 4 :: charArrayFour[k] == old(charArrayFour[k])
    {
      charArrayFour[i] := Lookup(charArrayFour[i]);
      i := i + 1;
    }
  }

  lemma ShortIndices(tail: Bytes)
    requires InAlphabet(tail) && 0 < |tail| <= 4
    ensures |Indices(tail)| == |tail| && forall i | 0 <= i < |tail| :: Indices(tail)[i] == Lookup(tail[i])
  {
    CharsIndices(tail);
    var ss := Indices(tail);
    forall i | 0 <= i < |tail| ensures ss[i] == Lookup(tail[i]) {
      IndicesAt(tail, i);
    }
  }

  lemma {:induction false} IndicesAt(text: Bytes, i: nat)
    requires InAlphabet(text) && i < |text|
    ensures |Indices(text)| == |text| && Indices(text)[i] == Index(text[i])
  {
    CharsIndices(text);
    if i == 0 {
    } else {
      IndicesAt(text[1..], i - 1);
    }
  }

  method DecodeGroup(ghost group: Bytes, charArrayFour: array<Byte>, charArrayThree: array<Byte>, ret: Bytes)
    returns (out: Bytes)
    requires charArrayThree.Length == 3 && charArrayFour.Length == 4 && charArrayFour != charArrayThree
    requires |group| == 4 && InAlphabet(group) && charArrayFour[..] == group
    modifies charArrayFour, charArrayThree
    ensures out == ret + FromSextets(Indices(group))
  {
    ShortIndices(group);
    LookupAll(charArrayFour);
    MakeCharThree(charArrayFour, charArrayThree);
    ghost var ss := Indices(group);
    assert forall k | 0 <= k < 4 :: group[k] == old(charArrayFour[k]);
    assert charArrayFour[0] == ss[0] && charArrayFour[1] == ss[1] && charArrayFour[2] == ss[2] && charArrayFour[3] == ss[3];
    OneGroup(ss);
    out := ret + charArrayThree[..];
  }

  lemma OneGroup(ss: Bytes)
    requires |ss| == 4
    ensures FromSextets(ss) == Three(ss[0], ss[1], ss[2], ss[3])
  {
    assert ss[4..] == [];
  }

  function LookupOr0(tail: Bytes, i: nat): Byte {
    if i < |tail| then Lookup(tail[i]) else 0
  }

  lemma ShortTail(tail: Bytes)
    requires InAlphabet(tail) && 0 < |tail| < 4
    ensures FromSextets(Indices(tail)) ==
            Three(LookupOr0(tail, 0), LookupOr0(tail, 1), LookupOr0(tail, 2), 0)[..|tail| - 1]
  {
    ShortIndices(tail);
  }

  method DecodeTail(ghost tail: Bytes, charArrayFour: array<Byte>, charArrayThree: array<Byte>, index: nat, ret: Bytes)
    returns (out: Bytes)
    requires charArrayThree.Length == 3 && charArrayFour.Length == 4 && charArrayFour != charArrayThree
    requires 0 < index == |tail| < 4 && InAlphabet(tail) && charArrayFour[..index] == tail
    modifies charArrayFour, charArrayThree
    ensures out == ret + FromSextets(Indices(tail))
  {
    var i := index;
    while i < 4
      invariant index <= i <= 4 && charArrayFour[..index] == tail
      invariant forall k | index <= k < i :: charArrayFour[k] == 0
    {
      charArrayFour[i] := 0;
      i := i + 1;
    }
    assert forall k | 0 <= k < index :: charArrayFour[k] == tail[k];
    LookupAll(charArrayFour);
    assert forall k | 0 <= k < 4 :: charArrayFour[k] == LookupOr0(tail, k);
    MakeCharThree(charArrayFour, charArrayThree);
    ShortTail(tail);
    out := AppendBytes(ret, charArrayThree, index - 1);
  }

  method AppendBytes(ret: Bytes, bytes: array<Byte>, n: nat) returns (out: Bytes)
    requires n <= bytes.Length
    ensures out == ret + bytes[..][..n]
  {
    out := ret;
    var i := 0;
    while i < n
      invariant 0 <= i <= n && out == ret + bytes[..i]
    {
      assert bytes[..i + 1] == bytes[..i] + [bytes[i]];
      out := out + [bytes[i]];
      i := i + 1;
    }
  }

  lemma TextGroup(text: Bytes, done: nat)
    requires done + 4 <= |text| && done % 4 == 0 && InAlphabet(text[..done]) && InAlphabet(text[done..done + 4])
    ensures InAlphabet(text[..done + 4]) && (done + 4) % 4 == 0
    ensures FromSextets(Indices(text[..done + 4])) ==
            FromSextets(Indices(text[..done])) + FromSextets(Indices(text[done..done + 4]))
  {
    assert text[..done + 4] == text[..done] + text[done..done + 4];
    TextSplits(text[..done], text[done..done + 4]);
  }

  lemma TextTail(text: Bytes, done: nat, it: nat)
    requires done <= it <= |text| && done % 4 == 0 && InAlphabet(text[..done]) && InAlphabet(text[done..it])
    requires it == |text| || !IsBase64Char(text[it])
    ensures Decoded(text) == FromSextets(Indices(text[..done])) + FromSextets(Indices(text[done..it]))
  {
    assert text[..it] == text[..done] + text[done..it];
    TextSplits(text[..done], text[done..it]);
    assert text == text[..it] + text[it..];
    BodyStops(text[..it], text[it..]);
  }

  lemma OneMore(text: Bytes, done: nat, it: nat)
    requires done <= it < |text| && InAlphabet(text[done..it]) && IsBase64Char(text[it])
    ensures InAlphabet(text[done..it + 1]) && text[done..it + 1] == text[done..it] + [text[it]]
  {
    assert text[done..it + 1] == text[done..it] + [text[it]];
  }

  method DecodeNext(ghost text: Bytes, ghost done: nat, charArrayFour: array<Byte>, charArrayThree: array<Byte>,
                    ret: Bytes) returns (out: Bytes)
    requires charArrayThree.Length == 3 && charArrayFour.Length == 4 && charArrayFour != charArrayThree
    requires done + 4 <= |text| && done % 4 == 0 && InAlphabet(text[..done]) && InAlphabet(text[done..done + 4])
    requires charArrayFour[..4] == text[done..done + 4] && ret == FromSextets(Indices(text[..done]))
    modifies charArrayFour, charArrayThree
    ensures InAlphabet(text[..done + 4]) && (done + 4) % 4 == 0
    ensures out == FromSextets(Indices(text[..done + 4]))
  {
    TextGroup(text, done);
    assert charArrayFour[..] == charArrayFour[..4];
    out := DecodeGroup(text[done..done + 4], charArrayFour, charArrayThree, ret);
  }

  method Decode(encoded: Bytes) returns (ret: Bytes)
    ensures ret == Decoded(encoded)
  {
    var it, index := 0, 0;
    var charArrayThree, charArrayFour := new Byte[][0, 0, 0], new Byte[][0, 0, 0, 0];
    ret := [];
    ghost var done := 0;
    while it != |encoded| && IsBase64Char(encoded[it])
      invariant 0 <= index < 4 && it == done + index <= |encoded| && done % 4 == 0
      invariant charArrayFour[..index] == encoded[done..it]
      invariant InAlphabet(encoded[..done]) && InAlphabet(encoded[done..it])
      invariant ret == FromSextets(Indices(encoded[..done]))
      decreases |encoded| - it
    {
      OneMore(encoded, done, it);
      charArrayFour[index] := encoded[it];
      index, it := index + 1, it + 1;
      assert charArrayFour[..index] == encoded[done..it];
      if index != 4 {
        continue;
      }
      ret := DecodeNext(encoded, done, charArrayFour, charArrayThree, ret);
      index, done := 0, it;
    }
    TextTail(encoded, done, it);
    if index == 0 {
      return;
    }
    ret := DecodeTail(encoded[done..it], charArrayFour, charArrayThree, index, ret);
  }
}
