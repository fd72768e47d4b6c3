/**
  RdbCloudDataTranslate: assets as blobs. A blob is a magic word, a 16-bit number and what it counts,
  all little-endian.
 */
module AssetBlob {
  import opened Wrappers

  type Byte = b: nat | b < 256
  type Bytes = seq<Byte>

  const ASSET_MAGIC := 0x41534554
  const ASSETS_MAGIC := 0x41534553
  const HEAD := 6

  /** What InnerAsset::Unmarshall makes of a JSON text; it fails on a text that is not here. */
  type Reader<A> = map<Bytes, A>

  // ---- Numbers -----------------------------------------------------------------------------------

  /** HostToNet of a 16-bit number; a longer one is truncated first. */
  function Le16(n: nat): Bytes {
    [n % 256, n / 256 % 256]
  }

  function Le32(n: nat): Bytes {
    [n % 256, n / 256 % 256, n / 65536 % 256, n / 16777216 % 256]
  }

  function Read16(b: Bytes): nat
    requires |b| == 2
  {
    b[0] as int + 256 * b[1] as int
  }

  function Read32(b: Bytes): nat
    requires |b| == 4
  {
    b[0] as int + 256 * b[1] as int + 65536 * b[2] as int + 16777216 * b[3] as int
  }

  lemma MagicBytes()
    ensures Le32(ASSET_MAGIC) == [0x54, 0x45, 0x53, 0x41] && Le32(ASSETS_MAGIC) == [0x53, 0x45, 0x53, 0x41]
  {
  }

  lemma ReadsMagic(b: Bytes)
    requires |b| == 4
    ensures Read32(b) == ASSET_MAGIC <==> b == Le32(ASSET_MAGIC)
    ensures Read32(b) == ASSETS_MAGIC <==> b == Le32(ASSETS_MAGIC)
  {
    MagicBytes();
    assert b == [b[0], b[1], b[2], b[3]];
  }

  lemma ReadsSize(n: nat)
    ensures Read16(Le16(n)) == n % 65536
  {
    var h, l := n / 256, n % 256;
    var q, r := h / 256, h % 256;
    assert n == 65536 * q + (256 * r + l);
    Remainder(n, q, 256 * r + l);
  }

  lemma Remainder(n: nat, q: nat, r: nat)
    requires n == 65536 * q + r && r < 65536
    ensures n % 65536 == r
  {
  }

  // ---- One asset ---------------------------------------------------------------------------------

  function Frame(payload: Bytes): Bytes {
    Le32(ASSET_MAGIC) + Le16(|payload|) + payload
  }

  /** ParserRawData for one asset: the asset and the bytes used, or nothing where it answers 0. */
  function Parse<A>(c: Reader<A>, data: Bytes): (r: Option<(A, nat)>)
    ensures r.Some? ==> HEAD <= r.value.1 <= |data|
  {
    if |data| < HEAD || Read32(data[..4]) != ASSET_MAGIC then None
    else
      var size := Read16(data[4..HEAD]);
      if size > |data| - HEAD then None
      else if data[HEAD..HEAD + size] !in c then None
      else Some((c[data[HEAD..HEAD + size]], HEAD + size))
  }

  lemma HeadOfFrame(payload: Bytes, rest: Bytes)
    ensures var data := Frame(payload) + rest;
      |data| == HEAD + |payload| + |rest| && Read32(data[..4]) == ASSET_MAGIC
      && Read16(data[4..HEAD]) == |payload| % 65536 && data[HEAD..] == payload + rest
  {
    var data := Frame(payload) + rest;
    assert data[..4] == Le32(ASSET_MAGIC);
    assert data[4..HEAD] == Le16(|payload|);
    ReadsMagic(data[..4]);
    ReadsSize(|payload|);
  }

  /** A frame whose payload reads as `a` is at the front of the data. */
  ghost predicate IsFrameOf<A>(c: Reader<A>, payload: Bytes, a: A, data: Bytes) {
    |payload| < 65536 && Frame(payload) <= data && payload in c && c[payload] == a
  }

  ghost predicate NoFrame<A(!new)>(c: Reader<A>, data: Bytes) {
    forall payload: Bytes, a: A :: !IsFrameOf(c, payload, a, data)
  }

  lemma FrameParses<A>(c: Reader<A>, payload: Bytes, a: A, data: Bytes)
    requires IsFrameOf(c, payload, a, data)
    ensures Parse(c, data) == Some((a, HEAD + |payload|))
  {
    var rest := data[|Frame(payload)|..];
    assert data == Frame(payload) + rest;
    HeadOfFrame(payload, rest);
    assert data[HEAD..HEAD + |payload|] == data[HEAD..][..|payload|] == payload;
  }

  lemma ParsedIsFrame<A>(c: Reader<A>, data: Bytes, a: A, n: nat)
    requires Parse(c, data) == Some((a, n))
    ensures HEAD <= n <= |data| && IsFrameOf(c, data[HEAD..n], a, data) && n == |Frame(data[HEAD..n])|
  {
    var payload := data[HEAD..n];
    ReadsMagic(data[..4]);
    SizeReads(data[4..HEAD]);
    assert data[..4] + data[4..HEAD] + payload == data[..n];
  }

  lemma SizeReads(b: Bytes)
    requires |b| == 2
    ensures Le16(Read16(b)) == b && Read16(b) < 65536
  {
  }

  /** Nothing is parsed exactly when no readable frame is at the front. */
  lemma ParsesNothing<A(!new)>(c: Reader<A>, data: Bytes)
    ensures Parse(c, data) == None <==> NoFrame(c, data)
  {
    match Parse(c, data) {
      case Some(r) => ParsedIsFrame(c, data, r.0, r.1);
      case None =>
        forall payload: Bytes, a: A ensures !IsFrameOf(c, payload, a, data) {
          if IsFrameOf(c, payload, a, data) {
            FrameParses(c, payload, a, data);
          }
        }
    }
  }

  /** A frame that was cut short is not parsed, whatever its payload. */
  lemma CutFrame<A>(c: Reader<A>, payload: Bytes, k: nat)
    requires |payload| < 65536 && k < |Frame(payload)|
    ensures Parse(c, Frame(payload)[..k]) == None
  {
    HeadOfFrame(payload, []);
    var frame := Frame(payload);
    assert frame + [] == frame;
    if k >= HEAD {
      assert frame[..k][..4] == frame[..4] && frame[..k][4..HEAD] == frame[4..HEAD];
    }
  }

  // ---- A list of assets --------------------------------------------------------------------------

  function FramesOf(payloads: seq<Bytes>): Bytes {
    if payloads == [] then [] else Frame(payloads[0]) + FramesOf(payloads[1..])
  }

  datatype Parsed<A> = Parsed(assets: seq<A>, used: nat)

  /** The loop of ParserRawData for a list: at most `num` assets, and the bytes they used. */
  function ParseFrames<A>(c: Reader<A>, data: Bytes, num: nat): Parsed<A> {
    if num == 0 || data == [] then Parsed([], 0)
    else match Parse(c, data)
      case None => Parsed([], 0)
      case Some(r) =>
        var more := ParseFrames(c, data[r.1..], num - 1);
        Parsed([r.0] + more.assets, r.1 + more.used)
  }

  /** `xs` are what the payloads read as. */
  ghost predicate ReadAs<A>(c: Reader<A>, payloads: seq<Bytes>, xs: seq<A>) {
    |xs| == |payloads| && forall i | 0 <= i < |xs| :: |payloads[i]| < 65536 && payloads[i] in c && c[payloads[i]] == xs[i]
  }

  /** The bytes used are readable frames, and no further one follows unless `num` were found. */
  ghost predicate IsParsed<A(!new)>(c: Reader<A>, data: Bytes, num: nat, payloads: seq<Bytes>, xs: seq<A>, used: nat) {
    && ReadAs(c, payloads, xs) && |xs| <= num
    && used <= |data| && data[..used] == FramesOf(payloads)
    && (|xs| < num ==> NoFrame(c, data[used..]))
  }

  lemma FramesThen(payload: Bytes, more: seq<Bytes>)
    ensures FramesOf([payload] + more) == Frame(payload) + FramesOf(more)
  {
    assert ([payload] + more)[1..] == more;
  }

  lemma ParseThen<A>(c: Reader<A>, data: Bytes, num: nat, a: A, n: nat, behind: Bytes, xs: seq<A>, used: nat)
    requires num > 0 && Parse(c, data) == Some((a, n)) && n <= |data| && behind == data[n..]
    requires ParseFrames(c, behind, num - 1) == Parsed(xs, used)
    ensures ParseFrames(c, data, num) == Parsed([a] + xs, n + used)
  {
  }

  lemma IsParsedThen<A(!new)>(
      c: Reader<A>, data: Bytes, num: nat, a: A, n: nat, more: seq<Bytes>, xs: seq<A>, used: nat)
    requires num > 0 && HEAD <= n <= |data| && IsFrameOf(c, data[HEAD..n], a, data) && n == |Frame(data[HEAD..n])|
    requires IsParsed(c, data[n..], num - 1, more, xs, used)
    ensures IsParsed(c, data, num, [data[HEAD..n]] + more, [a] + xs, n + used)
  {
    var payload := data[HEAD..n];
    FramesThen(payload, more);
    assert data[..n + used] == data[..n] + data[n..][..used];
    assert data[..n] == Frame(payload);
    assert data[n + used..] == data[n..][used..];
  }

  /** Whatever the data, what is parsed is what is there. */
  lemma {:induction false} FramesSound<A(!new)>(c: Reader<A>, data: Bytes, num: nat) returns (payloads: seq<Bytes>)
    ensures IsParsed(c, data, num, payloads, ParseFrames(c, data, num).assets, ParseFrames(c, data, num).used)
    decreases num
  {
    if num > 0 && Parse(c, data).Some? {
      var (a, n) := Parse(c, data).value;
      var Parsed(xs, used) := ParseFrames(c, data[n..], num - 1);
      var more := FramesSound(c, data[n..], num - 1);
      payloads := [data[HEAD..n]] + more;
      ParsedIsFrame(c, data, a, n);
      IsParsedThen(c, data, num, a, n, more, xs, used);
      ParseThen(c, data, num, a, n, data[n..], xs, used);
    } else {
      NothingParsed(c, data, num);
      payloads := [];
    }
  }

  lemma NothingParsed<A(!new)>(c: Reader<A>, data: Bytes, num: nat)
    requires num == 0 || Parse(c, data) == None
    ensures ParseFrames(c, data, num) == Parsed([], 0) && IsParsed(c, data, num, [], [], 0)
  {
    ParsesNothing(c, data);
    assert data[0..] == data;
  }

  /** And what is there is parsed. */
  lemma {:induction false} FramesComplete<A(!new)>(
      c: Reader<A>, payloads: seq<Bytes>, xs: seq<A>, rest: Bytes, num: nat)
    requires ReadAs(c, payloads, xs) && |xs| <= num && (|xs| < num ==> NoFrame(c, rest))
    ensures ParseFrames(c, FramesOf(payloads) + rest, num) == Parsed(xs, |FramesOf(payloads)|)
    decreases num
  {
    var data := FramesOf(payloads) + rest;
    if xs == [] {
      assert data == rest;
      ParsesNothing(c, rest);
      NothingParsed(c, rest, num);
    } else {
      var behind := FramesOf(payloads[1..]);
      FramesComplete(c, payloads[1..], xs[1..], rest, num - 1);
      OneParsed(c, payloads[0], xs[0], behind, rest, num, xs[1..]);
      assert xs == [xs[0]] + xs[1..];
    }
  }

  lemma OneParsed<A>(c: Reader<A>, payload: Bytes, a: A, behind: Bytes, rest: Bytes, num: nat, xs: seq<A>)
    requires num > 0 && |payload| < 65536 && payload in c && c[payload] == a
    requires ParseFrames(c, behind + rest, num - 1) == Parsed(xs, |behind|)
    ensures ParseFrames(c, Frame(payload) + behind + rest, num) == Parsed([a] + xs, |Frame(payload)| + |behind|)
  {
    var frame := Frame(payload);
    var data := frame + behind + rest;
    Regroup(frame, behind, rest);
    FrameParses(c, payload, a, data);
    ParseThen(c, data, num, a, |frame|, behind + rest, xs, |behind|);
  }

  lemma Regroup(a: Bytes, b: Bytes, c: Bytes)
    ensures a + b + c == a + (b + c) && a <= a + b + c && (a + b + c)[|a|..] == b + c
  {
  }

  // ---- Blobs of lists ----------------------------------------------------------------------------

  /** What ParserRawData takes for the number of assets: it reads the first two bytes of the magic word. */
  const READ_AS_NUM := 0x4553

  /** Texts that can be read back, none longer than a 16-bit length can say. */
  ghost predicate AllReadable<A>(c: Reader<A>, texts: seq<Bytes>) {
    forall t | t in texts :: |t| < 65536 && t in c
  }

  ghost function Readings<A>(c: Reader<A>, texts: seq<Bytes>): (xs: seq<A>)
    requires AllReadable(c, texts)
    ensures ReadAs(c, texts, xs)
  {
    if texts == [] then [] else [c[texts[0]]] + Readings(c, texts[1..])
  }

  function ListHead(n: nat): Bytes {
    Le32(ASSETS_MAGIC) + Le16(n)
  }

  /** AssetsToBlob, of the assets with these texts. */
  function ListBlob(texts: seq<Bytes>): Bytes {
    ListHead(|texts|) + FramesOf(texts)
  }

  function ParseList<A>(c: Reader<A>, data: Bytes): Parsed<A> {
    if |data| < 4 || Read32(data[..4]) != ASSETS_MAGIC || |data| < HEAD then Parsed([], 0)
    else
      var parsed := ParseFrames(c, data[HEAD..], Read16(data[..2]));
      Parsed(parsed.assets, HEAD + parsed.used)
  }

  lemma NumIsMagic(data: Bytes)
    requires |data| >= 4 && Read32(data[..4]) == ASSETS_MAGIC
    ensures Read16(data[..2]) == READ_AS_NUM
  {
    ReadsMagic(data[..4]);
    MagicBytes();
    assert data[..2] == data[..4][..2];
  }

  lemma ListHeadReads(n: nat, body: Bytes)
    ensures var data := ListHead(n) + body;
      |data| >= HEAD && Read32(data[..4]) == ASSETS_MAGIC && data[HEAD..] == body
  {
    var data := ListHead(n) + body;
    assert data[..4] == Le32(ASSETS_MAGIC);
    ReadsMagic(data[..4]);
  }

  /** What the head of a list says: "SESA", then how many assets follow, modulo 2^16. */
  lemma ListHeadSays(texts: seq<Bytes>)
    ensures |ListBlob(texts)| >= 6 && ListBlob(texts)[..4] == [0x53, 0x45, 0x53, 0x41]
    ensures Read16(ListBlob(texts)[4..6]) == |texts| % 65536
  {
    var blob := ListBlob(texts);
    MagicBytes();
    ReadsSize(|texts|);
    assert blob[..4] == Le32(ASSETS_MAGIC) && blob[4..6] == Le16(|texts|);
  }

  lemma ListParses<A>(c: Reader<A>, n: nat, body: Bytes)
    ensures var parsed := ParseFrames(c, body, READ_AS_NUM);
      ParseList(c, ListHead(n) + body) == Parsed(parsed.assets, HEAD + parsed.used)
  {
    ListHeadReads(n, body);
    NumIsMagic(ListHead(n) + body);
  }

  lemma {:induction false} FramesSplit(a: seq<Bytes>, b: seq<Bytes>)
    ensures FramesOf(a + b) == FramesOf(a) + FramesOf(b)
  {
    if a == [] {
      assert a + b == b;
    } else {
      var x, y := FramesOf(a[1..]), FramesOf(b);
      FramesSplit(a[1..], b);
      FirstFrame(a, b);
      FirstFrame(a, []);
      Regroup(Frame(a[0]), x, y);
    }
  }

  lemma FirstFrame(a: seq<Bytes>, b: seq<Bytes>)
    requires a != []
    ensures FramesOf(a + b) == Frame(a[0]) + FramesOf(a[1..] + b) && a + [] == a && a[1..] + [] == a[1..]
  {
    FramesThen(a[0], a[1..] + b);
    assert a + b == [a[0]] + (a[1..] + b);
  }

  lemma NothingIsNoFrame<A(!new)>(c: Reader<A>)
    ensures NoFrame(c, [])
  {
    ParsesNothing(c, []);
  }

  /** The first `k` bytes of the frames: `m` whole ones, and a piece that is no frame. */
  lemma CutFrames<A(!new)>(c: Reader<A>, payloads: seq<Bytes>, k: nat, m: nat) returns (piece: Bytes)
    requires (forall p | p in payloads :: |p| < 65536) && IsCut(payloads, k, m)
    ensures FramesOf(payloads)[..k] == FramesOf(payloads[..m]) + piece && NoFrame(c, piece)
  {
    if m == |payloads| {
      piece := [];
      NothingIsNoFrame(c);
      assert payloads[..m] == payloads;
    } else {
      var front, p := FramesOf(payloads[..m]), payloads[m];
      OneFrameMore(payloads, m);
      piece := Frame(p)[..k - |front|];
      CutFrame(c, p, k - |front|);
      ParsesNothing(c, piece);
      FramesAround(payloads, m);
      CutInside(front, Frame(p), FramesOf(payloads[m + 1..]), k);
    }
  }

  lemma FramesAround(payloads: seq<Bytes>, m: nat)
    requires m < |payloads|
    ensures FramesOf(payloads) == FramesOf(payloads[..m]) + (Frame(payloads[m]) + FramesOf(payloads[m + 1..]))
  {
    assert payloads == payloads[..m] + payloads[m..];
    FramesSplit(payloads[..m], payloads[m..]);
    assert payloads[m..] == [payloads[m]] + payloads[m + 1..];
    FramesThen(payloads[m], payloads[m + 1..]);
  }

  /** A cut after `k` bytes leaves `m` frames whole. */
  predicate IsCut(payloads: seq<Bytes>, k: nat, m: nat) {
    && m <= |payloads|
    && |FramesOf(payloads[..m])| <= k <= |FramesOf(payloads)|
    && (m < |payloads| ==> k < |FramesOf(payloads[..m + 1])|)
  }

  lemma OneFrameMore(payloads: seq<Bytes>, m: nat)
    requires m < |payloads|
    ensures FramesOf(payloads[..m + 1]) == FramesOf(payloads[..m]) + Frame(payloads[m])
  {
    assert payloads[..m + 1] == payloads[..m] + [payloads[m]];
    FramesSplit(payloads[..m], [payloads[m]]);
    FramesThen(payloads[m], []);
    assert [payloads[m]] + [] == [payloads[m]];
  }

  lemma CutInside(a: Bytes, b: Bytes, c: Bytes, k: nat)
    requires |a| <= k <= |a| + |b|
    ensures (a + (b + c))[..k] == a + b[..k - |a|]
  {
  }

  function Min(a: nat, b: nat): nat {
    if a < b then a else b
  }

  lemma ReadAsFront<A>(c: Reader<A>, texts: seq<Bytes>, xs: seq<A>, m: nat)
    requires ReadAs(c, texts, xs) && m <= |texts|
    ensures ReadAs(c, texts[..m], xs[..m])
  {
  }

  lemma SplitAt(texts: seq<Bytes>, num: nat, m: nat, piece: Bytes)
    requires num <= m <= |texts|
    ensures FramesOf(texts[..m]) + piece == FramesOf(texts[..num]) + (FramesOf(texts[num..m]) + piece)
  {
    FramesSplit(texts[..num], texts[num..m]);
    assert texts[..m] == texts[..num] + texts[num..m];
    Regroup(FramesOf(texts[..num]), FramesOf(texts[num..m]), piece);
  }

  /** Frames of a cut list, parsed with room for `num` assets. */
  lemma CutFramesParse<A(!new)>(c: Reader<A>, texts: seq<Bytes>, k: nat, m: nat, num: nat)
    requires AllReadable(c, texts) && IsCut(texts, k, m)
    ensures ParseFrames(c, FramesOf(texts)[..k], num).assets == Readings(c, texts)[..Min(m, num)]
  {
    var n, xs := Min(m, num), Readings(c, texts);
    var piece := CutFrames(c, texts, k, m);
    var rest := FramesOf(texts[n..m]) + piece;
    SplitAt(texts, n, m, piece);
    if n == m {
      assert texts[n..m] == [] && rest == piece;
    }
    ReadAsFront(c, texts, xs, n);
    FramesComplete(c, texts[..n], xs[..n], rest, num);
  }

  /** A blob cut anywhere behind its head gives back the assets whose frames are whole, up to READ_AS_NUM of them. */
  lemma CutBlobParses<A(!new)>(c: Reader<A>, texts: seq<Bytes>, k: nat, m: nat)
    requires AllReadable(c, texts) && IsCut(texts, k, m)
    ensures ParseList(c, ListBlob(texts)[..HEAD + k]).assets == Readings(c, texts)[..Min(m, READ_AS_NUM)]
  {
    var frames := FramesOf(texts);
    assert ListBlob(texts)[..HEAD + k] == ListHead(|texts|) + frames[..k];
    ListParses(c, |texts|, frames[..k]);
    CutFramesParse(c, texts, k, m, READ_AS_NUM);
  }

  /** A text of 65536 bytes or more is read as its first bytes only, as many as its truncated length says. */
  lemma LongTextIsNoFrame<A(!new)>(c: Reader<A>, text: Bytes, rest: Bytes)
    requires text[..|text| % 65536] !in c
    ensures NoFrame(c, Frame(text) + rest)
  {
    var data, size := Frame(text) + rest, |text| % 65536;
    HeadOfFrame(text, rest);
    assert data[HEAD..HEAD + size] == data[HEAD..][..size] == text[..size];
    ParsesNothing(c, data);
  }

  /** If those bytes cannot be read, a list gives back the assets in front of such a text, and no more. */
  lemma LongTextStops<A(!new)>(c: Reader<A>, texts: seq<Bytes>, j: nat)
    requires j < |texts| && AllReadable(c, texts[..j]) && texts[j][..|texts[j]| % 65536] !in c
    ensures ParseList(c, ListBlob(texts)).assets == Readings(c, texts[..j])[..Min(j, READ_AS_NUM)]
  {
    var n, front := Min(j, READ_AS_NUM), texts[..j];
    var xs, behind := Readings(c, front), FramesOf(texts[j + 1..]);
    var piece := Frame(texts[j]) + behind;
    FramesAround(texts, j);
    LongTextIsNoFrame(c, texts[j], behind);
    var rest := FramesOf(front[n..j]) + piece;
    SplitAt(front, n, j, piece);
    assert front[..j] == front;
    if n == j {
      assert front[n..j] == [] && rest == piece;
    }
    ReadAsFront(c, front, xs, n);
    FramesComplete(c, front[..n], xs[..n], rest, READ_AS_NUM);
    ListParses(c, |texts|, FramesOf(texts));
  }

  /** Cut inside its head, it gives back nothing. */
  lemma CutHeadParses<A>(c: Reader<A>, texts: seq<Bytes>, k: nat)
    requires k < HEAD
    ensures ParseList(c, ListBlob(texts)[..k]) == Parsed([], 0)
  {
  }

  /** The whole blob gives back the whole list exactly when it is no longer than READ_AS_NUM. */
  lemma BlobRoundTrip<A(!new)>(c: Reader<A>, texts: seq<Bytes>)
    requires AllReadable(c, texts)
    ensures ParseList(c, ListBlob(texts)).assets == Readings(c, texts)[..Min(|texts|, READ_AS_NUM)]
    ensures ParseList(c, ListBlob(texts)).assets == Readings(c, texts) <==> |texts| <= READ_AS_NUM
  {
    WholeIsCut(texts);
    CutBlobParses(c, texts, |FramesOf(texts)|, |texts|);
    FrontIsAll(Readings(c, texts), Min(|texts|, READ_AS_NUM));
  }

  lemma WholeIsCut(texts: seq<Bytes>)
    ensures IsCut(texts, |FramesOf(texts)|, |texts|) && ListBlob(texts)[..HEAD + |FramesOf(texts)|] == ListBlob(texts)
  {
    assert texts[..|texts|] == texts;
  }

  lemma FrontIsAll<T>(s: seq<T>, n: nat)
    requires n <= |s|
    ensures s[..n] == s <==> n == |s|
  {
  }

  /** Whatever the blob: what is parsed are the frames behind the head, as many as there are, up to READ_AS_NUM. */
  lemma ListSound<A(!new)>(c: Reader<A>, data: Bytes) returns (payloads: seq<Bytes>)
    requires |data| >= HEAD && data[..4] == Le32(ASSETS_MAGIC)
    ensures var r := ParseList(c, data);
      r.used >= HEAD && IsParsed(c, data[HEAD..], READ_AS_NUM, payloads, r.assets, r.used - HEAD)
  {
    ReadsMagic(data[..4]);
    NumIsMagic(data);
    payloads := FramesSound(c, data[HEAD..], READ_AS_NUM);
  }

  // ---- The code ----------------------------------------------------------------------------------

  /** AssetToBlob, of the asset with this text. */
  method AssetToBlob(text: Bytes) returns (rawData: Bytes)
    ensures rawData == Frame(text)
  {
    rawData := [];
    rawData := rawData + Le32(ASSET_MAGIC);
    rawData := rawData + Le16(|text|);
    rawData := rawData + text;
  }

  method AssetsToBlob(texts: seq<Bytes>) returns (rawData: Bytes)
    ensures rawData == ListBlob(texts)
  {
    rawData := Le32(ASSETS_MAGIC) + Le16(|texts|);
    var i := 0;
    while i < |texts|
      invariant 0 <= i <= |texts| && rawData == ListHead(|texts|) + FramesOf(texts[..i])
    {
      var data := AssetToBlob(texts[i]);
      OneFrameMore(texts, i);
      Regroup(ListHead(|texts|), FramesOf(texts[..i]), data);
      rawData := rawData + data;
      i := i + 1;
    }
    assert texts[..i] == texts;
  }

  /** ParserRawData for one asset; it answers 0 where there is none. */
  method ParseAsset<A>(c: Reader<A>, data: Bytes) returns (used: nat, asset: Option<A>)
    ensures used == 0 ==> asset == None && Parse(c, data) == None
    ensures used > 0 ==> asset.Some? && used <= |data| && Parse(c, data) == Some((asset.value, used))
  {
    asset := None;
    if |data| == 0 {
      return 0, None;
    }
    used := 0;
    if 4 > |data| - used {
      return 0, None;
    }
    var alignData := data[..4];
    used := used + 4;
    if Read32(alignData) != ASSET_MAGIC {
      return 0, None;
    }
    if 2 > |data| - used {
      return 0, None;
    }
    alignData := data[used..used + 2];
    used := used + 2;
    var size := Read16(alignData);
    if size > |data| - used {
      return 0, None;
    }
    var text := data[used..used + size];
    if text !in c {
      return 0, None;
    }
    return used + size, Some(c[text]);
  }

  /** ParserRawData for a list. */
  method ParseAssets<A(!new)>(c: Reader<A>, data: Bytes) returns (used: nat, assets: seq<A>)
    ensures Parsed(assets, used) == ParseList(c, data)
  {
    assets := [];
    if |data| == 0 || 4 > |data| || Read32(data[..4]) != ASSETS_MAGIC || 2 > |data| - 4 {
      return 0, [];
    }
    used := 4;
    var num := Read16(data[..2]);
    used := used + 2;
    ghost var texts;
    used, assets, texts := ParseLoop(c, data, num);
    IsParsedIsAll(c, data[HEAD..], num, texts, assets, used - HEAD);
  }

  /** So much of the data was read: these texts, as these assets. */
  ghost predicate ReadSoFar<A>(c: Reader<A>, data: Bytes, used: nat, texts: seq<Bytes>, assets: seq<A>) {
    HEAD <= used <= |data| && ReadAs(c, texts, assets) && data[HEAD..used] == FramesOf(texts)
  }

  method ParseLoop<A(!new)>(c: Reader<A>, data: Bytes, num: nat)
    returns (used: nat, assets: seq<A>, ghost texts: seq<Bytes>)
    requires |data| >= HEAD
    ensures used >= HEAD && IsParsed(c, data[HEAD..], num, texts, assets, used - HEAD)
  {
    used, assets, texts := HEAD, [], [];
    var count := 0;
    while used < |data| && count < num
      invariant count == |assets| <= num && ReadSoFar(c, data, used, texts, assets)
      decreases num - count
    {
      var dataLen, asset;
      ghost var text;
      dataLen, asset, text := ParseNext(c, data, used, texts, assets);
      if dataLen == 0 {
        LoopStops(c, data, num, used, texts, assets);
        return;
      }
      used, assets, texts, count := used + dataLen, assets + [asset.value], texts + [text], count + 1;
    }
    NothingIsNoFrame(c);
    LoopStops(c, data, num, used, texts, assets);
  }

  method ParseNext<A(!new)>(c: Reader<A>, data: Bytes, used: nat, ghost texts: seq<Bytes>, ghost assets: seq<A>)
    returns (dataLen: nat, asset: Option<A>, ghost text: Bytes)
    requires ReadSoFar(c, data, used, texts, assets)
    ensures dataLen == 0 ==> NoFrame(c, data[used..])
    ensures dataLen > 0 ==> asset.Some? && ReadSoFar(c, data, used + dataLen, texts + [text], assets + [asset.value])
  {
    dataLen, asset := ParseAsset(c, data[used..]);
    text := [];
    ParsesNothing(c, data[used..]);
    if dataLen > 0 {
      text := data[used..][HEAD..dataLen];
      ReadOneMore(c, data, used, texts, assets, asset.value, dataLen, text);
    }
  }

  lemma ReadOneMore<A>(
      c: Reader<A>, data: Bytes, used: nat, texts: seq<Bytes>, assets: seq<A>, a: A, n: nat, text: Bytes)
    requires ReadSoFar(c, data, used, texts, assets) && Parse(c, data[used..]) == Some((a, n))
    requires HEAD <= n <= |data| - used && text == data[used..][HEAD..n]
    ensures ReadSoFar(c, data, used + n, texts + [text], assets + [a])
  {
    ParsedIsFrame(c, data[used..], a, n);
    assert data[HEAD..used + n] == data[HEAD..used] + data[used..][..n];
    assert data[used..][..n] == Frame(text);
    FramesSplit(texts, [text]);
    FramesThen(text, []);
    assert [text] + [] == [text] && FramesOf([text]) == Frame(text);
  }

  lemma LoopStops<A(!new)>(c: Reader<A>, data: Bytes, num: nat, used: nat, texts: seq<Bytes>, assets: seq<A>)
    requires ReadSoFar(c, data, used, texts, assets) && |assets| <= num
    requires |assets| == num || NoFrame(c, data[used..])
    ensures IsParsed(c, data[HEAD..], num, texts, assets, used - HEAD)
  {
    assert data[HEAD..][..used - HEAD] == data[HEAD..used];
    assert data[HEAD..][used - HEAD..] == data[used..];
  }

  lemma IsParsedIsAll<A(!new)>(c: Reader<A>, data: Bytes, num: nat, texts: seq<Bytes>, xs: seq<A>, used: nat)
    requires IsParsed(c, data, num, texts, xs, used)
    ensures ParseFrames(c, data, num) == Parsed(xs, used)
  {
    FramesComplete(c, texts, xs, data[used..], num);
    assert data == data[..used] + data[used..];
  }
}
