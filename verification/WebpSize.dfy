/** The RIFF chunk walk of WebP and its three picture headers. */
module WebpSize {
  import opened Prelude
  import opened Bytes

  const RIFF: bytes := [0x52, 0x49, 0x46, 0x46]
  const WEBP: bytes := [0x57, 0x45, 0x42, 0x50]
  const VP8X: bytes := [0x56, 0x50, 0x38, 0x58]
  const VP8L: bytes := [0x56, 0x50, 0x38, 0x4C]
  const VP8_: bytes := [0x56, 0x50, 0x38, 0x20]

  // ----- picture headers; `body` is everything behind the chunk header -----

  function Vp8xSize(body: bytes): Size {
    if |body| < 10 then None else ValidSize(U24(body, 4) + 1, U24(body, 7) + 1)
  }

  /** Two 14-bit fields packed into 32 bits. */
  function Vp8lSize(body: bytes): Size {
    if |body| < 5 || body[0] != 0x2F then None
    else
      var bits := U32(body, 1, false);
      ValidSize(bits % 0x4000 + 1, bits / 0x4000 % 0x4000 + 1)
  }

  function Vp8Size(body: bytes): Size {
    if |body| < 10 || body[3..6] != [0x9D, 0x01, 0x2A] then None
    else ValidSize(U16(body, 6, false) % 0x4000, U16(body, 8, false) % 0x4000)
  }

  predicate IsPicture(fourcc: bytes) { fourcc == VP8X || fourcc == VP8L || fourcc == VP8_ }

  function PictureSize(fourcc: bytes, body: bytes): Size {
    if fourcc == VP8X then Vp8xSize(body) else if fourcc == VP8L then Vp8lSize(body) else Vp8Size(body)
  }

  // ----- the chunk walk -----

  function Walk(s: bytes): Size
    decreases |s|
  {
    if |s| < 8 then None
    else
      var size := U32(s, 4, false);
      if 8 + size > |s| then None
      else if IsPicture(s[..4]) then PictureSize(s[..4], s[8..])
      else if 8 + size + size % 2 > |s| then None
      else Walk(s[8 + size + size % 2..])
  }

  function WebpSize(data: bytes): Size {
    if |data| < 20 || data[..4] != RIFF || data[8..12] != WEBP then None else Walk(data[12..])
  }

  method FindWebpSize(data: bytes) returns (size: Size)
    ensures size == WebpSize(data)
  {
    hide Vp8xSize, Vp8lSize, Vp8Size, U32;
    if |data| < 20 || data[..4] != [0x52, 0x49, 0x46, 0x46] || data[8..12] != [0x57, 0x45, 0x42, 0x50] {
      return None;
    }
    var pos, limit := 12, |data|;
    while pos + 8 <= limit
      invariant 12 <= pos
      invariant WebpSize(data) == if pos <= limit then Walk(data[pos..]) else None
      decreases limit - pos
    {
      ghost var s := data[pos..];
      var chunkType := data[pos..pos + 4];
      assert chunkType == s[..4];
      var chunkSize := U32(data, pos + 4, false);
      ReadDrop(data, pos, 4, false);
      var chunkStart := pos + 8;
      var chunkEnd := chunkStart + chunkSize;
      if chunkEnd > limit {
        return None;
      }
      assert data[chunkStart..] == s[8..];
      if chunkType == [0x56, 0x50, 0x38, 0x58] {
        return Vp8xSize(data[chunkStart..]);
      }
      if chunkType == [0x56, 0x50, 0x38, 0x4C] {
        return Vp8lSize(data[chunkStart..]);
      }
      if chunkType == [0x56, 0x50, 0x38, 0x20] {
        return Vp8Size(data[chunkStart..]);
      }
      if chunkEnd + chunkSize % 2 <= limit {
        assert data[chunkEnd + chunkSize % 2..] == s[8 + chunkSize + chunkSize % 2..];
      }
      pos := chunkEnd + chunkSize % 2;
    }
    return None;
  }

  // ----- encodings -----

  /** A chunk the walk skips: another type, complete, padded to even length. */
  datatype Chunk = Chunk(fourcc: bytes, payload: bytes, pad: byte) {
    predicate Valid() { |fourcc| == 4 && !IsPicture(fourcc) && |payload| < 0x1_0000_0000 }

    function Encode(): bytes
      requires Valid()
    {
      fourcc + Put32(|payload|, false) + payload + (if |payload| % 2 == 1 then [pad] else [])
    }
  }

  /** A picture header in its chunk body. */
  datatype Picture =
    | Extended(flags: bytes, width: nat, height: nat)
    | Lossless(width: nat, height: nat, extra: nat)
    | Lossy(frameTag: bytes, width: nat, widthScale: nat, height: nat, heightScale: nat)
  {
    predicate Valid() {
      match this
      case Extended(flags, w, h) => |flags| == 4 && 1 <= w <= 0x100_0000 && 1 <= h <= 0x100_0000
      case Lossless(w, h, extra) => 1 <= w <= 0x4000 && 1 <= h <= 0x4000 && extra < 16
      case Lossy(tag, w, ws, h, hs) => |tag| == 3 && 1 <= w < 0x4000 && 1 <= h < 0x4000 && ws < 4 && hs < 4
    }

    function Fourcc(): bytes {
      match this
      case Extended(_, _, _) => VP8X
      case Lossless(_, _, _) => VP8L
      case Lossy(_, _, _, _, _) => VP8_
    }

    function Header(): bytes
      requires Valid()
    {
      match this
      case Extended(flags, w, h) => flags + Put24(w - 1) + Put24(h - 1)
      case Lossless(w, h, extra) => [0x2F] + Put32(w - 1 + (h - 1) * 0x4000 + extra * 0x1000_0000, false)
      case Lossy(tag, w, ws, h, hs) =>
        tag + [0x9D, 0x01, 0x2A] + Put16(w + ws * 0x4000, false) + Put16(h + hs * 0x4000, false)
    }

    function Dimensions(): (nat, nat) { (width, height) }
  }

  predicate AllValid(chunks: seq<Chunk>) {
    forall c | c in chunks :: c.Valid()
  }

  function EncodeChunks(chunks: seq<Chunk>): bytes
    requires AllValid(chunks)
  {
    if chunks == [] then [] else chunks[0].Encode() + EncodeChunks(chunks[1..])
  }

  // ----- headers are read back, and nothing else is a header -----

  lemma PackedFields(w: nat, h: nat, extra: nat)
    requires w < 0x4000 && h < 0x4000
    ensures var bits := w + h * 0x4000 + extra * 0x1000_0000;
            bits % 0x4000 == w && bits / 0x4000 % 0x4000 == h
  {
    var bits := w + h * 0x4000 + extra * 0x1000_0000;
    assert bits == w + (h + extra * 0x4000) * 0x4000;
    assert bits / 0x4000 == h + extra * 0x4000;
  }

  lemma HeaderReads(p: Picture, rest: bytes)
    requires p.Valid()
    ensures PictureSize(p.Fourcc(), p.Header() + rest) == Some(p.Dimensions())
  {
    match p
    case Extended(flags, w, h) =>
      ExtendedReads(p, rest);
    case Lossless(w, h, extra) =>
      var bits := w - 1 + (h - 1) * 0x4000 + extra * 0x1000_0000;
      ReadShift([0x2F], Put32(bits, false), rest, 0, false);
      PackedFields(w - 1, h - 1, extra);
    case Lossy(tag, w, ws, h, hs) =>
      LossyReads(p, rest);
  }

  lemma ExtendedReads(p: Picture, rest: bytes)
    requires p.Valid() && p.Extended?
    ensures PictureSize(VP8X, p.Header() + rest) == Some(p.Dimensions())
  {
    var w, h := Put24(p.width - 1), Put24(p.height - 1);
    ReadShift(p.flags, w, h + rest, 0, false);
    assert p.Header() + rest == p.flags + w + (h + rest);
    ReadShift(p.flags + w, h, rest, 0, false);
  }

  lemma LossyReads(p: Picture, rest: bytes)
    requires p.Valid() && p.Lossy?
    ensures PictureSize(VP8_, p.Header() + rest) == Some(p.Dimensions())
  {
    var mark: bytes := [0x9D, 0x01, 0x2A];
    var w, h := Put16(p.width + p.widthScale * 0x4000, false), Put16(p.height + p.heightScale * 0x4000, false);
    var body := p.Header() + rest;
    assert body == p.frameTag + mark + w + (h + rest);
    ReadShift(p.frameTag + mark, w, h + rest, 0, false);
    assert body == p.frameTag + mark + w + h + rest;
    ReadShift(p.frameTag + mark + w, h, rest, 0, false);
    assert body[3..6] == mark;
  }

  lemma HeaderOnly(fourcc: bytes, body: bytes) returns (p: Picture)
    requires IsPicture(fourcc) && PictureSize(fourcc, body).Some?
    ensures p.Valid() && p.Fourcc() == fourcc && p.Header() <= body && PictureSize(fourcc, body) == Some(p.Dimensions())
  {
    if fourcc == VP8X {
      p := Extended(body[..4], U24(body, 4) + 1, U24(body, 7) + 1);
      Put24Get24(body, 4);
      Put24Get24(body, 7);
      assert body[..10] == body[..4] + body[4..7] + body[7..10];
    } else if fourcc == VP8L {
      var bits := U32(body, 1, false);
      p := Lossless(bits % 0x4000 + 1, bits / 0x4000 % 0x4000 + 1, bits / 0x1000_0000);
      Put32Get32(body, 1, false);
      assert bits / 0x1000_0000 == bits / 0x4000 / 0x4000;
      assert body[..5] == [body[0]] + body[1..5];
    } else {
      p := LossyOnly(body);
    }
  }

  lemma LossyOnly(body: bytes) returns (p: Picture)
    requires Vp8Size(body).Some?
    ensures p.Valid() && p.Fourcc() == VP8_ && p.Header() <= body && Vp8Size(body) == Some(p.Dimensions())
  {
    var w, h := U16(body, 6, false), U16(body, 8, false);
    p := Lossy(body[..3], w % 0x4000, w / 0x4000, h % 0x4000, h / 0x4000);
    Put16Get16(body, 6, false);
    Put16Get16(body, 8, false);
    assert body[..10] == body[..3] + body[3..6] + body[6..8] + body[8..10];
  }

  // ----- the container -----

  lemma WalkChunk(c: Chunk, s: bytes)
    requires c.Valid()
    ensures Walk(c.Encode() + s) == Walk(s)
  {
    var t := c.Encode() + s;
    var n := |c.payload|;
    var padding: bytes := if n % 2 == 1 then [c.pad] else [];
    ReadShift(c.fourcc, Put32(n, false), c.payload + padding + s, 0, false);
    assert t == c.fourcc + Put32(n, false) + (c.payload + padding + s);
    assert t[..4] == c.fourcc;
    assert t[8 + n + n % 2..] == s;
  }

  lemma {:induction false} WalkChunks(chunks: seq<Chunk>, s: bytes)
    requires AllValid(chunks)
    ensures Walk(EncodeChunks(chunks) + s) == Walk(s)
  {
    hide Walk, Chunk.Encode;
    if chunks == [] {
      assert EncodeChunks(chunks) + s == s;
    } else {
      assert chunks[0] in chunks;
      forall c | c in chunks[1..] ensures c.Valid() { assert c in chunks; }
      WalkChunks(chunks[1..], s);
      WalkChunk(chunks[0], EncodeChunks(chunks[1..]) + s);
      Reassociate(chunks[0].Encode(), EncodeChunks(chunks[1..]), s);
    }
  }

  /** A picture chunk of declared size `n`, complete in the data. */
  function PictureChunk(p: Picture, n: nat, rest: bytes): bytes
    requires p.Valid() && n < 0x1_0000_0000
  {
    p.Fourcc() + Put32(n, false) + (p.Header() + rest)
  }

  lemma WalkPicture(p: Picture, n: nat, rest: bytes)
    requires p.Valid() && n < 0x1_0000_0000 && n <= |p.Header() + rest|
    ensures Walk(PictureChunk(p, n, rest)) == Some(p.Dimensions())
  {
    hide Picture.Header, PictureSize;
    var s, body := PictureChunk(p, n, rest), p.Header() + rest;
    ReadShift(p.Fourcc(), Put32(n, false), body, 0, false);
    assert s[..4] == p.Fourcc() && s[8..] == body;
    HeaderReads(p, rest);
  }

  lemma ChunkRead(s: bytes) returns (c: Chunk)
    requires |s| >= 8 && !IsPicture(s[..4]) && 8 + U32(s, 4, false) + U32(s, 4, false) % 2 <= |s|
    ensures c.Valid() && s == c.Encode() + s[8 + U32(s, 4, false) + U32(s, 4, false) % 2..]
  {
    var n := U32(s, 4, false);
    var end := 8 + n + n % 2;
    c := Chunk(s[..4], s[8..8 + n], if n % 2 == 1 then s[8 + n] else 0);
    Put32Get32(s, 4, false);
    var padding: bytes := if n % 2 == 1 then [c.pad] else [];
    assert padding == s[8 + n..end];
    Cut(s, 8 + n, end);
  }

  lemma Cut(s: bytes, a: nat, b: nat)
    requires 8 <= a <= b <= |s|
    ensures s == s[..4] + s[4..8] + s[8..a] + s[a..b] + s[b..]
  {
  }

  /** What the walk found, written out. */
  ghost predicate Reads(s: bytes, chunks: seq<Chunk>, p: Picture, n: nat, rest: bytes) {
    && AllValid(chunks) && p.Valid() && n < 0x1_0000_0000 && n <= |p.Header() + rest|
    && s == EncodeChunks(chunks) + PictureChunk(p, n, rest)
  }

  lemma ReadsCons(c: Chunk, s: bytes, chunks: seq<Chunk>, p: Picture, n: nat, rest: bytes)
    requires c.Valid() && Reads(s, chunks, p, n, rest)
    ensures Reads(c.Encode() + s, [c] + chunks, p, n, rest)
  {
    hide Chunk.Encode, PictureChunk, Picture.Header;
    assert ([c] + chunks)[1..] == chunks;
    Reassociate(c.Encode(), EncodeChunks(chunks), PictureChunk(p, n, rest));
  }

  lemma {:induction false} WalkReads(s: bytes) returns (chunks: seq<Chunk>, p: Picture, n: nat, rest: bytes)
    requires Walk(s).Some?
    ensures Reads(s, chunks, p, n, rest) && Walk(s) == Some(p.Dimensions())
    decreases |s|
  {
    hide Reads;
    if IsPicture(s[..4]) {
      chunks := [];
      p, n, rest := PictureRead(s);
    } else {
      var c := ChunkRead(s);
      var size := U32(s, 4, false);
      chunks, p, n, rest := WalkReads(s[8 + size + size % 2..]);
      ReadsCons(c, s[8 + size + size % 2..], chunks, p, n, rest);
      chunks := [c] + chunks;
    }
  }

  lemma PictureRead(s: bytes) returns (p: Picture, n: nat, rest: bytes)
    requires |s| >= 8 && IsPicture(s[..4]) && Walk(s).Some?
    ensures Reads(s, [], p, n, rest) && Walk(s) == Some(p.Dimensions())
  {
    hide PictureSize, Picture.Header;
    p := HeaderOnly(s[..4], s[8..]);
    n, rest := U32(s, 4, false), s[8..][|p.Header()|..];
    Put32Get32(s, 4, false);
    assert s[8..] == p.Header() + rest;
    assert s == s[..4] + s[4..8] + s[8..];
    assert s == EncodeChunks([]) + PictureChunk(p, n, rest);
  }

  /** `data` is a WebP file header, complete padded chunks of other types, and a complete picture chunk. */
  ghost predicate IsWebp(data: bytes, length: bytes, chunks: seq<Chunk>, p: Picture, n: nat, rest: bytes) {
    && |length| == 4 && AllValid(chunks) && p.Valid() && n < 0x1_0000_0000 && n <= |p.Header() + rest|
    && data == RIFF + length + WEBP + (EncodeChunks(chunks) + PictureChunk(p, n, rest))
  }

  lemma WebpReads(data: bytes) returns (length: bytes, chunks: seq<Chunk>, p: Picture, n: nat, rest: bytes)
    requires WebpSize(data).Some?
    ensures IsWebp(data, length, chunks, p, n, rest) && WebpSize(data) == Some(p.Dimensions())
  {
    hide Walk, PictureChunk, EncodeChunks, Picture.Header;
    chunks, p, n, rest := WalkReads(data[12..]);
    length := data[4..8];
    assert data == RIFF + data[4..8] + WEBP + data[12..];
  }

  lemma WebpIsRead(data: bytes, length: bytes, chunks: seq<Chunk>, p: Picture, n: nat, rest: bytes)
    requires IsWebp(data, length, chunks, p, n, rest)
    ensures WebpSize(data) == Some(p.Dimensions())
  {
    hide Walk, PictureChunk, EncodeChunks, Picture.Header;
    var last := PictureChunk(p, n, rest);
    WalkPicture(p, n, rest);
    WalkChunks(chunks, last);
    FileHeader(length, EncodeChunks(chunks) + last);
    PictureChunkLength(p, n, rest);
  }

  lemma PictureChunkLength(p: Picture, n: nat, rest: bytes)
    requires p.Valid() && n < 0x1_0000_0000
    ensures |PictureChunk(p, n, rest)| >= 8
  {
  }

  lemma FileHeader(length: bytes, s: bytes)
    requires |length| == 4
    ensures var data := RIFF + length + WEBP + s;
            |data| == |s| + 12 && data[..4] == RIFF && data[8..12] == WEBP && data[12..] == s
  {
  }

  /** A size is returned exactly for the WebP data whose picture chunk states that size. */
  lemma WebpSizeExact(data: bytes, width: nat, height: nat)
    ensures WebpSize(data) == Some((width, height))
       <==> exists length, chunks, p: Picture, n, rest ::
              IsWebp(data, length, chunks, p, n, rest) && p.Dimensions() == (width, height)
  {
    hide IsWebp, WebpSize;
    if WebpSize(data) == Some((width, height)) {
      var length, chunks, p, n, rest := WebpReads(data);
    }
    if length, chunks, p: Picture, n, rest :| IsWebp(data, length, chunks, p, n, rest) && p.Dimensions() == (width, height) {
      WebpIsRead(data, length, chunks, p, n, rest);
    }
  }
}
