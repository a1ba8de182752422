/** The JPEG marker walk: it finds the frame size exactly in the byte strings that consist of a start
    marker, skippable items and a frame header. */
module JpegSize {
  import opened Prelude
  import opened Bytes

  const FF: byte := 0xFF

  predicate IsStandalone(m: byte) { m == 0x00 || m == 0x01 || 0xD0 <= m <= 0xD9 }

  predicate IsFrameMarker(m: byte) { 0xC0 <= m <= 0xCF && m != 0xC4 && m != 0xC8 && m != 0xCC }

  const START_OF_SCAN: byte := 0xDA

  // ----- Table B.1 of ITU-T T.81 -----

  /** SOF0-3, SOF5-7, SOF9-11 and SOF13-15: the frame headers of all coding processes, without DHT, JPG and DAC. */
  ghost predicate StartsFrame(m: byte) {
    0xC0 <= m <= 0xC3 || 0xC5 <= m <= 0xC7 || 0xC9 <= m <= 0xCB || 0xCD <= m <= 0xCF
  }

  /** Markers without a segment: RST0-7, SOI, EOI and TEM; a stuffed zero counts as one here. */
  ghost predicate StandsAlone(m: byte) {
    m in [0x00, 0x01] || m in [0xD0, 0xD1, 0xD2, 0xD3, 0xD4, 0xD5, 0xD6, 0xD7, 0xD8, 0xD9]
  }

  /** The walk's tests are those of the table. */
  lemma MarkersOfTheTable(m: byte)
    ensures IsFrameMarker(m) <==> StartsFrame(m)
    ensures IsStandalone(m) <==> StandsAlone(m)
  {
  }

  /** The frame markers as the parser lists them. */
  const SOF_MARKERS: set<byte> :=
    {0xC0, 0xC1, 0xC2, 0xC3, 0xC5, 0xC6, 0xC7, 0xC9, 0xCA, 0xCB, 0xCD, 0xCE, 0xCF}

  lemma ListedMarkers(m: byte)
    ensures m in SOF_MARKERS <==> IsFrameMarker(m)
  {
  }

  // ----- the walk on what is left of the data -----

  function DropFill(s: bytes): (t: bytes)
    ensures |t| <= |s| && (s != [] && s[0] == FF ==> |t| < |s|)
  {
    if s == [] || s[0] != FF then s else DropFill(s[1..])
  }

  function Walk(s: bytes): Size
    decreases |s|
  {
    if |s| < 2 then None
    else if s[0] != FF then Walk(s[1..])
    else
      var t := DropFill(s);
      if t == [] then None else AtMarker(t[0], t[1..])
  }

  /** `u` is what follows the marker `m`. */
  function AtMarker(m: byte, u: bytes): Size
    decreases |u| + 1, 1
  {
    if IsStandalone(m) then Walk(u)
    else if m == START_OF_SCAN || |u| < 2 then None
    else
      var length := U16(u, 0, true);
      if length < 2 || length > |u| then None
      else if IsFrameMarker(m) then
        if length < 7 then None else ValidSize(U16(u, 5, true), U16(u, 3, true))
      else Walk(u[length..])
  }

  function JpegSize(data: bytes): Size {
    if |data| < 4 || data[0] != FF || data[1] != 0xD8 then None else Walk(data[2..])
  }

  lemma WalkUnfolds(s: bytes)
    requires |s| >= 2
    ensures s[0] != FF ==> Walk(s) == Walk(s[1..])
    ensures s[0] == FF ==> Walk(s) == (var t := DropFill(s); if t == [] then None else AtMarker(t[0], t[1..]))
  {
    hide AtMarker, DropFill;
  }

  /** The parser: indices into the data, two nested loops. */
  method FindJpegSize(data: bytes) returns (size: Size)
    ensures size == JpegSize(data)
  {
    if |data| < 4 || data[..2] != [0xFF, 0xD8] {
      return None;
    }
    var i, limit := 2, |data|;
    assert JpegSize(data) == Walk(data[i..]);
    while i + 1 < limit
      invariant 2 <= i <= limit
      invariant JpegSize(data) == Walk(data[i..])
      decreases limit - i
    {
      hide Walk, AtMarker, DropFill, JpegSize;
      WalkUnfolds(data[i..]);
      if data[i] != 0xFF {
        assert data[i..][1..] == data[i + 1..];
        i := i + 1;
        continue;
      }
      i := SkipFill(data, i);
      if i >= limit {
        return None;
      }
      assert data[i..][1..] == data[i + 1..];
      var next, found := ReadMarker(data, data[i], i + 1);
      if next.None? {
        return found;
      }
      i := next.value;
    }
    return None;
  }

  /** What follows the marker: where to go on, or the answer. */
  method ReadMarker(data: bytes, marker: byte, start: nat) returns (next: Option<nat>, size: Size)
    requires start <= |data|
    ensures next.Some? ==> start <= next.value <= |data| && AtMarker(marker, data[start..]) == Walk(data[next.value..])
    ensures next.None? ==> size == AtMarker(marker, data[start..])
  {
    hide SOF_MARKERS, U16, ValidSize, Walk;
    size := None;
    ghost var u := data[start..];
    if marker in {0x00, 0x01} || 0xD0 <= marker <= 0xD9 {
      return Some(start), None;
    }
    if marker == 0xDA {
      return None, None;
    }
    if start + 2 > |data| {
      return None, None;
    }
    var segmentLen := U16(data, start, true);
    ReadDrop(data, start, 0, true);
    if segmentLen < 2 || start + segmentLen > |data| {
      return None, None;
    }
    ListedMarkers(marker);
    if marker in SOF_MARKERS {
      if segmentLen < 7 {
        return None, None;
      }
      var height := U16(data, start + 3, true);
      var width := U16(data, start + 5, true);
      ReadDrop(data, start, 3, true);
      ReadDrop(data, start, 5, true);
      return None, ValidSize(width, height);
    }
    assert u[segmentLen..] == data[start + segmentLen..];
    return Some(start + segmentLen), None;
  }

  /** The inner loop: the index of the first byte that is not fill. */
  method SkipFill(data: bytes, start: nat) returns (i: nat)
    requires start < |data| && data[start] == FF
    ensures start < i <= |data| && data[i..] == DropFill(data[start..])
    ensures i < |data| ==> data[i] != FF
  {
    i := start;
    while i < |data| && data[i] == 0xFF
      invariant start <= i <= |data| && (i == start ==> data[i] == FF)
      invariant DropFill(data[start..]) == DropFill(data[i..])
    {
      assert data[i..][1..] == data[i + 1..];
      i := i + 1;
    }
  }

  // ----- the byte strings it is for -----

  /** Something to be skipped: a stray byte, or a marker after `1 + fill` bytes `0xFF`, alone or with a segment. */
  datatype Item =
    | Stray(b: byte)
    | Standalone(fill: nat, marker: byte)
    | Segment(fill: nat, marker: byte, payload: bytes)
  {
    ghost predicate Valid() {
      match this
      case Stray(b) => b != 0xFF
      case Standalone(_, m) => StandsAlone(m)
      case Segment(_, m, payload) =>
        !StandsAlone(m) && !StartsFrame(m) && m != 0xDA && m != 0xFF && |payload| + 2 < 0x1_0000
    }

    ghost function Encode(): bytes
      requires Valid()
    {
      match this
      case Stray(b) => [b]
      case Standalone(fill, m) => Fill(fill) + [m]
      case Segment(fill, m, payload) => Fill(fill) + [m] + Put16(|payload| + 2, true) + payload
    }
  }

  datatype Frame = Frame(fill: nat, marker: byte, precision: byte, height: nat, width: nat, rest: bytes) {
    ghost predicate Valid() {
      && StartsFrame(marker) && 0 < height < 0x1_0000 && 0 < width < 0x1_0000 && |rest| + 7 < 0x1_0000
    }

    ghost function Body(): bytes
      requires Valid()
    {
      Put16(|rest| + 7, true) + [precision] + Put16(height, true) + Put16(width, true) + rest
    }

    ghost function Encode(): bytes
      requires Valid()
    {
      Fill(fill) + [marker] + Body()
    }
  }

  function Fill(n: nat): (r: bytes)
    ensures |r| == n + 1
  {
    if n == 0 then [FF] else [FF] + Fill(n - 1)
  }

  ghost predicate AllValid(items: seq<Item>) {
    forall item | item in items :: item.Valid()
  }

  ghost function EncodeItems(items: seq<Item>): bytes
    requires AllValid(items)
  {
    if items == [] then [] else items[0].Encode() + EncodeItems(items[1..])
  }

  // ----- every encoding is read back -----

  lemma {:induction false} DropsFill(n: nat, t: bytes)
    requires t != [] && t[0] != FF
    ensures DropFill(Fill(n) + t) == t
  {
    if n == 0 {
      assert ([FF] + t)[1..] == t;
    } else {
      DropsFill(n - 1, t);
      assert (Fill(n) + t)[1..] == Fill(n - 1) + t;
    }
  }

  lemma WalkFill(n: nat, m: byte, u: bytes)
    requires m != FF
    ensures Walk(Fill(n) + [m] + u) == AtMarker(m, u)
  {
    var s := Fill(n) + [m] + u;
    DropsFill(n, [m] + u);
    assert s == Fill(n) + ([m] + u);
    assert s[0] == FF && ([m] + u)[1..] == u;
  }

  /** An item is skipped. */
  lemma WalkItem(item: Item, s: bytes)
    requires item.Valid()
    ensures Walk(item.Encode() + s) == Walk(s)
  {
    hide IsFrameMarker, IsStandalone, StartsFrame, StandsAlone;
    match item
    case Stray(b) =>
      assert ([b] + s)[1..] == s;
    case Standalone(fill, m) =>
      MarkersOfTheTable(m);
      assert m != FF by { StandaloneIsNotFill(m); }
      WalkFill(fill, m, s);
    case Segment(fill, m, payload) =>
      MarkersOfTheTable(m);
      WalkSegment(fill, m, payload, s);
      assert item.Encode() + s == Fill(fill) + [m] + (Put16(|payload| + 2, true) + payload + s);
  }

  lemma StandaloneIsNotFill(m: byte)
    requires StandsAlone(m)
    ensures m != FF
  {
  }

  lemma SegmentSkips(m: byte, u: bytes, length: nat)
    requires !IsStandalone(m) && !IsFrameMarker(m) && m != START_OF_SCAN
    requires 2 <= length <= |u| && U16(u, 0, true) == length
    ensures AtMarker(m, u) == Walk(u[length..])
  {
    hide IsFrameMarker, IsStandalone, U16, Walk;
  }

  lemma WalkSegment(fill: nat, m: byte, payload: bytes, s: bytes)
    requires !IsStandalone(m) && !IsFrameMarker(m) && m != START_OF_SCAN && m != FF && |payload| + 2 < 0x1_0000
    ensures Walk(Fill(fill) + [m] + (Put16(|payload| + 2, true) + payload + s)) == Walk(s)
  {
    hide IsFrameMarker, IsStandalone, Put16, Walk, AtMarker, U16, Fill;
    var length := Put16(|payload| + 2, true);
    var u := length + payload + s;
    WalkFill(fill, m, u);
    ReadShift([], length, payload + s, 0, true);
    assert u == [] + length + (payload + s);
    assert u[|payload| + 2..] == s;
    SegmentSkips(m, u, |payload| + 2);
  }

  lemma WalkFrame(f: Frame, tail: bytes)
    requires f.Valid()
    ensures Walk(f.Encode() + tail) == Some((f.width, f.height))
  {
    var u := f.Body() + tail;
    MarkersOfTheTable(f.marker);
    assert f.marker != FF && !IsStandalone(f.marker) && f.marker != START_OF_SCAN by { FrameIsSegment(f.marker); }
    assert f.Encode() + tail == Fill(f.fill) + [f.marker] + u;
    BodyReads(f, tail);
    hide Walk, AtMarker, StartsFrame, StandsAlone, IsFrameMarker, IsStandalone, U16, Frame.Body, Frame.Encode, Fill;
    WalkFill(f.fill, f.marker, u);
    FrameAtMarker(f.marker, u);
  }

  lemma FrameIsSegment(m: byte)
    requires StartsFrame(m)
    ensures m != FF && !IsStandalone(m) && m != START_OF_SCAN
  {
  }

  /** At a frame marker the answer stands behind the length and the precision. */
  lemma FrameAtMarker(m: byte, u: bytes)
    requires IsFrameMarker(m) && !IsStandalone(m) && m != START_OF_SCAN && |u| >= 7 && 7 <= U16(u, 0, true) <= |u|
    ensures AtMarker(m, u) == ValidSize(U16(u, 5, true), U16(u, 3, true))
  {
    hide IsFrameMarker, IsStandalone, U16, ValidSize, Walk;
  }

  lemma BodyReads(f: Frame, tail: bytes)
    requires f.Valid()
    ensures var u := f.Body() + tail;
            && |u| >= 7 && 7 <= U16(u, 0, true) <= |u| && U16(u, 3, true) == f.height && U16(u, 5, true) == f.width
  {
    hide U16, Put16, StartsFrame;
    var u := f.Body() + tail;
    var length, height, width := Put16(|f.rest| + 7, true), Put16(f.height, true), Put16(f.width, true);
    ReadShift([], length, [f.precision] + height + width + f.rest + tail, 0, true);
    assert u == [] + length + ([f.precision] + height + width + f.rest + tail);
    ReadShift(length + [f.precision], height, width + f.rest + tail, 0, true);
    assert u == length + [f.precision] + height + (width + f.rest + tail);
    ReadShift(length + [f.precision] + height, width, f.rest + tail, 0, true);
    assert u == length + [f.precision] + height + width + (f.rest + tail);
  }

  lemma Reassociate4(a: bytes, b: bytes, c: bytes, d: bytes)
    ensures a + (b + c + d) == a + b + c + d
  {
  }

  lemma {:induction false} WalkItems(items: seq<Item>, f: Frame, tail: bytes)
    requires AllValid(items) && f.Valid()
    ensures Walk(EncodeItems(items) + f.Encode() + tail) == Some((f.width, f.height))
  {
    hide Walk, Item.Encode, Frame.Encode;
    if items == [] {
      WalkFrame(f, tail);
      assert EncodeItems(items) + f.Encode() + tail == f.Encode() + tail;
    } else {
      assert items[0] in items;
      forall item | item in items[1..] ensures item.Valid() { assert item in items; }
      WalkItems(items[1..], f, tail);
      var s := EncodeItems(items[1..]) + f.Encode() + tail;
      WalkItem(items[0], s);
      Reassociate4(items[0].Encode(), EncodeItems(items[1..]), f.Encode(), tail);
    }
  }

  // ----- and only encodings are read -----

  lemma {:induction false} FillPrefix(s: bytes) returns (n: nat)
    requires s != [] && s[0] == FF
    ensures s == Fill(n) + DropFill(s) && (DropFill(s) != [] ==> DropFill(s)[0] != FF)
  {
    if |s| > 1 && s[1] == FF {
      var m := FillPrefix(s[1..]);
      n := m + 1;
      assert s == [FF] + s[1..];
    } else {
      n := 0;
      assert s == [FF] + s[1..];
      assert DropFill(s) == DropFill(s[1..]) == s[1..];
    }
  }

  /** What the walk found, written out. */
  ghost predicate Reads(s: bytes, items: seq<Item>, f: Frame, tail: bytes) {
    AllValid(items) && f.Valid() && s == EncodeItems(items) + f.Encode() + tail
  }

  lemma ReadsCons(item: Item, s: bytes, items: seq<Item>, f: Frame, tail: bytes)
    requires item.Valid() && Reads(s, items, f, tail)
    ensures Reads(item.Encode() + s, [item] + items, f, tail)
  {
    hide Item.Encode, Frame.Encode;
    assert ([item] + items)[1..] == items;
    Reassociate4(item.Encode(), EncodeItems(items), f.Encode(), tail);
  }

  lemma {:induction false} WalkReads(s: bytes) returns (items: seq<Item>, f: Frame, tail: bytes)
    requires Walk(s).Some?
    ensures Reads(s, items, f, tail) && Walk(s) == Some((f.width, f.height))
    decreases |s|, 1
  {
    hide Reads;
    if s[0] != FF {
      items, f, tail := WalkReads(s[1..]);
      ReadsCons(Stray(s[0]), s[1..], items, f, tail);
      assert s == [s[0]] + s[1..];
      items := [Stray(s[0])] + items;
    } else {
      var fill := FillPrefix(s);
      var t := DropFill(s);
      assert t == [t[0]] + t[1..];
      assert s == Fill(fill) + [t[0]] + t[1..];
      items, f, tail := MarkerReads(s, fill, t[0], t[1..]);
    }
  }

  lemma MarkerReads(s: bytes, fill: nat, m: byte, u: bytes) returns (items: seq<Item>, f: Frame, tail: bytes)
    requires s == Fill(fill) + [m] + u && m != FF && AtMarker(m, u).Some?
    ensures Reads(s, items, f, tail) && AtMarker(m, u) == Some((f.width, f.height))
    decreases |u| + 1, 0
  {
    hide Reads;
    if IsStandalone(m) {
      items, f, tail := WalkReads(u);
      ReadsCons(Standalone(fill, m), u, items, f, tail);
      items := [Standalone(fill, m)] + items;
    } else if IsFrameMarker(m) {
      items := [];
      f, tail := FrameReads(s, fill, m, u);
    } else {
      var length := U16(u, 0, true);
      var item := SegmentReads(s, fill, m, u, length);
      items, f, tail := WalkReads(u[length..]);
      ReadsCons(item, u[length..], items, f, tail);
      items := [item] + items;
    }
  }

  lemma SegmentReads(s: bytes, fill: nat, m: byte, u: bytes, length: nat) returns (item: Item)
    requires s == Fill(fill) + [m] + u && 2 <= length <= |u| && length == U16(u, 0, true)
    requires !IsStandalone(m) && m != START_OF_SCAN && m != FF && !IsFrameMarker(m)
    ensures item.Valid() && s == item.Encode() + u[length..]
  {
    item := Segment(fill, m, u[2..length]);
    Put16Get16(u, 0, true);
    var size := Put16(length, true);
    assert u == u[0..2] + u[2..length] + u[length..];
    assert u == size + u[2..length] + u[length..];
    assert Fill(fill) + [m] + (size + u[2..length] + u[length..]) == Fill(fill) + [m] + size + u[2..length] + u[length..];
  }

  lemma FrameReads(s: bytes, fill: nat, m: byte, u: bytes) returns (f: Frame, tail: bytes)
    requires s == Fill(fill) + [m] + u && IsFrameMarker(m) && AtMarker(m, u).Some?
    ensures Reads(s, [], f, tail) && AtMarker(m, u) == Some((f.width, f.height))
  {
    var length := U16(u, 0, true);
    f := Frame(fill, m, u[2], U16(u, 3, true), U16(u, 5, true), u[7..length]);
    tail := u[length..];
    FrameBody(f, u, length);
    assert s == Fill(fill) + [m] + f.Body() + tail;
    assert s == EncodeItems([]) + f.Encode() + tail;
  }

  lemma FrameBody(f: Frame, u: bytes, length: nat)
    requires 7 <= length <= |u| && length == U16(u, 0, true) && f.Valid()
    requires f.precision == u[2] && f.height == U16(u, 3, true) && f.width == U16(u, 5, true) && f.rest == u[7..length]
    ensures u == f.Body() + u[length..]
  {
    hide U16, Put16;
    Put16Get16(u, 0, true);
    Put16Get16(u, 3, true);
    Put16Get16(u, 5, true);
    assert |f.rest| + 7 == length;
    Pieces(u, length);
  }

  lemma Pieces(u: bytes, length: nat)
    requires 7 <= length <= |u|
    ensures u == u[0..2] + [u[2]] + u[3..5] + u[5..7] + u[7..length] + u[length..]
  {
  }

  /** The walk returns a size exactly for the data that are a start marker, skippable items and a frame of
      that size, with anything behind. */
  lemma JpegSizeExact(data: bytes, width: nat, height: nat)
    ensures JpegSize(data) == Some((width, height))
       <==> exists items, f: Frame, tail :: AllValid(items) && f.Valid() && f.width == width && f.height == height
                                            && data == [0xFF, 0xD8] + (EncodeItems(items) + f.Encode() + tail)
  {
    if JpegSize(data) == Some((width, height)) {
      var items, f, tail := WalkReads(data[2..]);
      assert Reads(data[2..], items, f, tail);
      assert data == [0xFF, 0xD8] + data[2..];
    }
    if items, f: Frame, tail :| AllValid(items) && f.Valid() && f.width == width && f.height == height
                                && data == [0xFF, 0xD8] + (EncodeItems(items) + f.Encode() + tail) {
      WalkItems(items, f, tail);
      assert data[2..] == EncodeItems(items) + f.Encode() + tail;
    }
  }

  // ----- a baseline and a progressive picture of 2 by 1 -----

  /** An empty APP0 segment and a frame header without components. */
  lemma SmallPicture(marker: byte)
    requires marker == 0xC0 || marker == 0xC2
    ensures JpegSize([0xFF, 0xD8] + [0xFF, 0xE0, 0x00, 0x02]
                     + [0xFF, marker, 0x00, 0x07, 0x08, 0x00, 0x01, 0x00, 0x02]) == Some((2, 1))
  {
    var item, f := Segment(0, 0xE0, []), Frame(0, marker, 0x08, 1, 2, []);
    var s: bytes := [0xFF, marker, 0x00, 0x07, 0x08, 0x00, 0x01, 0x00, 0x02];
    SmallParts(marker);
    hide Item.Encode, Frame.Encode, Walk;
    WalkFrame(f, []);
    WalkItem(item, s);
    assert ([0xFF, 0xD8] + [0xFF, 0xE0, 0x00, 0x02] + s)[2..] == item.Encode() + s;
  }

  lemma SmallParts(marker: byte)
    requires marker == 0xC0 || marker == 0xC2
    ensures var item, f := Segment(0, 0xE0, []), Frame(0, marker, 0x08, 1, 2, []);
            && item.Valid() && item.Encode() == [0xFF, 0xE0, 0x00, 0x02]
            && f.Valid() && f.Encode() + [] == [0xFF, marker, 0x00, 0x07, 0x08, 0x00, 0x01, 0x00, 0x02]
  {
    FillOne();
    hide Fill;
  }

  lemma FillOne()
    ensures Fill(0) == [0xFF]
  {
  }
}
