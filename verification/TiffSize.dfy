/** The first image file directory of a TIFF: in either byte order, the size tags among its first 256
    entries decide. */
module TiffSize {
  import opened Prelude
  import opened Bytes

  const LITTLE: bytes := [0x49, 0x49, 0x2A, 0x00]
  const BIG: bytes := [0x4D, 0x4D, 0x00, 0x2A]

  const WIDTH_TAG := 256
  const HEIGHT_TAG := 257

  // ----- the scan over what is left of the directory -----

  /** The value field of an entry, at offset 8: one SHORT or one LONG. */
  function Value(fieldType: nat, count: nat, raw: bytes, big: bool): Option<nat>
    requires |raw| == 4
  {
    if count != 1 then None
    else if fieldType == 3 then Some(U16(raw, 0, big))
    else if fieldType == 4 then Some(U32(raw, 0, big))
    else None
  }

  /** At most 256 entries are looked at. */
  function Limit(count: nat): (n: nat)
    ensures n <= count && n <= 256
  {
    if count < 256 then count else 256
  }

  function TiffSize(data: bytes): Size {
    if |data| < 8 || (data[..4] != LITTLE && data[..4] != BIG) then None
    else
      var big := data[..4] == BIG;
      var offset := U32(data, 4, big);
      if offset < 8 || offset + 2 > |data| then None
      else
        var count := U16(data, offset, big);
        Scan(Entries(data[offset + 2..], Limit(count), big), None, None, big)
  }

  datatype Entry = Entry(tag: nat, fieldType: nat, count: nat, raw: bytes) {
    predicate Valid() { tag < 0x1_0000 && fieldType < 0x1_0000 && count < 0x1_0000_0000 && |raw| == 4 }

    function Encode(big: bool): (s: bytes)
      requires Valid()
      ensures |s| == 12
    {
      Put16(tag, big) + Put16(fieldType, big) + Put32(count, big) + raw
    }

    function ValueIn(big: bool): Option<nat>
      requires Valid()
    {
      Value(fieldType, count, raw, big)
    }
  }

  function ReadEntry(s: bytes, big: bool): (e: Entry)
    requires |s| >= 12
    ensures e.Valid()
  {
    Entry(U16(s, 0, big), U16(s, 2, big), U32(s, 4, big), s[8..12])
  }

  /** The first `n` entries, as far as they are complete. */
  function Entries(s: bytes, n: nat, big: bool): (es: seq<Entry>)
    ensures |es| <= n && forall e :: e in es ==> e.Valid()
  {
    if n == 0 || |s| < 12 then [] else [ReadEntry(s, big)] + Entries(s[12..], n - 1, big)
  }

  function Update(known: Option<nat>, tag: nat, e: Entry, big: bool): Option<nat>
    requires e.Valid()
  {
    if e.tag == tag then e.ValueIn(big) else known
  }

  /** Later entries override earlier ones until both sizes are known. */
  function Scan(es: seq<Entry>, width: Option<nat>, height: Option<nat>, big: bool): Size
    requires forall e :: e in es ==> e.Valid()
  {
    if es == [] then None
    else
      var w, h := Update(width, WIDTH_TAG, es[0], big), Update(height, HEIGHT_TAG, es[0], big);
      if w.Some? && h.Some? then ValidSize(w.value, h.value) else Scan(es[1..], w, h, big)
  }

  // ----- the parser -----

  method FindTiffValue(data: bytes, valuePos: nat, fieldType: nat, count: nat, big: bool) returns (value: Option<nat>)
    ensures value == if valuePos + 4 > |data| then None else Value(fieldType, count, data[valuePos..valuePos + 4], big)
  {
    if count != 1 || valuePos + 4 > |data| {
      return None;
    }
    var raw := data[valuePos..valuePos + 4];
    assert U16(data, valuePos, big) == U16(raw, 0, big);
    assert U32(data, valuePos, big) == U32(raw, 0, big);
    if fieldType == 3 {
      return Some(U16(data, valuePos, big));
    }
    if fieldType == 4 {
      return Some(U32(data, valuePos, big));
    }
    return None;
  }

  method FindTiffSize(data: bytes) returns (size: Size)
    ensures size == TiffSize(data)
  {
    hide Scan, Entries, Value, U16, U32;
    if |data| < 8 {
      return None;
    }
    var big := false;
    if data[..4] == [0x49, 0x49, 0x2A, 0x00] {
      big := false;
    } else if data[..4] == [0x4D, 0x4D, 0x00, 0x2A] {
      big := true;
    } else {
      return None;
    }
    var offset := U32(data, 4, big);
    if offset < 8 || offset + 2 > |data| {
      return None;
    }
    var tagCount := U16(data, offset, big);
    tagCount := if tagCount < 256 then tagCount else 256;
    size := ScanDirectory(data, offset + 2, tagCount, big);
  }

  method ScanDirectory(data: bytes, start: nat, tagCount: nat, big: bool) returns (size: Size)
    requires start <= |data|
    ensures size == Scan(Entries(data[start..], tagCount, big), None, None, big)
  {
    hide Value, U16, U32, ValidSize;
    var width: Option<nat>, height: Option<nat> := None, None;
    var pos := start;
    for k := 0 to tagCount
      invariant pos == start + 12 * k <= |data|
      invariant Scan(Entries(data[start..], tagCount, big), None, None, big)
             == Scan(Entries(data[pos..], tagCount - k, big), width, height, big)
    {
      if pos + 12 > |data| {
        break;
      }
      ghost var s, e := data[pos..], ReadEntry(data[pos..], big);
      SameEntry(data, pos, big);
      var tag := U16(data, pos, big);
      var fieldType := U16(data, pos + 2, big);
      var count := U32(data, pos + 4, big);
      var value := FindTiffValue(data, pos + 8, fieldType, count, big);
      assert value == e.ValueIn(big);
      EntriesStep(s, tagCount - k, big);
      assert s[12..] == data[pos + 12..];
      ScanStep(e, Entries(s[12..], tagCount - k - 1, big), width, height, big);
      if tag == 256 {
        width := value;
      } else if tag == 257 {
        height := value;
      }
      if width.Some? && height.Some? {
        return ValidSize(width.value, height.value);
      }
      pos := pos + 12;
    }
    return None;
  }

  lemma SameEntry(data: bytes, pos: nat, big: bool)
    requires pos + 12 <= |data|
    ensures ReadEntry(data[pos..], big)
         == Entry(U16(data, pos, big), U16(data, pos + 2, big), U32(data, pos + 4, big), data[pos + 8..pos + 12])
  {
  }

  lemma EntriesStep(s: bytes, n: nat, big: bool)
    requires n > 0 && |s| >= 12
    ensures Entries(s, n, big) == [ReadEntry(s, big)] + Entries(s[12..], n - 1, big)
  {
  }

  lemma ScanStep(e: Entry, es: seq<Entry>, width: Option<nat>, height: Option<nat>, big: bool)
    requires e.Valid() && forall x :: x in es ==> x.Valid()
    ensures Scan([e] + es, width, height, big) == (
              var w, h := Update(width, WIDTH_TAG, e, big), Update(height, HEIGHT_TAG, e, big);
              if w.Some? && h.Some? then ValidSize(w.value, h.value) else Scan(es, w, h, big))
  {
    assert ([e] + es)[1..] == es;
  }

  // ----- which entries decide -----

  /** The value of the last entry with this tag among the first `k`; `known` if there is none. */
  function LastValue(es: seq<Entry>, k: nat, tag: nat, known: Option<nat>, big: bool): Option<nat>
    requires k <= |es| && forall e :: e in es ==> e.Valid()
  {
    if k == 0 then known
    else if es[k - 1].tag == tag then es[k - 1].ValueIn(big)
    else LastValue(es, k - 1, tag, known, big)
  }

  /** Both sizes are known after `k` entries. */
  predicate BothKnown(es: seq<Entry>, k: nat, width: Option<nat>, height: Option<nat>, big: bool)
    requires k <= |es| && forall e :: e in es ==> e.Valid()
  {
    LastValue(es, k, WIDTH_TAG, width, big).Some? && LastValue(es, k, HEIGHT_TAG, height, big).Some?
  }

  /** After `k` entries, and no sooner. */
  ghost predicate FirstKnown(es: seq<Entry>, k: nat, width: Option<nat>, height: Option<nat>, big: bool)
    requires k <= |es| && forall e :: e in es ==> e.Valid()
  {
    && 0 < k && BothKnown(es, k, width, height, big)
    && forall j :: 0 < j < k ==> !BothKnown(es, j, width, height, big)
  }

  lemma {:induction false} LastValueCons(e: Entry, es: seq<Entry>, k: nat, tag: nat, known: Option<nat>, big: bool)
    requires e.Valid() && (forall x :: x in es ==> x.Valid()) && k <= |es|
    ensures LastValue([e] + es, k + 1, tag, known, big) == LastValue(es, k, tag, Update(known, tag, e, big), big)
  {
    if k > 0 {
      LastValueCons(e, es, k - 1, tag, known, big);
    }
  }

  lemma {:induction false} ScanFirst(es: seq<Entry>, width: Option<nat>, height: Option<nat>, big: bool, k: nat)
    requires (forall e :: e in es ==> e.Valid()) && k <= |es| && FirstKnown(es, k, width, height, big)
    ensures Scan(es, width, height, big)
         == ValidSize(LastValue(es, k, WIDTH_TAG, width, big).value, LastValue(es, k, HEIGHT_TAG, height, big).value)
  {
    var e, rest := es[0], es[1..];
    assert es == [e] + rest;
    var w, h := Update(width, WIDTH_TAG, e, big), Update(height, HEIGHT_TAG, e, big);
    LastValueCons(e, rest, 0, WIDTH_TAG, width, big);
    LastValueCons(e, rest, 0, HEIGHT_TAG, height, big);
    LastValueCons(e, rest, k - 1, WIDTH_TAG, width, big);
    LastValueCons(e, rest, k - 1, HEIGHT_TAG, height, big);
    if k > 1 {
      assert !BothKnown(es, 1, width, height, big);
      forall j | 0 < j < k - 1 ensures !BothKnown(rest, j, w, h, big) {
        assert !BothKnown(es, j + 1, width, height, big);
        LastValueCons(e, rest, j, WIDTH_TAG, width, big);
        LastValueCons(e, rest, j, HEIGHT_TAG, height, big);
      }
      ScanFirst(rest, w, h, big, k - 1);
    }
  }

  lemma {:induction false} ScanNever(es: seq<Entry>, width: Option<nat>, height: Option<nat>, big: bool)
    requires forall e :: e in es ==> e.Valid()
    requires forall j :: 0 < j <= |es| ==> !BothKnown(es, j, width, height, big)
    ensures Scan(es, width, height, big) == None
  {
    if es != [] {
      var e, rest := es[0], es[1..];
      assert es == [e] + rest;
      LastValueCons(e, rest, 0, WIDTH_TAG, width, big);
      LastValueCons(e, rest, 0, HEIGHT_TAG, height, big);
      assert !BothKnown(es, 1, width, height, big);
      var w, h := Update(width, WIDTH_TAG, e, big), Update(height, HEIGHT_TAG, e, big);
      forall j | 0 < j <= |rest| ensures !BothKnown(rest, j, w, h, big) {
        assert !BothKnown(es, j + 1, width, height, big);
        LastValueCons(e, rest, j, WIDTH_TAG, width, big);
        LastValueCons(e, rest, j, HEIGHT_TAG, height, big);
      }
      ScanNever(rest, w, h, big);
    }
  }

  /** The least number of entries after which both sizes are known, if there is one. */
  lemma {:induction false} SomeFirst(es: seq<Entry>, width: Option<nat>, height: Option<nat>, big: bool, j: nat) returns (k: nat)
    requires (forall e :: e in es ==> e.Valid()) && 0 < j <= |es| && BothKnown(es, j, width, height, big)
    ensures k <= j && FirstKnown(es, k, width, height, big)
  {
    if i :| 0 < i < j && BothKnown(es, i, width, height, big) {
      k := SomeFirst(es, width, height, big, i);
    } else {
      k := j;
    }
  }

  /** At the first point where both sizes are known, they are these, and positive. */
  ghost predicate Records(es: seq<Entry>, big: bool, width: nat, height: nat)
    requires forall e :: e in es ==> e.Valid()
  {
    width > 0 && height > 0 &&
    exists k :: 0 <= k <= |es| && FirstKnown(es, k, None, None, big)
                && LastValue(es, k, WIDTH_TAG, None, big) == Some(width)
                && LastValue(es, k, HEIGHT_TAG, None, big) == Some(height)
  }

  /** Scanning gives a size exactly when, at the first point where both are known, they are that size. */
  lemma ScanExact(es: seq<Entry>, big: bool, width: nat, height: nat)
    requires forall e :: e in es ==> e.Valid()
    ensures Scan(es, None, None, big) == Some((width, height))
       <==> Records(es, big, width, height)
  {
    if j :| 0 < j <= |es| && BothKnown(es, j, None, None, big) {
      var k := SomeFirst(es, None, None, big, j);
      ScanFirst(es, None, None, big, k);
      if i :| 0 <= i <= |es| && FirstKnown(es, i, None, None, big) {
        assert i == k;
      }
    } else {
      ScanNever(es, None, None, big);
    }
  }

  // ----- encodings -----

  function EncodeEntries(es: seq<Entry>, big: bool): (s: bytes)
    requires forall e :: e in es ==> e.Valid()
    ensures |s| == 12 * |es|
  {
    if es == [] then [] else es[0].Encode(big) + EncodeEntries(es[1..], big)
  }

  lemma EntryRoundTrip(e: Entry, big: bool, rest: bytes)
    requires e.Valid()
    ensures ReadEntry(e.Encode(big) + rest, big) == e && (e.Encode(big) + rest)[12..] == rest
  {
    var tag, typ, count := Put16(e.tag, big), Put16(e.fieldType, big), Put32(e.count, big);
    var s := e.Encode(big) + rest;
    ReadShift([], tag, typ + count + e.raw + rest, 0, big);
    assert s == [] + tag + (typ + count + e.raw + rest);
    ReadShift(tag, typ, count + e.raw + rest, 0, big);
    assert s == tag + typ + (count + e.raw + rest);
    ReadShift(tag + typ, count, e.raw + rest, 0, big);
    assert s == tag + typ + count + (e.raw + rest);
    assert s[8..12] == e.raw;
  }

  lemma {:induction false} EntriesRoundTrip(es: seq<Entry>, n: nat, big: bool, tail: bytes)
    requires n <= |es| && forall e :: e in es ==> e.Valid()
    ensures Entries(EncodeEntries(es, big) + tail, n, big) == es[..n]
  {
    if n > 0 {
      hide ReadEntry, Entry.Encode, Entry.Valid, Entries;
      var rest := EncodeEntries(es[1..], big) + tail;
      assert es[0] in es;
      EntryRoundTrip(es[0], big, rest);
      Reassociate(es[0].Encode(big), EncodeEntries(es[1..], big), tail);
      EntriesStep(es[0].Encode(big) + rest, n, big);
      EntriesRoundTrip(es[1..], n - 1, big, tail);
      TakeCons(es, n);
    }
  }

  lemma TakeCons(es: seq<Entry>, n: nat)
    requires 0 < n <= |es|
    ensures es[..n] == [es[0]] + es[1..][..n - 1]
  {
  }

  /** A file: header, anything up to the directory, the announced number of entries, entries, anything. */
  function EncodeTiff(big: bool, gap: bytes, count: nat, es: seq<Entry>, tail: bytes): bytes
    requires (forall e :: e in es ==> e.Valid()) && count < 0x1_0000 && |gap| + 8 < 0x1_0000_0000
  {
    (if big then BIG else LITTLE) + Put32(|gap| + 8, big) + gap + Put16(count, big) + (EncodeEntries(es, big) + tail)
  }

  /** The tag occurs once among the first `n` entries, with this value. */
  ghost predicate OnceWith(es: seq<Entry>, n: nat, tag: nat, value: nat, big: bool)
    requires n <= |es| && forall e :: e in es ==> e.Valid()
  {
    exists a :: 0 <= a < n && es[a].tag == tag && es[a].ValueIn(big) == Some(value)
                && forall b :: 0 <= b < n && es[b].tag == tag ==> b == a
  }

  lemma {:induction false} OnceIsLast(es: seq<Entry>, n: nat, tag: nat, value: nat, big: bool, k: nat)
    requires k <= n <= |es| && (forall e :: e in es ==> e.Valid()) && OnceWith(es, n, tag, value, big)
    ensures LastValue(es, k, tag, None, big).Some? ==> LastValue(es, k, tag, None, big) == Some(value)
    ensures k == n ==> LastValue(es, k, tag, None, big) == Some(value)
  {
    var a :| 0 <= a < n && es[a].tag == tag && es[a].ValueIn(big) == Some(value)
             && forall b :: 0 <= b < n && es[b].tag == tag ==> b == a;
    OnceUpTo(es, k, tag, value, big, a);
  }

  lemma {:induction false} OnceUpTo(es: seq<Entry>, k: nat, tag: nat, value: nat, big: bool, a: nat)
    requires k <= |es| && (forall e :: e in es ==> e.Valid()) && a < |es|
    requires es[a].tag == tag && es[a].ValueIn(big) == Some(value) && forall b :: 0 <= b < k && es[b].tag == tag ==> b == a
    ensures LastValue(es, k, tag, None, big) == if a < k then Some(value) else None
  {
    if k > 0 {
      OnceUpTo(es, k - 1, tag, value, big, a);
    }
  }

  lemma HeaderReads(big: bool, gap: bytes, count: nat, es: seq<Entry>, tail: bytes)
    requires (forall e :: e in es ==> e.Valid()) && count < 0x1_0000 && |gap| + 8 < 0x1_0000_0000
    ensures var data := EncodeTiff(big, gap, count, es, tail);
            && |data| >= |gap| + 10 && data[..4] == (if big then BIG else LITTLE) && U32(data, 4, big) == |gap| + 8
            && U16(data, |gap| + 8, big) == count && data[|gap| + 10..] == EncodeEntries(es, big) + tail
  {
    hide Put16, Put32;
    var magic := if big then BIG else LITTLE;
    var offset, number, rest := Put32(|gap| + 8, big), Put16(count, big), EncodeEntries(es, big) + tail;
    var data := EncodeTiff(big, gap, count, es, tail);
    ReadShift(magic, offset, gap + number + rest, 0, big);
    assert data == magic + offset + (gap + number + rest);
    ReadShift(magic + offset + gap, number, rest, 0, big);
    assert data == magic + offset + gap + number + rest;
  }

  /** In both byte orders, a file whose directory holds each size tag once within its first 256 entries is
      read back, wherever the directory starts, whatever the other entries are. */
  lemma TiffRoundTrip(big: bool, gap: bytes, es: seq<Entry>, tail: bytes, width: nat, height: nat)
    requires (forall e :: e in es ==> e.Valid()) && |es| < 0x1_0000 && |gap| + 8 < 0x1_0000_0000
    requires var n := Limit(|es|);
             OnceWith(es, n, WIDTH_TAG, width, big) && OnceWith(es, n, HEIGHT_TAG, height, big)
    requires width > 0 && height > 0
    ensures TiffSize(EncodeTiff(big, gap, |es|, es, tail)) == Some((width, height))
  {
    hide U16, U32, EncodeTiff, Scan, Entries, EncodeEntries, OnceWith;
    var n := Limit(|es|);
    var first := es[..n];
    HeaderReads(big, gap, |es|, es, tail);
    EntriesRoundTrip(es, n, big, tail);
    forall e | e in first ensures e.Valid() { assert e in es; }
    OncePrefix(es, n, WIDTH_TAG, width, big);
    OncePrefix(es, n, HEIGHT_TAG, height, big);
    ScanOnce(first, big, width, height);
    assert BIG != LITTLE by { assert BIG[0] != LITTLE[0]; }
  }

  lemma OncePrefix(es: seq<Entry>, n: nat, tag: nat, value: nat, big: bool)
    requires n <= |es| && (forall e :: e in es ==> e.Valid()) && OnceWith(es, n, tag, value, big)
    ensures (forall e :: e in es[..n] ==> e.Valid()) && OnceWith(es[..n], n, tag, value, big)
  {
    var a :| 0 <= a < n && es[a].tag == tag && es[a].ValueIn(big) == Some(value)
             && forall b :: 0 <= b < n && es[b].tag == tag ==> b == a;
    assert es[..n][a] == es[a];
  }

  lemma ScanOnce(es: seq<Entry>, big: bool, width: nat, height: nat)
    requires (forall e :: e in es ==> e.Valid()) && width > 0 && height > 0
    requires OnceWith(es, |es|, WIDTH_TAG, width, big) && OnceWith(es, |es|, HEIGHT_TAG, height, big)
    ensures Scan(es, None, None, big) == Some((width, height))
  {
    hide OnceWith, Scan;
    OnceIsLast(es, |es|, WIDTH_TAG, width, big, |es|);
    OnceIsLast(es, |es|, HEIGHT_TAG, height, big, |es|);
    NonEmpty(es, WIDTH_TAG, width, big);
    var k := SomeFirst(es, None, None, big, |es|);
    OnceIsLast(es, |es|, WIDTH_TAG, width, big, k);
    OnceIsLast(es, |es|, HEIGHT_TAG, height, big, k);
    ScanExact(es, big, width, height);
  }

  lemma NonEmpty(es: seq<Entry>, tag: nat, value: nat, big: bool)
    requires (forall e :: e in es ==> e.Valid()) && OnceWith(es, |es|, tag, value, big)
    ensures es != []
  {
  }

  // ----- exactly the encodings -----

  /** `data` is such a file, and `es` are the entries looked at: as many as announced, or all complete ones. */
  ghost predicate IsTiff(data: bytes, big: bool, gap: bytes, count: nat, es: seq<Entry>, tail: bytes) {
    && (forall e :: e in es ==> e.Valid()) && count < 0x1_0000 && |gap| + 8 < 0x1_0000_0000
    && data == EncodeTiff(big, gap, count, es, tail)
    && |es| <= Limit(count) && (|es| < Limit(count) ==> |tail| < 12)
  }

  lemma EntryRead(s: bytes, big: bool)
    requires |s| >= 12
    ensures s == ReadEntry(s, big).Encode(big) + s[12..]
  {
    hide U16, U32, Put16, Put32;
    Put16Get16(s, 0, big);
    Put16Get16(s, 2, big);
    Put32Get32(s, 4, big);
    assert s == s[0..2] + s[2..4] + s[4..8] + s[8..12] + s[12..];
  }

  /** What was read as entries is their encoding. */
  lemma {:induction false} EntriesOnly(s: bytes, n: nat, big: bool)
    ensures var es := Entries(s, n, big);
            && 12 * |es| <= |s| && s == EncodeEntries(es, big) + s[12 * |es|..]
            && (|es| < n ==> |s[12 * |es|..]| < 12)
  {
    if n > 0 && |s| >= 12 {
      hide ReadEntry, Entry.Encode, Entry.Valid;
      EntryRead(s, big);
      EntriesOnly(s[12..], n - 1, big);
      var more := Entries(s[12..], n - 1, big);
      Reassociate(ReadEntry(s, big).Encode(big), EncodeEntries(more, big), s[12..][12 * |more|..]);
      assert ([ReadEntry(s, big)] + more)[1..] == more;
      assert s[12..][12 * |more|..] == s[12 * (|more| + 1)..];
    }
  }

  lemma {:induction false} EntriesAll(es: seq<Entry>, n: nat, big: bool, tail: bytes)
    requires (forall e :: e in es ==> e.Valid()) && |es| <= n && (|es| < n ==> |tail| < 12)
    ensures Entries(EncodeEntries(es, big) + tail, n, big) == es
  {
    if es == [] {
      assert EncodeEntries(es, big) + tail == tail;
    } else {
      hide ReadEntry, Entry.Encode, Entry.Valid, Entries;
      var rest := EncodeEntries(es[1..], big) + tail;
      assert es[0] in es;
      EntryRoundTrip(es[0], big, rest);
      Reassociate(es[0].Encode(big), EncodeEntries(es[1..], big), tail);
      EntriesStep(es[0].Encode(big) + rest, n, big);
      EntriesAll(es[1..], n - 1, big, tail);
    }
  }

  lemma TiffIsRead(data: bytes, big: bool, gap: bytes, count: nat, es: seq<Entry>, tail: bytes)
    requires IsTiff(data, big, gap, count, es, tail)
    ensures TiffSize(data) == Scan(es, None, None, big)
  {
    hide U16, U32, EncodeTiff, Scan, Entries, EncodeEntries;
    HeaderReads(big, gap, count, es, tail);
    EntriesAll(es, Limit(count), big, tail);
    assert BIG != LITTLE by { assert BIG[0] != LITTLE[0]; }
  }

  lemma TiffReads(data: bytes) returns (big: bool, gap: bytes, count: nat, es: seq<Entry>, tail: bytes)
    requires TiffSize(data).Some?
    ensures IsTiff(data, big, gap, count, es, tail)
  {
    hide U16, U32, Scan, Entries, EncodeEntries, Put16, Put32;
    big := data[..4] == BIG;
    var offset := U32(data, 4, big);
    gap, count := data[8..offset], U16(data, offset, big);
    var s := data[offset + 2..];
    es := Entries(s, Limit(count), big);
    EntriesOnly(s, Limit(count), big);
    tail := s[12 * |es|..];
    Put32Get32(data, 4, big);
    Put16Get16(data, offset, big);
    Cut(data, offset);
  }

  lemma Cut(data: bytes, offset: nat)
    requires 8 <= offset <= offset + 2 <= |data|
    ensures data == data[..4] + data[4..8] + data[8..offset] + data[offset..offset + 2] + data[offset + 2..]
  {
  }

  /** A size is read exactly from the files whose entries, as far as they are looked at, record it. */
  lemma TiffSizeExact(data: bytes, width: nat, height: nat)
    ensures TiffSize(data) == Some((width, height))
       <==> exists big, gap, count, es: seq<Entry>, tail ::
              IsTiff(data, big, gap, count, es, tail) && Records(es, big, width, height)
  {
    hide TiffSize, IsTiff, Records, Scan;
    if TiffSize(data) == Some((width, height)) {
      var big, gap, count, es, tail := TiffReads(data);
      ValidEntries(data, big, gap, count, es, tail);
      TiffIsRead(data, big, gap, count, es, tail);
      ScanExact(es, big, width, height);
    }
    forall big, gap, count, es: seq<Entry>, tail | IsTiff(data, big, gap, count, es, tail)
      ensures (forall e :: e in es ==> e.Valid())
              && (Records(es, big, width, height) <==> TiffSize(data) == Some((width, height)))
    {
      ValidEntries(data, big, gap, count, es, tail);
      TiffIsRead(data, big, gap, count, es, tail);
      ScanExact(es, big, width, height);
    }
  }

  lemma ValidEntries(data: bytes, big: bool, gap: bytes, count: nat, es: seq<Entry>, tail: bytes)
    requires IsTiff(data, big, gap, count, es, tail)
    ensures forall e :: e in es ==> e.Valid()
  {
  }

  // ----- a picture of 320 by 240, in either byte order -----

  /** Width as a SHORT, height as a LONG, in the directory right behind the header. */
  lemma SmallLittleEndian()
    ensures TiffSize([0x49, 0x49, 0x2A, 0x00] + [0x08, 0x00, 0x00, 0x00] + [0x02, 0x00]
                     + [0x00, 0x01, 0x03, 0x00, 0x01, 0x00, 0x00, 0x00, 0x40, 0x01, 0x00, 0x00]
                     + [0x01, 0x01, 0x04, 0x00, 0x01, 0x00, 0x00, 0x00, 0xF0, 0x00, 0x00, 0x00]) == Some((320, 240))
  {
    var w, h := Entry(256, 3, 1, [0x40, 0x01, 0x00, 0x00]), Entry(257, 4, 1, [0xF0, 0x00, 0x00, 0x00]);
    assert w.Encode(false) == [0x00, 0x01, 0x03, 0x00, 0x01, 0x00, 0x00, 0x00, 0x40, 0x01, 0x00, 0x00];
    assert h.Encode(false) == [0x01, 0x01, 0x04, 0x00, 0x01, 0x00, 0x00, 0x00, 0xF0, 0x00, 0x00, 0x00];
    assert Put32(8, false) == [0x08, 0x00, 0x00, 0x00] && Put16(2, false) == [0x02, 0x00];
    assert w.ValueIn(false) == Some(320) && h.ValueIn(false) == Some(240);
    hide Entry.Encode, Entry.ValueIn, Put16, Put32, TiffSize;
    SmallFile(false, w, h);
  }

  lemma SmallBigEndian()
    ensures TiffSize([0x4D, 0x4D, 0x00, 0x2A] + [0x00, 0x00, 0x00, 0x08] + [0x00, 0x02]
                     + [0x01, 0x00, 0x00, 0x03, 0x00, 0x00, 0x00, 0x01, 0x01, 0x40, 0x00, 0x00]
                     + [0x01, 0x01, 0x00, 0x04, 0x00, 0x00, 0x00, 0x01, 0x00, 0x00, 0x00, 0xF0]) == Some((320, 240))
  {
    var w, h := Entry(256, 3, 1, [0x01, 0x40, 0x00, 0x00]), Entry(257, 4, 1, [0x00, 0x00, 0x00, 0xF0]);
    assert w.Encode(true) == [0x01, 0x00, 0x00, 0x03, 0x00, 0x00, 0x00, 0x01, 0x01, 0x40, 0x00, 0x00];
    assert h.Encode(true) == [0x01, 0x01, 0x00, 0x04, 0x00, 0x00, 0x00, 0x01, 0x00, 0x00, 0x00, 0xF0];
    assert Put32(8, true) == [0x00, 0x00, 0x00, 0x08] && Put16(2, true) == [0x00, 0x02];
    assert w.ValueIn(true) == Some(320) && h.ValueIn(true) == Some(240);
    hide Entry.Encode, Entry.ValueIn, Put16, Put32, TiffSize;
    SmallFile(true, w, h);
  }

  lemma SmallFile(big: bool, w: Entry, h: Entry)
    requires w.Valid() && h.Valid() && w.tag == 256 && h.tag == 257
    requires w.ValueIn(big) == Some(320) && h.ValueIn(big) == Some(240)
    ensures TiffSize((if big then BIG else LITTLE) + Put32(8, big) + Put16(2, big) + w.Encode(big) + h.Encode(big)) == Some((320, 240))
  {
    hide Entry.Encode, Entry.ValueIn, Entry.Valid, Put16, Put32;
    var es := [w, h];
    assert es[0] == w && es[1] == h;
    assert OnceWith(es, 2, 256, 320, big) && OnceWith(es, 2, 257, 240, big);
    TiffRoundTrip(big, [], es, [], 320, 240);
    assert es[1..] == [h] && es[1..][1..] == [];
    assert EncodeEntries([h], big) == h.Encode(big) + [] by { assert [h][1..] == []; }
    assert EncodeEntries(es, big) == w.Encode(big) + EncodeEntries([h], big);
    assert EncodeTiff(big, [], 2, es, []) ==
           (if big then BIG else LITTLE) + Put32(8, big) + Put16(2, big) + w.Encode(big) + h.Encode(big);
  }
}
