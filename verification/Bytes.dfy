/** Fixed-width integers in byte strings, both ways round. */
module Bytes {
  import opened Prelude

  type byte = x: int | 0 <= x < 256

  type bytes = seq<byte>

  /** A picture's width and height. */
  type Size = Option<(nat, nat)>

  function ValidSize(width: nat, height: nat): Size {
    if width == 0 || height == 0 then None else Some((width, height))
  }

  function U16(s: bytes, i: nat, big: bool): (v: nat)
    requires i + 2 <= |s|
    ensures v < 0x1_0000
  {
    if big then (s[i] as int) * 256 + s[i + 1] else (s[i + 1] as int) * 256 + s[i]
  }

  function U24(s: bytes, i: nat): (v: nat)
    requires i + 3 <= |s|
    ensures v < 0x100_0000
  {
    ((s[i + 2] as int) * 256 + s[i + 1]) * 256 + s[i]
  }

  function U32(s: bytes, i: nat, big: bool): (v: nat)
    requires i + 4 <= |s|
    ensures v < 0x1_0000_0000
  {
    if big then U16(s, i, big) * 0x1_0000 + U16(s, i + 2, big) else U16(s, i + 2, big) * 0x1_0000 + U16(s, i, big)
  }

  function Put16(v: nat, big: bool): (s: bytes)
    requires v < 0x1_0000
    ensures |s| == 2 && U16(s, 0, big) == v
  {
    if big then [v / 256, v % 256] else [v % 256, v / 256]
  }

  function Put24(v: nat): (s: bytes)
    requires v < 0x100_0000
    ensures |s| == 3 && U24(s, 0) == v
  {
    [v % 256, v / 256 % 256, v / 0x1_0000]
  }

  function Put32(v: nat, big: bool): (s: bytes)
    requires v < 0x1_0000_0000
    ensures |s| == 4 && U32(s, 0, big) == v
  {
    var high, low := Put16(v / 0x1_0000, big), Put16(v % 0x1_0000, big);
    var s := if big then high + low else low + high;
    assert U16(s, 0, big) == U16(if big then high else low, 0, big);
    assert U16(s, 2, big) == U16(if big then low else high, 0, big);
    s
  }

  lemma Put16Get16(s: bytes, i: nat, big: bool)
    requires i + 2 <= |s|
    ensures s[i..i + 2] == Put16(U16(s, i, big), big)
  {
    var v := U16(s, i, big);
    var high: int, low: int := if big then s[i] else s[i + 1], if big then s[i + 1] else s[i];
    assert v == high * 256 + low && v / 256 == high && v % 256 == low;
    assert s[i..i + 2] == [s[i], s[i + 1]];
  }

  lemma Put32Get32(s: bytes, i: nat, big: bool)
    requires i + 4 <= |s|
    ensures s[i..i + 4] == Put32(U32(s, i, big), big)
  {
    var v := U32(s, i, big);
    var high, low := U16(s, if big then i else i + 2, big), U16(s, if big then i + 2 else i, big);
    assert v == high * 0x1_0000 + low && v / 0x1_0000 == high && v % 0x1_0000 == low;
    Put16Get16(s, i, big);
    Put16Get16(s, i + 2, big);
    assert s[i..i + 4] == s[i..i + 2] + s[i + 2..i + 4];
  }

  lemma Put24Get24(s: bytes, i: nat)
    requires i + 3 <= |s|
    ensures s[i..i + 3] == Put24(U24(s, i))
  {
    var v := U24(s, i);
    assert v / 0x1_0000 == s[i + 2];
    assert v / 256 == (s[i + 2] as int) * 256 + s[i + 1];
    assert v / 256 % 256 == s[i + 1] && v % 256 == s[i];
    assert s[i..i + 3] == [s[i], s[i + 1], s[i + 2]];
  }

  /** What is read inside `b` is read from `a + b + c` at its place. */
  lemma ReadShift(a: bytes, b: bytes, c: bytes, i: nat, big: bool)
    ensures i + 2 <= |b| ==> U16(a + b + c, |a| + i, big) == U16(b, i, big)
    ensures i + 3 <= |b| ==> U24(a + b + c, |a| + i) == U24(b, i)
    ensures i + 4 <= |b| ==> U32(a + b + c, |a| + i, big) == U32(b, i, big)
  {
  }

  lemma ReadDrop(s: bytes, pos: nat, i: nat, big: bool)
    ensures pos + i + 2 <= |s| ==> U16(s[pos..], i, big) == U16(s, pos + i, big)
    ensures pos + i + 4 <= |s| ==> U32(s[pos..], i, big) == U32(s, pos + i, big)
  {
  }

  lemma Reassociate(a: bytes, b: bytes, c: bytes)
    ensures a + (b + c) == a + b + c
  {
  }
}
