/**
  Exactly which bytes are a frame. The reader's verdict is told by a grammar over the bytes:
  a length prefix in base 128, then chunks, each of them four header bytes and a payload,
  of which the data chunks carry the checksum of what they decode to.
 */
module FrameGrammar {
  import opened Containers
  import opened Frames
  import opened WireLayout
  import Ssz

  // ---------------------------------------------------------------- the length prefix

  /** The number whose base-128 digits, low digit first, are the low seven bits. */
  function Base128(bytes: seq<Byte>): nat {
    if bytes == [] then 0 else bytes[0] % 128 + 128 * Base128(bytes[1..])
  }

  /** One to ten bytes, all but the last with the high bit set; a tenth byte is at most 1. */
  predicate IsPrefix(bytes: seq<Byte>) {
    && 1 <= |bytes| <= 10
    && (forall i :: 0 <= i < |bytes| - 1 ==> bytes[i] >= 128)
    && bytes[|bytes| - 1] < 128 && (|bytes| == 10 ==> bytes[9] <= 1)
  }

  lemma {:induction false} ShiftAdds(a: nat, b: nat, i: nat)
    ensures Shift(a + 128 * b, i) == Shift(a, i) + Shift(b, i + 1)
  {
    if i > 0 { ShiftAdds(a, b, i - 1); }
  }

  /** The tail of a prefix from byte `i` on. */
  predicate IsTail(bytes: seq<Byte>, i: nat) {
    && bytes != [] && i + |bytes| <= 10
    && (forall j :: 0 <= j < |bytes| - 1 ==> bytes[j] >= 128)
    && bytes[|bytes| - 1] < 128 && (i + |bytes| == 10 ==> bytes[|bytes| - 1] <= 1)
  }

  lemma PrefixIsTail(bytes: seq<Byte>)
    ensures IsPrefix(bytes) <==> IsTail(bytes, 0)
    ensures IsTail(bytes, 0) ==> 1 <= |bytes| <= 10
  {
  }

  lemma ScanStep(rest: seq<Byte>, i: nat, acc: nat)
    requires i < 10 && rest != []
    ensures rest[0] >= 128 ==> ScanUvarint(rest, i, acc) == ScanUvarint(rest[1..], i + 1, acc + Shift(rest[0] - 128, i))
    ensures rest[0] < 128 && (i == 9 ==> rest[0] <= 1) ==>
              ScanUvarint(rest, i, acc) == Ok(Some((acc + Shift(rest[0], i), i + 1)))
    ensures rest[0] < 128 && i == 9 && rest[0] > 1 ==> ScanUvarint(rest, i, acc).Err?
  {
  }

  lemma {:induction false} TailIsScanned(bytes: seq<Byte>, suffix: seq<Byte>, i: nat, acc: nat)
    requires IsTail(bytes, i)
    ensures ScanUvarint(bytes + suffix, i, acc) == Ok(Some((acc + Shift(Base128(bytes), i), i + |bytes|)))
    decreases |bytes|
  {
    hide ScanUvarint, Shift;
    var rest := bytes + suffix;
    ScanStep(rest, i, acc);
    if |bytes| == 1 {
      assert Base128(bytes) == bytes[0];
    } else {
      assert rest[1..] == bytes[1..] + suffix;
      assert IsTail(bytes[1..], i + 1);
      TailIsScanned(bytes[1..], suffix, i + 1, acc + Shift(bytes[0] - 128, i));
      ShiftAdds(bytes[0] - 128, Base128(bytes[1..]), i);
    }
  }

  lemma NothingScanned(i: nat, acc: nat)
    requires i <= 10
    ensures !(ScanUvarint([], i, acc).Ok? && ScanUvarint([], i, acc).value.Some?)
  {
  }

  lemma OverlongFails(rest: seq<Byte>, acc: nat)
    ensures ScanUvarint(rest, 10, acc).Err?
  {
  }

  lemma {:induction false} ScannedIsTail(rest: seq<Byte>, i: nat, acc: nat)
    requires i < 10 && ScanUvarint(rest, i, acc).Ok? && ScanUvarint(rest, i, acc).value.Some?
    ensures var m := ScanUvarint(rest, i, acc).value.value.1 - i; 0 < m <= |rest| && IsTail(rest[..m], i)
    decreases 10 - i
  {
    hide ScanUvarint, Shift;
    NothingScanned(i, acc);
    ScanStep(rest, i, acc);
    if rest[0] >= 128 {
      OverlongFails(rest[1..], acc + Shift(rest[0] - 128, i));
      ScannedIsTail(rest[1..], i + 1, acc + Shift(rest[0] - 128, i));
      var m := ScanUvarint(rest, i, acc).value.value.1 - i;
      assert rest[..m] == [rest[0]] + rest[1..][..m - 1];
    }
  }

  /** The reader takes exactly the prefixes of this shape, as the number they spell. */
  lemma LengthIff(rest: seq<Byte>, v: nat, m: nat)
    ensures ScanUvarint(rest, 0, 0) == Ok(Some((v, m))) <==>
            m <= |rest| && IsPrefix(rest[..m]) && v == Base128(rest[..m])
  {
    hide ScanUvarint, Base128, IsPrefix, IsTail;
    if m <= |rest| { PrefixIsTail(rest[..m]); }
    if ScanUvarint(rest, 0, 0) == Ok(Some((v, m))) { ScannedIsTail(rest, 0, 0); }
    if m <= |rest| && IsPrefix(rest[..m]) {
      TailIsScanned(rest[..m], rest[m..], 0, 0);
      assert rest[..m] + rest[m..] == rest;
    }
  }

  /** The writer's prefix has this shape, spells its value, and has no superfluous byte. */
  lemma {:induction false} WrittenLength(v: nat)
    ensures Base128(Uvarint(v)) == v && Uvarint(v) != []
    ensures forall i :: 0 <= i < |Uvarint(v)| - 1 ==> Uvarint(v)[i] >= 128
    ensures Uvarint(v)[|Uvarint(v)| - 1] < 128
    ensures |Uvarint(v)| > 1 ==> Uvarint(v)[|Uvarint(v)| - 1] > 0
    decreases v
  {
    if v >= 128 {
      var rest := Uvarint(v / 128);
      WrittenLength(v / 128);
      assert Uvarint(v)[1..] == rest;
      forall i | 0 <= i < |Uvarint(v)| - 1 ensures Uvarint(v)[i] >= 128 {
        if i > 0 { assert Uvarint(v)[i] == rest[i - 1]; }
      }
    }
  }

  // ---------------------------------------------------------------- chunks

  /** A chunk as it lies in the stream, with the bytes it decodes to. */
  datatype Part = Part(kind: Byte, payload: seq<Byte>, data: seq<Byte>)

  function PartBytes(p: Part): seq<Byte> {
    var n := |p.payload|;
    [p.kind, n % 256, n / 256 % 256, n / 65536 % 256] + p.payload
  }

  lemma FourBytes(bytes: seq<Byte>)
    requires |bytes| == 4
    ensures LittleEndian(bytes) == Le32(bytes[0], bytes[1], bytes[2], bytes[3])
  {
    var b1, b2, b3 := bytes[1..], bytes[2..], bytes[3..];
    assert b1[1..] == b2 && b2[1..] == b3 && b3[1..] == [];
    assert LittleEndian(b3) == bytes[3] as nat;
    assert LittleEndian(b2) == bytes[2] as nat + 256 * LittleEndian(b3);
    assert LittleEndian(b1) == bytes[1] as nat + 256 * LittleEndian(b2);
  }

  /** What a single chunk must be. A stream identifier spells sNaPpY; a data chunk starts
      with the little-endian checksum of its decoded bytes, which are the rest of the payload
      or what that decompresses to; kinds 2 to 127 do not occur; others carry no data. */
  ghost predicate IsPart(codec: Codec, p: Part) {
    && |p.payload| < 16777216
    && (p.kind == 0xff ==> p.payload == [0x73, 0x4e, 0x61, 0x50, 0x70, 0x59])
    && (p.kind <= 1 ==>
          && |p.payload| >= 4
          && LittleEndian(p.payload[..4]) == codec.crc(p.data)
          && (if p.kind == 0 then codec.decompress(p.payload[4..]) == Some(p.data) else p.payload[4..] == p.data))
    && (p.kind > 1 ==> p.kind > 0x7f && p.data == [])
  }

  function AllBytes(parts: seq<Part>): seq<Byte> {
    if parts == [] then [] else PartBytes(parts[0]) + AllBytes(parts[1..])
  }

  function AllData(parts: seq<Part>): seq<Byte> {
    if parts == [] then [] else parts[0].data + AllData(parts[1..])
  }

  ghost predicate HasIdentifier(parts: seq<Part>) {
    exists p :: p in parts && p.kind == 0xff
  }

  /** The chunks make up a body of `length` bytes: at most 4096 of them, each begun only
      while data is still owed, none larger than what is owed and its checksum, one
      identifier at most and none after data. With `seen` the identifier has been. */
  ghost predicate IsBody(codec: Codec, parts: seq<Part>, length: nat, seen: bool, done: nat) {
    && done + |parts| <= 4096 && (forall p :: p in parts ==> IsPart(codec, p))
    && (forall i :: 0 <= i < |parts| ==>
          var before := parts[..i];
          && |AllData(before)| < length && |parts[i].payload| <= length - |AllData(before)| + 4
          && (parts[i].kind == 0xff ==> !seen && !HasIdentifier(before))
          && (parts[i].kind <= 1 ==> seen || HasIdentifier(before)))
    && |AllData(parts)| == length
  }

  // ---------------------------------------------------------------- one chunk

  lemma HeaderLength(p: Part, suffix: seq<Byte>, budget: nat)
    requires |p.payload| < 16777216
    ensures NextChunk(PartBytes(p) + suffix, budget) ==
            if |p.payload| > budget then Err(ChunkOverBudget) else Ok(Chunk(p.kind, p.payload, |PartBytes(p)|))
  {
    var n, bytes := |p.payload|, PartBytes(p) + suffix;
    Digits24(n);
    assert n / 65536 % 256 == n / 65536 == n / 256 / 256;
    assert bytes[4..4 + n] == p.payload;
  }

  /** What the grammar asks of the next chunk. */
  ghost predicate MayCome(codec: Codec, p: Part, remaining: nat, seen: bool) {
    && IsPart(codec, p) && |p.payload| <= remaining + 4 && |p.data| <= remaining
    && (p.kind == 0xff ==> !seen) && (p.kind <= 1 ==> seen)
  }

  /** The decoder accepts a data payload exactly when its checksum is right. */
  lemma DataDecodes(codec: Codec, kind: Byte, payload: seq<Byte>, data: seq<Byte>)
    requires kind <= 1
    ensures DecodeData(codec, kind, payload) == Ok(data) <==>
            && |payload| >= 4 && LittleEndian(payload[..4]) == codec.crc(data)
            && (if kind == 0 then codec.decompress(payload[4..]) == Some(data) else payload[4..] == data)
  {
    hide LittleEndian, Le32;
    if |payload| >= 4 { FourBytes(payload[..4]); }
  }

  lemma PartIsRead(codec: Codec, p: Part, suffix: seq<Byte>, remaining: U64, seen: bool)
    requires MayCome(codec, p, remaining, seen)
    ensures ChunkStep(codec, PartBytes(p) + suffix, remaining, seen) ==
            Ok(Step(p.data, |PartBytes(p)|, seen || p.kind == 0xff))
  {
    hide PartBytes, NextChunk, DecodeData, LittleEndian;
    HeaderLength(p, suffix, Budget(remaining));
    if p.kind <= 1 { DataDecodes(codec, p.kind, p.payload, p.data); }
  }

  lemma ReadIsPart(codec: Codec, rest: seq<Byte>, remaining: U64, seen: bool) returns (p: Part)
    requires ChunkStep(codec, rest, remaining, seen).Ok?
    ensures MayCome(codec, p, remaining, seen)
    ensures var s := ChunkStep(codec, rest, remaining, seen).value;
            s.data == p.data && s.seen == (seen || p.kind == 0xff) && s.size <= |rest| && PartBytes(p) == rest[..s.size]
  {
    hide PartBytes, NextChunk, DecodeData, LittleEndian;
    var s := ChunkStep(codec, rest, remaining, seen).value;
    var c := NextChunk(rest, Budget(remaining)).value;
    p := Part(c.kind, c.payload, s.data);
    BytesOfChunk(rest, Budget(remaining), p);
    if p.kind <= 1 { DataDecodes(codec, p.kind, p.payload, p.data); }
  }

  lemma ThreeDigits(a: nat, b: nat, c: nat)
    requires a < 256 && b < 256 && c < 256
    ensures var n := a + 256 * b + 65536 * c; n % 256 == a && n / 256 % 256 == b && n / 65536 % 256 == c
  {
    var q := b + 256 * c;
    var n := a + 256 * q;
    assert n / 256 == q && n / 65536 == q / 256;
  }

  lemma BytesOfChunk(rest: seq<Byte>, budget: nat, p: Part)
    requires NextChunk(rest, budget).Ok?
    requires var c := NextChunk(rest, budget).value; p.kind == c.kind && p.payload == c.payload
    ensures |p.payload| < 16777216 && |p.payload| <= budget
    ensures NextChunk(rest, budget).value.size <= |rest|
    ensures PartBytes(p) == rest[..NextChunk(rest, budget).value.size]
  {
    var n := |p.payload|;
    var a, b, c := rest[1] as nat, rest[2] as nat, rest[3] as nat;
    assert n == a + 256 * b + 65536 * c;
    ThreeDigits(a, b, c);
    assert rest[..4 + n] == [rest[0], rest[1], rest[2], rest[3]] + rest[4..4 + n];
  }

  // ---------------------------------------------------------------- whole bodies

  lemma Prefixed(p: Part, tail: seq<Part>, i: nat)
    requires i < |tail|
    ensures ([p] + tail)[..i + 1] == [p] + tail[..i]
    ensures AllData([p] + tail[..i]) == p.data + AllData(tail[..i])
    ensures HasIdentifier([p] + tail[..i]) <==> p.kind == 0xff || HasIdentifier(tail[..i])
  {
    var more := [p] + tail[..i];
    assert more[1..] == tail[..i];
    assert p in more && forall q :: q in tail[..i] ==> q in more;
  }

  /** A body is its first chunk and a body of what is then owed. */
  lemma BodySplits(codec: Codec, p: Part, tail: seq<Part>, length: nat, seen: bool, done: nat)
    ensures IsBody(codec, [p] + tail, length, seen, done) <==>
            && length > 0 && done < 4096 && MayCome(codec, p, length, seen)
            && IsBody(codec, tail, length - |p.data|, seen || p.kind == 0xff, done + 1)
  {
    hide IsPart;
    var all := [p] + tail;
    assert all[0] == p && all[1..] == tail && all[..0] == [];
    assert AllData(all) == p.data + AllData(tail);
    assert forall q :: q in all <==> q == p || q in tail;
    if IsBody(codec, all, length, seen, done) {
      FirstOfBody(codec, p, tail, length, seen, done);
      RestOfBody(codec, p, tail, length, seen, done);
    }
    if length > 0 && done < 4096 && MayCome(codec, p, length, seen)
       && IsBody(codec, tail, length - |p.data|, seen || p.kind == 0xff, done + 1) {
      LongerBody(codec, p, tail, length, seen, done);
    }
  }

  lemma FirstOfBody(codec: Codec, p: Part, tail: seq<Part>, length: nat, seen: bool, done: nat)
    requires IsBody(codec, [p] + tail, length, seen, done)
    ensures length > 0 && done < 4096 && MayCome(codec, p, length, seen)
  {
    hide IsPart;
    var all := [p] + tail;
    assert all[0] == p && p in all && all[..0] == [] && all[1..] == tail;
  }

  lemma RestOfBody(codec: Codec, p: Part, tail: seq<Part>, length: nat, seen: bool, done: nat)
    requires IsBody(codec, [p] + tail, length, seen, done) && |p.data| <= length
    ensures IsBody(codec, tail, length - |p.data|, seen || p.kind == 0xff, done + 1)
  {
    hide IsPart, HasIdentifier, AllData;
    var all := [p] + tail;
    assert all[1..] == tail && forall q :: q in tail ==> q in all;
    FirstData(p, tail);
    forall i | 0 <= i < |tail|
      ensures var before := tail[..i];
              && |AllData(before)| < length - |p.data|
              && |tail[i].payload| <= length - |p.data| - |AllData(before)| + 4
              && (tail[i].kind == 0xff ==> !(seen || p.kind == 0xff) && !HasIdentifier(before))
              && (tail[i].kind <= 1 ==> seen || p.kind == 0xff || HasIdentifier(before))
    {
      Prefixed(p, tail, i);
      assert all[i + 1] == tail[i];
    }
  }

  lemma LongerBody(codec: Codec, p: Part, tail: seq<Part>, length: nat, seen: bool, done: nat)
    requires length > 0 && done < 4096 && MayCome(codec, p, length, seen)
    requires IsBody(codec, tail, length - |p.data|, seen || p.kind == 0xff, done + 1)
    ensures IsBody(codec, [p] + tail, length, seen, done)
  {
    hide IsPart, HasIdentifier, AllData;
    var all := [p] + tail;
    assert all[1..] == tail && all[0] == p;
    FirstData(p, tail);
    forall i | 0 <= i < |all|
      ensures var before := all[..i];
              && |AllData(before)| < length && |all[i].payload| <= length - |AllData(before)| + 4
              && (all[i].kind == 0xff ==> !seen && !HasIdentifier(before))
              && (all[i].kind <= 1 ==> seen || HasIdentifier(before))
    {
      if i > 0 {
        Prefixed(p, tail, i - 1);
        assert all[i] == tail[i - 1];
      } else {
        NothingYet();
        assert all[..0] == [];
      }
    }
  }

  lemma NothingYet()
    ensures !HasIdentifier([]) && AllData([]) == []
  {
  }

  lemma FirstData(p: Part, tail: seq<Part>)
    ensures AllData([p] + tail) == p.data + AllData(tail)
  {
    assert ([p] + tail)[1..] == tail;
  }

  lemma BodyWithin(codec: Codec, parts: seq<Part>, length: nat, seen: bool, done: nat)
    requires IsBody(codec, parts, length, seen, done)
    ensures done + |parts| <= 4096 && (parts == [] <==> length == 0)
  {
    if parts != [] { assert parts[..0] == []; }
  }

  lemma EmptyBody(codec: Codec, seen: bool, done: nat)
    requires done <= 4096
    ensures IsBody(codec, [], 0, seen, done)
  {
  }

  lemma {:induction false} BodyIsRead(
      codec: Codec, parts: seq<Part>, suffix: seq<Byte>, length: U64, seen: bool, done: nat)
    requires IsBody(codec, parts, length, seen, done)
    ensures done <= 4096
    ensures FrameBody(codec, AllBytes(parts) + suffix, length, seen, done) == Ok((AllData(parts), |AllBytes(parts)|))
    decreases |parts|
  {
    hide ChunkStep, FrameBody, IsBody, IsPart, PartBytes;
    BodyWithin(codec, parts, length, seen, done);
    var bytes := AllBytes(parts) + suffix;
    if parts == [] {
      BodyDone(codec, bytes, seen, done);
    } else {
      var p, tail := parts[0], parts[1..];
      assert parts == [p] + tail;
      BodySplits(codec, p, tail, length, seen, done);
      var rest := AllBytes(tail) + suffix;
      assert bytes == PartBytes(p) + rest;
      PartIsRead(codec, p, rest, length, seen);
      BodyUnfolds(codec, bytes, length, seen, done);
      assert bytes[|PartBytes(p)|..] == rest;
      BodyIsRead(codec, tail, suffix, length - |p.data|, seen || p.kind == 0xff, done + 1);
    }
  }

  lemma {:induction false} ReadIsBody(codec: Codec, rest: seq<Byte>, length: U64, seen: bool, done: nat)
    returns (parts: seq<Part>)
    requires done <= 4096 && FrameBody(codec, rest, length, seen, done).Ok?
    ensures IsBody(codec, parts, length, seen, done)
    ensures var (d, used) := FrameBody(codec, rest, length, seen, done).value;
            d == AllData(parts) && used <= |rest| && rest[..used] == AllBytes(parts)
    decreases 4096 - done
  {
    hide ChunkStep, FrameBody, IsBody, IsPart, PartBytes;
    if length == 0 {
      BodyDone(codec, rest, seen, done);
      EmptyBody(codec, seen, done);
      parts := [];
    } else {
      BodyUnfolds(codec, rest, length, seen, done);
      var p := ReadIsPart(codec, rest, length, seen);
      var s := ChunkStep(codec, rest, length, seen).value;
      var tail := ReadIsBody(codec, rest[s.size..], length - |p.data|, s.seen, done + 1);
      BodySplits(codec, p, tail, length, seen, done);
      parts := [p] + tail;
      assert parts[0] == p && parts[1..] == tail;
      var used := FrameBody(codec, rest, length, seen, done).value.1;
      assert rest[..used] == rest[..s.size] + rest[s.size..][..used - s.size];
    }
  }

  /** `parts` at the front of the input make up `used` bytes and decode to `d`. */
  ghost predicate Reads(codec: Codec, rest: seq<Byte>, length: nat, d: seq<Byte>, used: nat, parts: seq<Part>) {
    && IsBody(codec, parts, length, false, 0) && used <= |rest|
    && rest[..used] == AllBytes(parts) && d == AllData(parts)
  }

  ghost predicate IsRead(codec: Codec, rest: seq<Byte>, length: nat, d: seq<Byte>, used: nat) {
    exists parts :: Reads(codec, rest, length, d, used, parts)
  }

  /** A body read is exactly a body of the grammar at the front of the bytes. */
  lemma BodyIff(codec: Codec, rest: seq<Byte>, length: U64, d: seq<Byte>, used: nat)
    ensures FrameBody(codec, rest, length, false, 0) == Ok((d, used)) <==>
            IsRead(codec, rest, length, d, used)
  {
    hide FrameBody, IsBody, AllData, AllBytes;
    if FrameBody(codec, rest, length, false, 0) == Ok((d, used)) {
      var parts := ReadIsBody(codec, rest, length, false, 0);
      assert Reads(codec, rest, length, d, used, parts);
    }
    if parts :| Reads(codec, rest, length, d, used, parts) {
      BodyIsRead(codec, parts, rest[used..], length, false, 0);
      assert rest[..used] + rest[used..] == rest;
    }
  }

  /** A frame read is exactly a length prefix within the cap and such a body. */
  lemma FrameIff(codec: Codec, rest: seq<Byte>, max: Option<U64>, d: seq<Byte>, used: nat)
    ensures ReadFrame(codec, rest, max) == Ok(Some((d, used))) <==>
            exists m: nat :: IsFrame(codec, rest, max, d, used, m)
  {
    hide FrameBody, ScanUvarint, Base128, IsPrefix, IsRead;
    var s := ScanUvarint(rest, 0, 0);
    if s.Ok? && s.value.Some? {
      var (v, m) := s.value.value;
      LengthIff(rest, v, m);
      ScanIsExact(rest, 0, 0);
      if ReadFrame(codec, rest, max) == Ok(Some((d, used))) {
        BodyIff(codec, rest[m..], v, d, used - m);
        assert IsFrame(codec, rest, max, d, used, m);
      }
    }
    if m: nat :| IsFrame(codec, rest, max, d, used, m) {
      LengthIff(rest, Base128(rest[..m]), m);
      ScanIsExact(rest, 0, 0);
      BodyIff(codec, rest[m..], Base128(rest[..m]), d, used - m);
    }
  }

  ghost predicate IsFrame(codec: Codec, rest: seq<Byte>, max: Option<U64>, d: seq<Byte>, used: nat, m: nat) {
    && m <= used && m <= |rest| && IsPrefix(rest[..m]) && (max.Some? ==> Base128(rest[..m]) <= max.value)
    && IsRead(codec, rest[m..], Base128(rest[..m]), d, used - m)
  }

  // ---------------------------------------------------------------- streams

  lemma SamePrefixReads(codec: Codec, x: seq<Byte>, y: seq<Byte>, length: nat, d: seq<Byte>, used: nat)
    requires used <= |x| && used <= |y| && x[..used] == y[..used]
    ensures IsRead(codec, x, length, d, used) <==> IsRead(codec, y, length, d, used)
  {
    hide IsBody, AllBytes, AllData;
    if parts :| Reads(codec, x, length, d, used, parts) { assert Reads(codec, y, length, d, used, parts); }
    if parts :| Reads(codec, y, length, d, used, parts) { assert Reads(codec, x, length, d, used, parts); }
  }

  /** What makes `a` a frame is in `a`. */
  lemma FrameIsLocal(codec: Codec, a: seq<Byte>, b: seq<Byte>, max: Option<U64>, d: seq<Byte>, m: nat)
    ensures IsFrame(codec, a + b, max, d, |a|, m) <==> IsFrame(codec, a, max, d, |a|, m)
  {
    hide IsRead, IsPrefix, Base128;
    if m <= |a| {
      assert (a + b)[..m] == a[..m];
      assert (a + b)[m..][..|a| - m] == a[m..] == a[m..][..|a| - m];
      SamePrefixReads(codec, (a + b)[m..], a[m..], Base128(a[..m]), d, |a| - m);
    }
  }

  /** The bytes are one frame with this payload. */
  ghost predicate IsOneFrame(codec: Codec, bytes: seq<Byte>, max: Option<U64>, d: seq<Byte>) {
    exists m: nat :: IsFrame(codec, bytes, max, d, |bytes|, m)
  }

  lemma OneFrameIsRead(codec: Codec, a: seq<Byte>, b: seq<Byte>, max: Option<U64>, d: seq<Byte>)
    ensures IsOneFrame(codec, a, max, d) <==> ReadFrame(codec, a + b, max) == Ok(Some((d, |a|)))
  {
    hide IsFrame, ReadFrame;
    FrameIff(codec, a + b, max, d, |a|);
    if m: nat :| IsFrame(codec, a, max, d, |a|, m) { FrameIsLocal(codec, a, b, max, d, m); }
    if m: nat :| IsFrame(codec, a + b, max, d, |a|, m) { FrameIsLocal(codec, a, b, max, d, m); }
  }

  function Flat(frames: seq<seq<Byte>>): seq<Byte> {
    if frames == [] then [] else frames[0] + Flat(frames[1..])
  }

  /** The frames make up the input, and the payload of each decodes to its value. */
  ghost predicate IsStream<T>(
      codec: Codec, c: Ssz.Coder<T>, rest: seq<Byte>, max: Option<U64>,
      frames: seq<seq<Byte>>, payloads: seq<seq<Byte>>, values: seq<T>)
  {
    && |frames| == |payloads| == |values| && Flat(frames) == rest
    && forall i :: 0 <= i < |frames| ==>
         IsOneFrame(codec, frames[i], max, payloads[i]) && c.decode(payloads[i]) == Ok(values[i])
  }

  lemma {:induction false} StreamIsRead<T>(
      codec: Codec, c: Ssz.Coder<T>, rest: seq<Byte>, max: Option<U64>,
      frames: seq<seq<Byte>>, payloads: seq<seq<Byte>>, values: seq<T>)
    requires IsStream(codec, c, rest, max, frames, payloads, values)
    ensures ReadStream(codec, c, rest, max) == Ok(values)
    decreases |frames|
  {
    hide ReadFrame, ReadStream, IsOneFrame;
    StreamUnfolds(codec, c, rest, max);
    if frames == [] {
      FrameIsExact(codec, rest, max);
    } else {
      var tail := Flat(frames[1..]);
      assert rest == frames[0] + tail && rest[|frames[0]|..] == tail;
      assert IsOneFrame(codec, frames[0], max, payloads[0]);
      OneFrameIsRead(codec, frames[0], tail, max, payloads[0]);
      forall i | 0 <= i < |frames[1..]|
        ensures IsOneFrame(codec, frames[1..][i], max, payloads[1..][i])
        ensures c.decode(payloads[1..][i]) == Ok(values[1..][i])
      {
        assert IsOneFrame(codec, frames[i + 1], max, payloads[i + 1]);
      }
      StreamIsRead(codec, c, tail, max, frames[1..], payloads[1..], values[1..]);
      assert [values[0]] + values[1..] == values;
    }
  }

  lemma {:induction false} ReadIsStream<T>(codec: Codec, c: Ssz.Coder<T>, rest: seq<Byte>, max: Option<U64>)
    returns (frames: seq<seq<Byte>>, payloads: seq<seq<Byte>>)
    requires ReadStream(codec, c, rest, max).Ok?
    ensures IsStream(codec, c, rest, max, frames, payloads, ReadStream(codec, c, rest, max).value)
    decreases |rest|
  {
    hide ReadFrame, ReadStream, IsOneFrame;
    StreamUnfolds(codec, c, rest, max);
    FrameIsExact(codec, rest, max);
    var f := ReadFrame(codec, rest, max);
    if f == Ok(None) {
      frames, payloads := [], [];
    } else {
      var (d, n) := f.value.value;
      var first, tail := rest[..n], rest[n..];
      assert first + tail == rest;
      OneFrameIsRead(codec, first, tail, max, d);
      var fs, ps := ReadIsStream(codec, c, tail, max);
      frames, payloads := [first] + fs, [d] + ps;
      assert frames[1..] == fs;
      var values, more := ReadStream(codec, c, rest, max).value, ReadStream(codec, c, tail, max).value;
      assert values == [c.decode(d).value] + more;
      forall i | 0 <= i < |frames|
        ensures IsOneFrame(codec, frames[i], max, payloads[i]) && c.decode(payloads[i]) == Ok(values[i])
      {
        if i > 0 { assert IsOneFrame(codec, fs[i - 1], max, ps[i - 1]); }
      }
    }
  }

  ghost predicate IsStreamOf<T>(codec: Codec, c: Ssz.Coder<T>, rest: seq<Byte>, max: Option<U64>, values: seq<T>) {
    exists frames, payloads :: IsStream(codec, c, rest, max, frames, payloads, values)
  }

  /** A stream decodes to `values` exactly when its bytes are that many frames, end to end,
      whose payloads decode to them; one bad frame or payload and nothing is returned. */
  lemma StreamIff<T>(codec: Codec, c: Ssz.Coder<T>, rest: seq<Byte>, max: Option<U64>, values: seq<T>)
    ensures ReadStream(codec, c, rest, max) == Ok(values) <==> IsStreamOf(codec, c, rest, max, values)
  {
    hide ReadStream, IsStream;
    if ReadStream(codec, c, rest, max).Ok? { var frames, payloads := ReadIsStream(codec, c, rest, max); }
    if frames, payloads :| IsStream(codec, c, rest, max, frames, payloads, values) {
      StreamIsRead(codec, c, rest, max, frames, payloads, values);
    }
  }

  // ---------------------------------------------------------------- a damaged checksum

  /** The chunk of a piece with one byte of its checksum replaced. */
  ghost function Damaged(codec: Codec, p: Piece, i: nat, b: Byte): (r: seq<Byte>)
    requires ValidPiece(codec, p) && i < 4
    ensures |r| == |ChunkBytes(codec, p)|
  {
    ChunkBytes(codec, p)[4 + i := b]
  }

  lemma Le32Differs(a: seq<Byte>, i: nat, b: Byte)
    requires |a| >= 4 && i < 4 && b != a[i]
    ensures var c := a[i := b]; Le32(c[0], c[1], c[2], c[3]) != Le32(a[0], a[1], a[2], a[3])
  {
  }

  lemma DamagedPieceFails(codec: Codec, p: Piece, i: nat, b: Byte, suffix: seq<Byte>, remaining: U64)
    requires ValidPiece(codec, p) && |p.data| <= remaining && i < 4 && b != ChunkBytes(codec, p)[4 + i]
    ensures ChunkStep(codec, Damaged(codec, p, i, b) + suffix, remaining, true) == Err(CrcMismatch)
  {
    hide Le24, Le32;
    var body := if p.packed.Some? then p.packed.value else p.data;
    var len, crc := 4 + |body|, codec.crc(p.data);
    var whole, bytes := ChunkBytes(codec, p), Damaged(codec, p, i, b) + suffix;
    assert Le24(bytes[1], bytes[2], bytes[3]) == len by { Digits24(len); }
    var payload := bytes[4..4 + len];
    assert NextChunk(bytes, Budget(remaining)) == Ok(Chunk(bytes[0], payload, 4 + len));
    assert payload[4..] == body;
    assert Le32(whole[4], whole[5], whole[6], whole[7]) == crc by { Digits32(crc); }
    assert payload[..4] == whole[4..8][i := b];
    Le32Differs(whole[4..8], i, b);
  }

  /** The chunks of the pieces, that of piece `k` damaged. */
  ghost function DamagedChunks(codec: Codec, ps: seq<Piece>, k: nat, i: nat, b: Byte): seq<Byte>
    requires ValidPieces(codec, ps) && k < |ps| && i < 4
  {
    assert ps[k] in ps;
    ChunksBytes(codec, ps[..k]) + Damaged(codec, ps[k], i, b) + ChunksBytes(codec, ps[k + 1..])
  }

  lemma {:induction false} DamagedChunksFail(
      codec: Codec, ps: seq<Piece>, k: nat, i: nat, b: Byte, suffix: seq<Byte>, chunks: nat)
    requires ValidPieces(codec, ps) && k < |ps| && i < 4 && |Payload(ps)| <= U64_MAX && chunks + k < MAX_CHUNKS
    requires ps[k] in ps && b != ChunkBytes(codec, ps[k])[4 + i]
    ensures FrameBody(codec, DamagedChunks(codec, ps, k, i, b) + suffix, |Payload(ps)|, true, chunks) == Err(CrcMismatch)
    decreases k
  {
    hide ChunkStep, FrameBody, ChunkBytes, Damaged;
    var bytes := DamagedChunks(codec, ps, k, i, b) + suffix;
    assert ps[0] in ps;
    BodyUnfolds(codec, bytes, |Payload(ps)|, true, chunks);
    if k == 0 {
      assert bytes == Damaged(codec, ps[0], i, b) + (ChunksBytes(codec, ps[1..]) + suffix);
      DamagedPieceFails(codec, ps[0], i, b, ChunksBytes(codec, ps[1..]) + suffix, |Payload(ps)|);
    } else {
      var tail := ps[1..];
      assert tail[k - 1] == ps[k] && tail[..k - 1] == ps[1..k] && tail[k..] == ps[k + 1..];
      assert ps[..k][0] == ps[0] && ps[..k][1..] == tail[..k - 1];
      var rest := DamagedChunks(codec, tail, k - 1, i, b) + suffix;
      assert bytes == ChunkBytes(codec, ps[0]) + rest;
      PieceIsRead(codec, ps[0], rest, |Payload(ps)|);
      assert bytes[|ChunkBytes(codec, ps[0])|..] == rest;
      DamagedChunksFail(codec, tail, k - 1, i, b, suffix, chunks + 1);
    }
  }

  /** Whichever checksum byte of a written frame is changed, and whatever follows the frame,
      the read that would have given the payload fails with a checksum mismatch. */
  lemma DamagedFrameFails(
      codec: Codec, ps: seq<Piece>, k: nat, i: nat, b: Byte, suffix: seq<Byte>, max: Option<U64>)
    requires ValidPieces(codec, ps) && Readable(ps, max) && k < |ps| && i < 4
    requires ps[k] in ps && b != ChunkBytes(codec, ps[k])[4 + i]
    ensures var frame := Uvarint(|Payload(ps)|) + Identifier() + DamagedChunks(codec, ps, k, i, b);
            && |frame| == |FrameBytes(codec, ps)|
            && ReadFrame(codec, frame + suffix, max) == Err(CrcMismatch)
  {
    hide ChunkStep, FrameBody, ScanUvarint, Uvarint, ChunksBytes, DamagedChunks;
    var n := |Payload(ps)|;
    var prefix, chunks := Uvarint(n), DamagedChunks(codec, ps, k, i, b);
    var body := Identifier() + (chunks + suffix);
    var bytes := prefix + Identifier() + chunks + suffix;
    assert bytes == prefix + body && bytes[|prefix|..] == body;
    UvarintRoundTrip(n, body);
    assert n >= |ps[0].data| > 0 by { assert ps[0] in ps; }
    IdentifierIsRead(codec, chunks + suffix, n);
    BodyUnfolds(codec, body, n, false, 0);
    assert body[10..] == chunks + suffix;
    DamagedChunksFail(codec, ps, k, i, b, suffix, 1);
    DamagedLength(codec, ps, k, i, b);
  }

  lemma DamagedLength(codec: Codec, ps: seq<Piece>, k: nat, i: nat, b: Byte)
    requires ValidPieces(codec, ps) && k < |ps| && i < 4
    ensures |DamagedChunks(codec, ps, k, i, b)| == |ChunksBytes(codec, ps)|
  {
    hide ChunkBytes, ValidPiece;
    var rest := [ps[k]] + ps[k + 1..];
    assert ps == ps[..k] + rest;
    ChunksSplit(codec, ps[..k], rest);
    assert rest[0] == ps[k] && rest[1..] == ps[k + 1..] && ps[k] in ps;
    assert ChunksBytes(codec, rest) == ChunkBytes(codec, ps[k]) + ChunksBytes(codec, ps[k + 1..]);
  }

  lemma {:induction false} ChunksSplit(codec: Codec, a: seq<Piece>, b: seq<Piece>)
    requires ValidPieces(codec, a + b)
    ensures ValidPieces(codec, a) && ValidPieces(codec, b)
    ensures ChunksBytes(codec, a + b) == ChunksBytes(codec, a) + ChunksBytes(codec, b)
    decreases |a|
  {
    hide ChunkBytes, ValidPiece;
    assert forall p :: p in a || p in b ==> p in a + b;
    if a == [] {
      assert a + b == b;
    } else {
      assert (a + b)[0] == a[0] && (a + b)[1..] == a[1..] + b;
      ChunksSplit(codec, a[1..], b);
    }
  }
}
