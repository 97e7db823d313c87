/**
  Which byte of the wire form belongs to which field. Integers and offsets are read least
  significant byte first, roots most significant byte first; a decoder that accepts only
  encodings is thereby fixed as well.
 */
module WireLayout {
  import opened Containers
  import opened Ssz
  import opened BlockCodec

  function LittleEndian(bytes: seq<Byte>): nat {
    if bytes == [] then 0 else bytes[0] as nat + 256 * LittleEndian(bytes[1..])
  }

  function BigEndian(bytes: seq<Byte>): nat {
    if bytes == [] then 0 else 256 * BigEndian(bytes[..|bytes| - 1]) + bytes[|bytes| - 1] as nat
  }

  // ---------------------------------------------------------------- scalars

  lemma {:induction false} LittleIsLe(b: seq<Byte>)
    ensures LittleEndian(b) == LeValue(b)
  {
    if b != [] { LittleIsLe(b[1..]); }
  }

  lemma {:induction false} BigReversed(b: seq<Byte>)
    ensures BigEndian(Reverse(b)) == LittleEndian(b)
  {
    if b != [] {
      BigReversed(b[1..]);
      assert Reverse(b)[..|b| - 1] == Reverse(b[1..]);
    }
  }

  lemma IntegerBytes(v: U64)
    ensures |U64Bytes(v)| == 8 && LittleEndian(U64Bytes(v)) == v
  {
    hide LeBytes, LeValue, Pow256, LittleEndian;
    U64Limit();
    LeValueOfBytes(v, U64_LEN);
    LittleIsLe(U64Bytes(v));
  }

  lemma RootInBytes(r: Root)
    requires RootFits(r)
    ensures |RootBytes(r)| == 32 && BigEndian(RootBytes(r)) == r
  {
    hide LeBytes, LeValue, Pow256, LittleEndian, BigEndian, Reverse;
    LeValueOfBytes(r, ROOT_LEN);
    LittleIsLe(LeBytes(r, ROOT_LEN));
    BigReversed(LeBytes(r, ROOT_LEN));
  }

  /** An offset past four bytes is written as the largest there is. */
  lemma OffsetInBytes(v: nat)
    ensures |OffsetBytes(v)| == 4 && LittleEndian(OffsetBytes(v)) == if v <= 0xFFFF_FFFF then v else 0xFFFF_FFFF
  {
    hide LeBytes, LeValue, Pow256, LittleEndian;
    OffsetWidth();
    LeValueOfBytes(if v <= 0xFFFF_FFFF then v else 0xFFFF_FFFF, OFFSET_LEN);
    LittleIsLe(OffsetBytes(v));
  }

  // ---------------------------------------------------------------- attestations

  /** A checkpoint lies in bytes `at` to `at + 40`: root, then slot. */
  ghost predicate CheckpointAt(e: seq<Byte>, at: nat, c: Checkpoint) {
    at + 40 <= |e| && BigEndian(e[at..at + 32]) == c.root && LittleEndian(e[at + 32..at + 40]) == c.slot
  }

  /** An attestation lies in bytes `at` to `at + 136`: validator, slot, then head, target
      and source. */
  ghost predicate AttestationAt(e: seq<Byte>, at: nat, a: Attestation) {
    && at + 136 <= |e|
    && LittleEndian(e[at..at + 8]) == a.validatorId && LittleEndian(e[at + 8..at + 16]) == a.data.slot
    && CheckpointAt(e, at + 16, a.data.head) && CheckpointAt(e, at + 56, a.data.target)
    && CheckpointAt(e, at + 96, a.data.source)
  }

  lemma CheckpointLayout(c: Checkpoint)
    requires RootFits(c.root)
    ensures CheckpointAt(EncodeCheckpoint(c), 0, c)
  {
    hide RootFits, RootBytes, U64Bytes, BigEndian, LittleEndian;
    RootInBytes(c.root);
    IntegerBytes(c.slot);
    var e := EncodeCheckpoint(c);
    assert e[0..32] == RootBytes(c.root) && e[32..40] == U64Bytes(c.slot);
  }

  lemma CheckpointWithin(e: seq<Byte>, at: nat, part: seq<Byte>, c: Checkpoint)
    requires at + 40 <= |e| && e[at..at + 40] == part && CheckpointAt(part, 0, c)
    ensures CheckpointAt(e, at, c)
  {
    hide BigEndian, LittleEndian;
    assert e[at..at + 32] == part[0..32] && e[at + 32..at + 40] == part[32..40];
  }

  lemma AttestationLayout(a: Attestation)
    requires DataFits(a.data)
    ensures AttestationAt(EncodeAttestation(a), 0, a)
  {
    hide EncodeCheckpoint, U64Bytes, LittleEndian, CheckpointAt, RootFits;
    var e, d := EncodeAttestation(a), a.data;
    IntegerBytes(a.validatorId);
    IntegerBytes(d.slot);
    CheckpointLayout(d.head);
    CheckpointLayout(d.target);
    CheckpointLayout(d.source);
    assert e[0..8] == U64Bytes(a.validatorId) && e[8..16] == U64Bytes(d.slot);
    assert e[16..56] == EncodeCheckpoint(d.head) && e[56..96] == EncodeCheckpoint(d.target);
    assert e[96..136] == EncodeCheckpoint(d.source);
    CheckpointWithin(e, 16, EncodeCheckpoint(d.head), d.head);
    CheckpointWithin(e, 56, EncodeCheckpoint(d.target), d.target);
    CheckpointWithin(e, 96, EncodeCheckpoint(d.source), d.source);
  }

  lemma Within(e: seq<Byte>, at: nat, n: nat, i: nat, j: nat)
    requires i <= j <= n && at + n <= |e|
    ensures e[at..at + n][i..j] == e[at + i..at + j]
  {
    var part := e[at..at + n];
    forall k | 0 <= k < j - i ensures part[i..j][k] == e[at + i..at + j][k] {
      assert part[i + k] == e[at + i + k];
    }
  }

  lemma AttestationWithin(e: seq<Byte>, at: nat, part: seq<Byte>, a: Attestation)
    requires at + 136 <= |e| && e[at..at + 136] == part && AttestationAt(part, 0, a)
    ensures AttestationAt(e, at, a)
  {
    hide LittleEndian, CheckpointAt;
    Within(e, at, 136, 0, 8);
    Within(e, at, 136, 8, 16);
    PartWithin(e, at, part, 16, a.data.head);
    PartWithin(e, at, part, 56, a.data.target);
    PartWithin(e, at, part, 96, a.data.source);
  }

  lemma PartWithin(e: seq<Byte>, at: nat, part: seq<Byte>, i: nat, c: Checkpoint)
    requires at + 136 <= |e| && e[at..at + 136] == part && i + 40 <= 136 && CheckpointAt(part, i, c)
    ensures CheckpointAt(e, at + i, c)
  {
    hide BigEndian, LittleEndian;
    Within(e, at, 136, i, i + 32);
    Within(e, at, 136, i + 32, i + 40);
  }

  // ---------------------------------------------------------------- lists

  /** Item `i` of equally wide ones lies `i` widths in. */
  lemma {:induction false} ItemAt<T(!new)>(c: Coder<T>, fits: T -> bool, width: nat, items: seq<T>, i: nat)
    requires AllFit(items, fits) && Width(c, fits, width) && i < |items|
    ensures i * width + width <= |Concat(c, items)|
    ensures Concat(c, items)[i * width..i * width + width] == c.encode(items[i])
    decreases i
  {
    assert fits(items[0]) && |c.encode(items[0])| == width;
    var whole, tail := Concat(c, items), Concat(c, items[1..]);
    assert whole == c.encode(items[0]) + tail;
    if i == 0 {
      assert whole[0..width] == c.encode(items[0]);
    } else {
      ItemAt(c, fits, width, items[1..], i - 1);
      assert i * width == width + (i - 1) * width;
      assert whole[i * width..i * width + width] == tail[(i - 1) * width..(i - 1) * width + width];
    }
  }

  // ---------------------------------------------------------------- blocks

  /** A block: slot, proposer, parent root, state root, where its body starts, where the
      body's list starts within the body, and the attestations. */
  lemma BlockLayout(b: Block)
    requires BlockFits(b)
    ensures var e := EncodeBlock(b);
            && |e| == 88 + 136 * |b.body|
            && LittleEndian(e[0..8]) == b.slot && LittleEndian(e[8..16]) == b.proposerIndex
            && BigEndian(e[16..48]) == b.parentRoot && BigEndian(e[48..80]) == b.stateRoot
            && LittleEndian(e[80..84]) == 84 && LittleEndian(e[84..88]) == 4
            && forall i :: 0 <= i < |b.body| ==> AttestationAt(e, 88 + 136 * i, b.body[i])
  {
    hide RootFits, RootBytes, U64Bytes, OffsetBytes, BigEndian, LittleEndian, BodyFits, EncodeBody, AttestationAt;
    var e := EncodeBlock(b);
    BlockRoundTrip(b);
    IntegerBytes(b.slot);
    IntegerBytes(b.proposerIndex);
    RootInBytes(b.parentRoot);
    RootInBytes(b.stateRoot);
    OffsetInBytes(84);
    assert e[0..8] == U64Bytes(b.slot) && e[8..16] == U64Bytes(b.proposerIndex);
    assert e[16..48] == RootBytes(b.parentRoot) && e[48..80] == RootBytes(b.stateRoot);
    assert e[80..84] == OffsetBytes(84) && e[84..] == EncodeBody(b.body);
    BodyLayout(b.body);
    assert e[84..88] == EncodeBody(b.body)[0..4];
    forall i | 0 <= i < |b.body| ensures AttestationAt(e, 88 + 136 * i, b.body[i]) {
      BodyWithin(e, b.body, i);
    }
  }

  lemma BodyLayout(atts: seq<Attestation>)
    requires BlockCodec.BodyFits(atts)
    ensures var e := EncodeBody(atts);
            && |e| == 4 + 136 * |atts| && LittleEndian(e[0..4]) == 4
            && forall i :: 0 <= i < |atts| ==> e[4 + 136 * i..4 + 136 * i + 136] == EncodeAttestation(atts[i])
  {
    hide OffsetBytes, LittleEndian, Concat, Faithful, Width, AllFit, EncodeAttestation;
    var e, list := EncodeBody(atts), Concat(AttestationCoder(), atts);
    BodyRoundTrip(atts);
    OffsetInBytes(4);
    AttestationsAreFaithful();
    assert e[0..4] == OffsetBytes(4) && e[4..] == list;
    forall i | 0 <= i < |atts| ensures e[4 + 136 * i..4 + 136 * i + 136] == EncodeAttestation(atts[i]) {
      ItemAt(AttestationCoder(), Fits(), ATTESTATION_LEN, atts, i);
      assert e[4 + 136 * i..4 + 136 * i + 136] == list[i * 136..i * 136 + 136];
    }
  }

  lemma BodyWithin(e: seq<Byte>, atts: seq<Attestation>, i: nat)
    requires BlockCodec.BodyFits(atts) && i < |atts| && |e| >= 84 && e[84..] == EncodeBody(atts)
    ensures AttestationAt(e, 88 + 136 * i, atts[i])
  {
    hide EncodeBody, EncodeAttestation, AttestationAt, LittleEndian, DataFits;
    BodyLayout(atts);
    var body, at := EncodeBody(atts), 4 + 136 * i;
    assert at + 136 <= |body|;
    assert e[84 + at..84 + at + 136] == body[at..at + 136];
    assert Fits()(atts[i]);
    AttestationLayout(atts[i]);
    AttestationWithin(e, 84 + at, EncodeAttestation(atts[i]), atts[i]);
  }

  /** A signed block: where the message and the signatures start, where the block starts
      within the message, the proposer's attestation, the block, and the signatures. */
  lemma SignedLayout(s: SignedBlock)
    requires SignedTyped(s)
    ensures var e := EncodeSigned(s);
            var n := 236 + 136 * |s.message.block.body|;
            && |e| == n + 3116 * |s.signature|
            && LittleEndian(e[0..4]) == 8 && LittleEndian(e[4..8]) == (if n <= 0xFFFF_FFFF then n else 0xFFFF_FFFF)
            && LittleEndian(e[8..12]) == 140
            && AttestationAt(e, 12, s.message.proposerAttestation)
            && e[148..n] == EncodeBlock(s.message.block)
            && forall i :: 0 <= i < |s.signature| ==> e[n + 3116 * i..n + 3116 * i + 3116] == s.signature[i]
  {
    hide OffsetValue, LittleEndian, EncodeBlock, AttestationAt, SignedTyped, Concat, EncodeSigned, MessageLen;
    SignedParts(s);
    SignedOffsets(s);
    MessagePart(s);
    SignaturePart(s);
  }

  lemma SignedParts(s: SignedBlock)
    requires SignedTyped(s)
    ensures var e, n := EncodeSigned(s), 236 + 136 * |s.message.block.body|;
            && n == 8 + MessageLen(s.message) <= |e|
            && e[8..n] == EncodeMessage(s.message) && e[n..|e|] == Concat(SignatureCoder(), s.signature)
            && |e| == n + 3116 * |s.signature|
  {
    hide OffsetValue, EncodeSigned, EncodeMessage, Concat, MessageFits, AllFit;
    SignedSplits(s);
    SignatureLayout(s.signature);
  }

  lemma MessagePart(s: SignedBlock)
    requires SignedTyped(s)
    ensures var e, n := EncodeSigned(s), 236 + 136 * |s.message.block.body|;
            && 236 <= n <= |e| && LittleEndian(e[8..12]) == 140 && AttestationAt(e, 12, s.message.proposerAttestation)
            && e[148..n] == EncodeBlock(s.message.block)
  {
    hide LittleEndian, EncodeBlock, EncodeAttestation, AttestationAt, BlockFits, DataFits, Concat, AllFit,
         EncodeSigned, EncodeMessage;
    var e, m, n := EncodeSigned(s), s.message, 236 + 136 * |s.message.block.body|;
    SignedParts(s);
    MessageLayout(m);
    Within(e, 8, n - 8, 0, 4);
    Within(e, 8, n - 8, 4, 140);
    Within(e, 8, n - 8, 140, n - 8);
    AttestationLayout(m.proposerAttestation);
    AttestationWithin(e, 12, EncodeAttestation(m.proposerAttestation), m.proposerAttestation);
  }

  lemma SignaturePart(s: SignedBlock)
    requires SignedTyped(s)
    ensures var e, n := EncodeSigned(s), 236 + 136 * |s.message.block.body|;
            && |e| == n + 3116 * |s.signature|
            && forall i :: 0 <= i < |s.signature| ==> e[n + 3116 * i..n + 3116 * i + 3116] == s.signature[i]
  {
    hide EncodeSigned, EncodeMessage, Concat, MessageFits, AllFit, MessageLen;
    var e, n := EncodeSigned(s), 236 + 136 * |s.message.block.body|;
    SignedParts(s);
    SignatureLayout(s.signature);
    forall i | 0 <= i < |s.signature| ensures e[n + 3116 * i..n + 3116 * i + 3116] == s.signature[i] {
      Within(e, n, |e| - n, 3116 * i, 3116 * i + 3116);
    }
  }

  lemma MessageLayout(m: BlockWithAttestation)
    requires MessageFits(m)
    ensures var e := EncodeMessage(m);
            && |e| == 228 + 136 * |m.block.body| && LittleEndian(e[0..4]) == 140
            && e[4..140] == EncodeAttestation(m.proposerAttestation) && e[140..|e|] == EncodeBlock(m.block)
  {
    hide OffsetBytes, LittleEndian, EncodeBlock, EncodeAttestation, BlockFits, DataFits;
    var e := EncodeMessage(m);
    MessageRoundTrip(m);
    OffsetInBytes(140);
    assert e[0..4] == OffsetBytes(140);
  }

  lemma SignedOffsets(s: SignedBlock)
    requires SignedTyped(s)
    ensures var e := EncodeSigned(s);
            var n := 8 + MessageLen(s.message);
            && |e| >= 8 && LittleEndian(e[0..4]) == 8
            && LittleEndian(e[4..8]) == if n <= 0xFFFF_FFFF then n else 0xFFFF_FFFF
  {
    hide OffsetBytes, LittleEndian, EncodeMessage, Concat, MessageLen, SignedTyped;
    var e, n := EncodeSigned(s), 8 + MessageLen(s.message);
    OffsetInBytes(8);
    OffsetInBytes(n);
    assert e[0..4] == OffsetBytes(8) && e[4..8] == OffsetBytes(n);
  }

  lemma SignatureLayout(signature: seq<seq<Byte>>)
    requires AllFit(signature, SignatureFits())
    ensures var list := Concat(SignatureCoder(), signature);
            && |list| == 3116 * |signature|
            && forall i :: 0 <= i < |signature| ==> list[3116 * i..3116 * i + 3116] == signature[i]
  {
    hide Concat, AllFit, Faithful, Width;
    var list := Concat(SignatureCoder(), signature);
    SignaturesAreFaithful();
    ConcatWidth(SignatureCoder(), SignatureFits(), SIGNATURE_LEN, signature);
    forall i | 0 <= i < |signature| ensures list[3116 * i..3116 * i + 3116] == signature[i] {
      ItemAt(SignatureCoder(), SignatureFits(), SIGNATURE_LEN, signature, i);
      assert list[i * 3116..i * 3116 + 3116] == signature[i];
    }
  }

  // ---------------------------------------------------------------- variable-width lists

  lemma {:induction false} TableAt(offsets: seq<nat>, i: nat)
    requires OffsetsFit(offsets) && i < |offsets|
    ensures LittleEndian(OffsetTable(offsets)[4 * i..4 * i + 4]) == offsets[i]
    decreases i
  {
    hide LeBytes, LittleEndian;
    var table, tail := OffsetTable(offsets), OffsetTable(offsets[1..]);
    assert table == LeBytes(offsets[0], OFFSET_LEN) + tail;
    if i == 0 {
      OffsetInBytes(offsets[0]);
      assert table[0..4] == LeBytes(offsets[0], OFFSET_LEN);
    } else {
      assert OffsetsFit(offsets[1..]) by { TailFits(offsets); }
      TableAt(offsets[1..], i - 1);
      assert table[4 * i..4 * i + 4] == tail[4 * (i - 1)..4 * (i - 1) + 4];
    }
  }

  lemma {:induction false} PayloadAt<T>(c: Coder<T>, items: seq<T>, at: nat, i: nat)
    requires i < |items|
    ensures var lo := Starts(c, items, at)[i] - at;
            && 0 <= lo && lo + |c.encode(items[i])| <= |Concat(c, items)|
            && Concat(c, items)[lo..lo + |c.encode(items[i])|] == c.encode(items[i])
            && (i == 0 ==> lo == 0)
            && (i + 1 < |items| ==> Starts(c, items, at)[i + 1] == Starts(c, items, at)[i] + |c.encode(items[i])|)
    decreases i
  {
    var first, tail := c.encode(items[0]), Concat(c, items[1..]);
    assert Concat(c, items) == first + tail;
    var starts, rest := Starts(c, items, at), Starts(c, items[1..], at + |first|);
    assert starts == [at] + rest;
    if i == 0 {
      if |items| > 1 { assert rest[0] == at + |first|; }
    } else {
      PayloadAt(c, items[1..], at + |first|, i - 1);
      var lo, size := starts[i] - at, |c.encode(items[i])|;
      assert Concat(c, items)[lo..lo + size] == tail[lo - |first|..lo - |first| + size];
    }
  }

  /** A list of items of any size: four bytes each say where they start, the first right
      after the table, each next one where the last ends, and there they lie. */
  lemma ListLayout<T>(c: Coder<T>, items: seq<T>, i: nat)
    requires i < |items| && OffsetsFit(Starts(c, items, OFFSET_LEN * |items|))
    ensures var e := VariableBytes(c, items);
            && 4 * |items| <= |e|
            && var lo := LittleEndian(e[4 * i..4 * i + 4]);
               && lo + |c.encode(items[i])| <= |e| && e[lo..lo + |c.encode(items[i])|] == c.encode(items[i])
               && (i == 0 ==> lo == 4 * |items|)
               && (i + 1 < |items| ==> LittleEndian(e[4 * (i + 1)..4 * (i + 1) + 4]) == lo + |c.encode(items[i])|)
  {
    hide LittleEndian, OffsetTable, Concat, Starts, OffsetsFit;
    var starts := Starts(c, items, OFFSET_LEN * |items|);
    var e, table, body := VariableBytes(c, items), OffsetTable(starts), Concat(c, items);
    TableAt(starts, i);
    assert e[4 * i..4 * i + 4] == table[4 * i..4 * i + 4];
    if i + 1 < |items| {
      TableAt(starts, i + 1);
      assert e[4 * (i + 1)..4 * (i + 1) + 4] == table[4 * (i + 1)..4 * (i + 1) + 4];
    }
    PayloadAt(c, items, OFFSET_LEN * |items|, i);
    var lo, size := starts[i], |c.encode(items[i])|;
    assert e[lo..lo + size] == body[lo - 4 * |items|..lo - 4 * |items| + size];
  }
}
