/**
  The wire form of blocks: fixed-width attestations, the four nested variable-width
  containers around them, and the list of signed blocks that answers a by-root request.
  At every level decoding undoes encoding exactly when the list limits hold, and an
  accepted byte string is the encoding of what it decodes to, so no two byte strings
  decode to the same value.
 */
module BlockCodec {
  import opened Containers
  import opened Ssz
  import Frames

  const U64_LEN: nat := 8
  const ROOT_LEN: nat := 32
  const CHECKPOINT_LEN: nat := 40
  const DATA_LEN: nat := 128
  const ATTESTATION_LEN: nat := 136
  const SIGNATURE_LEN: nat := 3116
  const BLOCK_FIXED_LEN: nat := 84
  const MESSAGE_FIXED_LEN: nat := 140
  const SIGNED_FIXED_LEN: nat := 8
  const MAX_REQUEST_BLOCKS: nat := 1024

  datatype BlockWithAttestation = BlockWithAttestation(block: Block, proposerAttestation: Attestation)

  datatype SignedBlock = SignedBlock(message: BlockWithAttestation, signature: seq<seq<Byte>>)

  // ---------------------------------------------------------------- scalars

  function U64Bytes(v: U64): (b: seq<Byte>)
    ensures |b| == U64_LEN
  {
    LeBytes(v, U64_LEN)
  }

  function U64Value(b: seq<Byte>): U64
    requires |b| == U64_LEN
  {
    LeBytesOfValue(b);
    U64Limit();
    LeValue(b)
  }

  lemma U64Limit()
    ensures Pow256(U64_LEN) == U64_MAX + 1
  {
    assert Pow256(2) == 65536;
    assert Pow256(4) == 256 * (256 * Pow256(2));
    assert Pow256(6) == 256 * (256 * Pow256(4));
    assert Pow256(8) == 256 * (256 * Pow256(6));
  }

  lemma U64RoundTrip(v: U64)
    ensures U64Value(U64Bytes(v)) == v
  {
    hide LeBytes, LeValue, Pow256;
    U64Limit();
    LeValueOfBytes(v, U64_LEN);
  }

  lemma U64IsCanonical(b: seq<Byte>)
    requires |b| == U64_LEN
    ensures U64Bytes(U64Value(b)) == b
  {
    hide LeBytes, LeValue, Pow256;
    LeBytesOfValue(b);
  }

  function Reverse(b: seq<Byte>): (r: seq<Byte>)
    ensures |r| == |b| && forall i :: 0 <= i < |b| ==> r[i] == b[|b| - 1 - i]
  {
    seq(|b|, i requires 0 <= i < |b| => b[|b| - 1 - i])
  }

  /** A root is its 32 bytes read most significant first. */
  function RootBytes(r: Root): (b: seq<Byte>)
    ensures |b| == ROOT_LEN
  {
    Reverse(LeBytes(r, ROOT_LEN))
  }

  function RootValue(b: seq<Byte>): Root {
    LeValue(Reverse(b))
  }

  ghost predicate RootFits(r: Root) {
    r < Pow256(ROOT_LEN)
  }

  lemma RootRoundTrip(r: Root)
    requires RootFits(r)
    ensures RootValue(RootBytes(r)) == r
  {
    hide LeBytes, LeValue, Pow256;
    LeValueOfBytes(r, ROOT_LEN);
    assert Reverse(RootBytes(r)) == LeBytes(r, ROOT_LEN);
  }

  lemma RootIsCanonical(b: seq<Byte>)
    requires |b| == ROOT_LEN
    ensures RootFits(RootValue(b)) && RootBytes(RootValue(b)) == b
  {
    hide LeBytes, LeValue, Pow256;
    LeBytesOfValue(Reverse(b));
    assert Reverse(Reverse(b)) == b;
  }

  /** `write_offset`, which saturates. */
  function OffsetBytes(v: nat): (b: seq<Byte>)
    ensures |b| == OFFSET_LEN
  {
    LeBytes(if v <= U32_MAX then v else U32_MAX, OFFSET_LEN)
  }

  function OffsetValue(b: seq<Byte>): nat {
    LeValue(b)
  }

  lemma OffsetRoundTrip(v: nat)
    ensures OffsetValue(OffsetBytes(v)) == if v <= U32_MAX then v else U32_MAX
  {
    hide LeBytes, LeValue, Pow256;
    OffsetWidth();
    LeValueOfBytes(if v <= U32_MAX then v else U32_MAX, OFFSET_LEN);
  }

  lemma OffsetIsCanonical(b: seq<Byte>)
    requires |b| == OFFSET_LEN
    ensures OffsetValue(b) <= U32_MAX && OffsetBytes(OffsetValue(b)) == b
  {
    hide LeBytes, LeValue, Pow256;
    OffsetWidth();
    LeBytesOfValue(b);
  }

  // ---------------------------------------------------------------- fixed-width containers

  function EncodeCheckpoint(c: Checkpoint): (b: seq<Byte>)
    ensures |b| == CHECKPOINT_LEN
  {
    RootBytes(c.root) + U64Bytes(c.slot)
  }

  function CheckpointOf(b: seq<Byte>): Checkpoint
    requires |b| == CHECKPOINT_LEN
  {
    Checkpoint(RootValue(b[..32]), U64Value(b[32..]))
  }

  lemma CheckpointCodec(c: Checkpoint, b: seq<Byte>)
    requires |b| == CHECKPOINT_LEN
    ensures RootFits(c.root) ==> CheckpointOf(EncodeCheckpoint(c)) == c
    ensures RootFits(CheckpointOf(b).root) && EncodeCheckpoint(CheckpointOf(b)) == b
  {
    hide RootBytes, RootValue, U64Bytes, U64Value, RootFits;
    if RootFits(c.root) { RootRoundTrip(c.root); }
    U64RoundTrip(c.slot);
    var e := EncodeCheckpoint(c);
    assert e[..32] == RootBytes(c.root) && e[32..] == U64Bytes(c.slot);
    RootIsCanonical(b[..32]);
    U64IsCanonical(b[32..]);
  }

  function EncodeData(d: AttestationData): (b: seq<Byte>)
    ensures |b| == DATA_LEN
  {
    U64Bytes(d.slot) + EncodeCheckpoint(d.head) + EncodeCheckpoint(d.target) + EncodeCheckpoint(d.source)
  }

  function DataOf(b: seq<Byte>): AttestationData
    requires |b| == DATA_LEN
  {
    AttestationData(U64Value(b[..8]), CheckpointOf(b[8..48]), CheckpointOf(b[48..88]), CheckpointOf(b[88..]))
  }

  ghost predicate DataFits(d: AttestationData) {
    RootFits(d.head.root) && RootFits(d.target.root) && RootFits(d.source.root)
  }

  lemma DataCodec(d: AttestationData, b: seq<Byte>)
    requires |b| == DATA_LEN
    ensures DataFits(d) ==> DataOf(EncodeData(d)) == d
    ensures DataFits(DataOf(b)) && EncodeData(DataOf(b)) == b
  {
    hide U64Bytes, U64Value, RootFits, EncodeCheckpoint, CheckpointOf;
    var e := EncodeData(d);
    assert e[..8] == U64Bytes(d.slot) && e[8..48] == EncodeCheckpoint(d.head);
    assert e[48..88] == EncodeCheckpoint(d.target) && e[88..] == EncodeCheckpoint(d.source);
    U64RoundTrip(d.slot);
    U64IsCanonical(b[..8]);
    CheckpointCodec(d.head, b[8..48]);
    CheckpointCodec(d.target, b[48..88]);
    CheckpointCodec(d.source, b[88..]);
  }

  function EncodeAttestation(a: Attestation): (b: seq<Byte>)
    ensures |b| == ATTESTATION_LEN
  {
    U64Bytes(a.validatorId) + EncodeData(a.data)
  }

  function AttestationOf(b: seq<Byte>): Attestation
    requires |b| == ATTESTATION_LEN
  {
    Attestation(U64Value(b[..8]), DataOf(b[8..]))
  }

  function DecodeAttestation(b: seq<Byte>): Result<Attestation, DecodeError> {
    if |b| != ATTESTATION_LEN then Err(InvalidByteLength(|b|, ATTESTATION_LEN)) else Ok(AttestationOf(b))
  }

  lemma AttestationCodec(a: Attestation, b: seq<Byte>)
    requires |b| == ATTESTATION_LEN
    ensures DataFits(a.data) ==> AttestationOf(EncodeAttestation(a)) == a
    ensures DataFits(AttestationOf(b).data) && EncodeAttestation(AttestationOf(b)) == b
  {
    hide U64Bytes, U64Value, DataFits, EncodeData, DataOf;
    var e := EncodeAttestation(a);
    assert e[..8] == U64Bytes(a.validatorId) && e[8..] == EncodeData(a.data);
    U64RoundTrip(a.validatorId);
    U64IsCanonical(b[..8]);
    DataCodec(a.data, b[8..]);
    assert b == b[..8] + b[8..];
  }

  function AttestationCoder(): Coder<Attestation> {
    Coder(EncodeAttestation, DecodeAttestation)
  }

  /** Every root an attestation names is a 32-byte number. */
  ghost function Fits(): Attestation -> bool {
    (a: Attestation) => DataFits(a.data)
  }

  lemma AttestationsAreFaithful()
    ensures Faithful(AttestationCoder(), Fits()) && Width(AttestationCoder(), Fits(), ATTESTATION_LEN)
  {
    hide EncodeAttestation, AttestationOf, DataFits;
    forall x | Fits()(x)
      ensures AttestationCoder().decode(AttestationCoder().encode(x)) == Ok(x)
    {
      AttestationCodec(x, EncodeAttestation(x));
    }
    forall b | AttestationCoder().decode(b).Ok?
      ensures var x := AttestationCoder().decode(b).value; Fits()(x) && AttestationCoder().encode(x) == b
    {
      AttestationCodec(AttestationOf(b), b);
    }
  }

  // ---------------------------------------------------------------- block body

  function EncodeBody(atts: seq<Attestation>): seq<Byte> {
    OffsetBytes(OFFSET_LEN) + Concat(AttestationCoder(), atts)
  }

  function DecodeBody(b: seq<Byte>): Result<seq<Attestation>, DecodeError> {
    if |b| < OFFSET_LEN then Err(InvalidByteLength(|b|, OFFSET_LEN)) else
    var offset := OffsetValue(b[..4]);
    if offset != OFFSET_LEN then Err(OffsetIntoFixedPortion(offset))
    else DecodeFixedList(AttestationCoder(), ATTESTATION_LEN, b[4..], MAX_ATTESTATIONS)
  }

  ghost predicate BodyFits(atts: seq<Attestation>) {
    AllFit(atts, Fits())
  }

  lemma BodyRoundTrip(atts: seq<Attestation>)
    requires BodyFits(atts)
    ensures |EncodeBody(atts)| == 4 + |atts| * ATTESTATION_LEN
    ensures DecodeBody(EncodeBody(atts)) == if |atts| <= MAX_ATTESTATIONS then Ok(atts) else Err(BytesInvalid)
  {
    hide OffsetBytes, OffsetValue, Concat, DecodeFixedList, Faithful, Width, AllFit;
    var c, e := AttestationCoder(), EncodeBody(atts);
    AttestationsAreFaithful();
    OffsetRoundTrip(OFFSET_LEN);
    assert e[..4] == OffsetBytes(OFFSET_LEN) && e[4..] == Concat(c, atts);
    ConcatWidth(c, Fits(), ATTESTATION_LEN, atts);
    FixedListRoundTrip(c, Fits(), ATTESTATION_LEN, atts, MAX_ATTESTATIONS);
  }

  lemma BodyIsCanonical(b: seq<Byte>)
    requires DecodeBody(b).Ok?
    ensures var atts := DecodeBody(b).value;
            BodyFits(atts) && |atts| <= MAX_ATTESTATIONS && EncodeBody(atts) == b
  {
    hide OffsetBytes, OffsetValue, Concat, DecodeFixedList, Faithful, Width, AllFit;
    AttestationsAreFaithful();
    OffsetIsCanonical(b[..4]);
    FixedListIsCanonical(AttestationCoder(), Fits(), ATTESTATION_LEN, b[4..], MAX_ATTESTATIONS);
    assert b == b[..4] + b[4..];
  }

  /** A body list longer than the limit is refused whatever its bytes are. */
  lemma LongBody(b: seq<Byte>)
    requires |b| > 4 + MAX_ATTESTATIONS * ATTESTATION_LEN && OffsetValue(b[..4]) == OFFSET_LEN
    ensures DecodeBody(b) == Err(BytesInvalid)
  {
    hide OffsetValue;
    assert |b[4..]| / ATTESTATION_LEN > MAX_ATTESTATIONS || |b[4..]| % ATTESTATION_LEN != 0;
  }

  // ---------------------------------------------------------------- block

  function BlockHead(b: Block): (h: seq<Byte>)
    ensures |h| == BLOCK_FIXED_LEN
  {
    U64Bytes(b.slot) + U64Bytes(b.proposerIndex) + RootBytes(b.parentRoot) + RootBytes(b.stateRoot) + OffsetBytes(BLOCK_FIXED_LEN)
  }

  function EncodeBlock(b: Block): seq<Byte> {
    BlockHead(b) + EncodeBody(b.body)
  }

  function DecodeBlock(b: seq<Byte>): Result<Block, DecodeError> {
    if |b| < BLOCK_FIXED_LEN then Err(InvalidByteLength(|b|, BLOCK_FIXED_LEN)) else
    var offset := OffsetValue(b[80..84]);
    if offset != BLOCK_FIXED_LEN then Err(OffsetIntoFixedPortion(offset)) else
    match DecodeBody(b[84..])
    case Err(e) => Err(e)
    case Ok(atts) => Ok(Block(U64Value(b[..8]), U64Value(b[8..16]), RootValue(b[16..48]), RootValue(b[48..80]), atts))
  }

  ghost predicate BlockFits(b: Block) {
    RootFits(b.parentRoot) && RootFits(b.stateRoot) && BodyFits(b.body)
  }

  /** The fixed part of a block read back, whatever follows it. */
  lemma BlockHeadIsRead(b: Block, rest: seq<Byte>)
    requires RootFits(b.parentRoot) && RootFits(b.stateRoot)
    ensures DecodeBlock(BlockHead(b) + rest) ==
            match DecodeBody(rest)
            case Err(e) => Err(e)
            case Ok(atts) => Ok(b.(body := atts))
  {
    hide U64Bytes, U64Value, RootBytes, RootValue, OffsetBytes, OffsetValue, DecodeBody, RootFits;
    var e := BlockHead(b) + rest;
    U64RoundTrip(b.slot);
    U64RoundTrip(b.proposerIndex);
    RootRoundTrip(b.parentRoot);
    RootRoundTrip(b.stateRoot);
    OffsetRoundTrip(BLOCK_FIXED_LEN);
    assert e[..8] == U64Bytes(b.slot) && e[8..16] == U64Bytes(b.proposerIndex);
    assert e[16..48] == RootBytes(b.parentRoot) && e[48..80] == RootBytes(b.stateRoot);
    assert e[80..84] == OffsetBytes(BLOCK_FIXED_LEN) && e[84..] == rest;
  }

  lemma BlockRoundTrip(b: Block)
    requires BlockFits(b)
    ensures |EncodeBlock(b)| == BLOCK_FIXED_LEN + 4 + |b.body| * ATTESTATION_LEN
    ensures DecodeBlock(EncodeBlock(b)) == if |b.body| <= MAX_ATTESTATIONS then Ok(b) else Err(BytesInvalid)
  {
    hide BlockHead, DecodeBlock, DecodeBody, EncodeBody, RootFits, BodyFits;
    BodyRoundTrip(b.body);
    BlockHeadIsRead(b, EncodeBody(b.body));
  }

  lemma BlockIsCanonical(b: seq<Byte>)
    requires DecodeBlock(b).Ok?
    ensures var x := DecodeBlock(b).value;
            BlockFits(x) && |x.body| <= MAX_ATTESTATIONS && EncodeBlock(x) == b
  {
    hide U64Bytes, U64Value, RootBytes, RootValue, OffsetBytes, OffsetValue, DecodeBody, EncodeBody,
         RootFits, BodyFits;
    U64IsCanonical(b[..8]);
    U64IsCanonical(b[8..16]);
    RootIsCanonical(b[16..48]);
    RootIsCanonical(b[48..80]);
    OffsetIsCanonical(b[80..84]);
    BodyIsCanonical(b[84..]);
    assert b == b[..8] + b[8..16] + b[16..48] + b[48..80] + b[80..84] + b[84..];
  }

  // ---------------------------------------------------------------- block with proposer attestation

  /** The proposer's attestation precedes the block on the wire. */
  function MessageHead(m: BlockWithAttestation): (h: seq<Byte>)
    ensures |h| == MESSAGE_FIXED_LEN
  {
    OffsetBytes(MESSAGE_FIXED_LEN) + EncodeAttestation(m.proposerAttestation)
  }

  function EncodeMessage(m: BlockWithAttestation): seq<Byte> {
    MessageHead(m) + EncodeBlock(m.block)
  }

  function DecodeMessage(b: seq<Byte>): Result<BlockWithAttestation, DecodeError> {
    if |b| < MESSAGE_FIXED_LEN then Err(InvalidByteLength(|b|, MESSAGE_FIXED_LEN)) else
    var offset := OffsetValue(b[..4]);
    if offset != MESSAGE_FIXED_LEN then Err(OffsetIntoFixedPortion(offset)) else
    match DecodeBlock(b[140..])
    case Err(e) => Err(e)
    case Ok(block) => Ok(BlockWithAttestation(block, AttestationOf(b[4..140])))
  }

  ghost predicate MessageFits(m: BlockWithAttestation) {
    BlockFits(m.block) && DataFits(m.proposerAttestation.data)
  }

  lemma MessageHeadIsRead(m: BlockWithAttestation, rest: seq<Byte>)
    requires DataFits(m.proposerAttestation.data)
    ensures DecodeMessage(MessageHead(m) + rest) ==
            match DecodeBlock(rest)
            case Err(e) => Err(e)
            case Ok(block) => Ok(m.(block := block))
  {
    hide OffsetBytes, OffsetValue, DecodeBlock, EncodeAttestation, AttestationOf, DataFits;
    var e := MessageHead(m) + rest;
    OffsetRoundTrip(MESSAGE_FIXED_LEN);
    AttestationCodec(m.proposerAttestation, EncodeAttestation(m.proposerAttestation));
    assert e[..4] == OffsetBytes(MESSAGE_FIXED_LEN) && e[4..140] == EncodeAttestation(m.proposerAttestation);
    assert e[140..] == rest;
  }

  /** The declared size of an encoded message. */
  function MessageLen(m: BlockWithAttestation): nat {
    MESSAGE_FIXED_LEN + (BLOCK_FIXED_LEN + (OFFSET_LEN + |m.block.body| * ATTESTATION_LEN))
  }

  lemma MessageRoundTrip(m: BlockWithAttestation)
    requires MessageFits(m)
    ensures |EncodeMessage(m)| == MessageLen(m)
    ensures DecodeMessage(EncodeMessage(m)) == if |m.block.body| <= MAX_ATTESTATIONS then Ok(m) else Err(BytesInvalid)
  {
    hide MessageHead, DecodeMessage, DecodeBlock, EncodeBlock, BlockFits, DataFits;
    BlockRoundTrip(m.block);
    MessageHeadIsRead(m, EncodeBlock(m.block));
  }

  lemma MessageIsCanonical(b: seq<Byte>)
    requires DecodeMessage(b).Ok?
    ensures var m := DecodeMessage(b).value;
            MessageFits(m) && |m.block.body| <= MAX_ATTESTATIONS && EncodeMessage(m) == b
  {
    hide OffsetBytes, OffsetValue, DecodeBlock, EncodeBlock, EncodeAttestation, AttestationOf, BlockFits, DataFits;
    OffsetIsCanonical(b[..4]);
    AttestationCodec(AttestationOf(b[4..140]), b[4..140]);
    BlockIsCanonical(b[140..]);
    assert b == b[..4] + b[4..140] + b[140..];
  }

  /** A message cut anywhere past the largest legal size is refused. */
  lemma LongMessage(m: BlockWithAttestation, k: nat)
    requires MessageFits(m)
    requires MESSAGE_FIXED_LEN + BLOCK_FIXED_LEN + 4 + MAX_ATTESTATIONS * ATTESTATION_LEN < k <= |EncodeMessage(m)|
    ensures DecodeMessage(EncodeMessage(m)[..k]) == Err(BytesInvalid)
  {
    hide MessageHead, BlockHead, DecodeMessage, DecodeBlock, DecodeBody, EncodeBody, DataFits, RootFits,
         BodyFits, OffsetValue;
    var body := EncodeBody(m.block.body);
    var cut := body[..k - 224];
    assert EncodeMessage(m)[..k] == MessageHead(m) + (BlockHead(m.block) + cut);
    MessageHeadIsRead(m, BlockHead(m.block) + cut);
    BlockHeadIsRead(m.block, cut);
    BodyStartsWithOffset(m.block.body);
    assert cut[..4] == body[..4];
    LongBody(cut);
  }

  lemma BodyStartsWithOffset(atts: seq<Attestation>)
    ensures |EncodeBody(atts)| >= 4 && OffsetValue(EncodeBody(atts)[..4]) == OFFSET_LEN
  {
    hide OffsetBytes, OffsetValue, Concat;
    OffsetRoundTrip(OFFSET_LEN);
    assert EncodeBody(atts)[..4] == OffsetBytes(OFFSET_LEN);
  }

  // ---------------------------------------------------------------- signed block

  function EncodeSignature(s: seq<Byte>): seq<Byte> {
    s
  }

  function DecodeSignature(b: seq<Byte>): Result<seq<Byte>, DecodeError> {
    if |b| == SIGNATURE_LEN then Ok(b) else Err(InvalidByteLength(|b|, SIGNATURE_LEN))
  }

  function SignatureCoder(): Coder<seq<Byte>> {
    Coder(EncodeSignature, DecodeSignature)
  }

  ghost function SignatureFits(): seq<Byte> -> bool {
    (s: seq<Byte>) => |s| == SIGNATURE_LEN
  }

  lemma SignaturesAreFaithful()
    ensures Faithful(SignatureCoder(), SignatureFits()) && Width(SignatureCoder(), SignatureFits(), SIGNATURE_LEN)
  {
  }

  function EncodeSigned(s: SignedBlock): seq<Byte> {
    OffsetBytes(SIGNED_FIXED_LEN) + OffsetBytes(SIGNED_FIXED_LEN + MessageLen(s.message))
    + EncodeMessage(s.message) + Concat(SignatureCoder(), s.signature)
  }

  function DecodeSigned(b: seq<Byte>): Result<SignedBlock, DecodeError> {
    if |b| < SIGNED_FIXED_LEN then Err(InvalidByteLength(|b|, SIGNED_FIXED_LEN)) else
    var first, second := OffsetValue(b[..4]), OffsetValue(b[4..8]);
    if first != SIGNED_FIXED_LEN then Err(OffsetIntoFixedPortion(first))
    else if second < first || second > |b| then Err(OffsetOutOfBounds(second))
    else match DecodeMessage(b[8..second])
      case Err(e) => Err(e)
      case Ok(message) =>
        match DecodeFixedList(SignatureCoder(), SIGNATURE_LEN, b[second..], MAX_ATTESTATIONS)
        case Err(e) => Err(e)
        case Ok(signature) => Ok(SignedBlock(message, signature))
  }

  /** The values the types alone allow: 32-byte roots and signature-width signatures. */
  ghost predicate SignedTyped(s: SignedBlock) {
    MessageFits(s.message) && AllFit(s.signature, SignatureFits())
  }

  ghost predicate WithinLimits(s: SignedBlock) {
    |s.message.block.body| <= MAX_ATTESTATIONS && |s.signature| <= MAX_ATTESTATIONS
  }

  /** Where the parts of an encoded signed block lie. */
  lemma SignedSplits(s: SignedBlock)
    requires SignedTyped(s)
    ensures var e, n := EncodeSigned(s), SIGNED_FIXED_LEN + MessageLen(s.message);
            && |e| == n + |Concat(SignatureCoder(), s.signature)|
            && OffsetValue(e[..4]) == SIGNED_FIXED_LEN && OffsetValue(e[4..8]) == (if n <= U32_MAX then n else U32_MAX)
            && e[8..n] == EncodeMessage(s.message) && e[n..] == Concat(SignatureCoder(), s.signature)
  {
    hide OffsetBytes, OffsetValue, EncodeMessage, Concat, MessageLen, MessageFits, AllFit;
    var e, n := EncodeSigned(s), SIGNED_FIXED_LEN + MessageLen(s.message);
    MessageRoundTrip(s.message);
    OffsetRoundTrip(SIGNED_FIXED_LEN);
    OffsetRoundTrip(n);
    assert e[..4] == OffsetBytes(SIGNED_FIXED_LEN) && e[4..8] == OffsetBytes(n);
    assert e[8..n] == EncodeMessage(s.message) && e[n..] == Concat(SignatureCoder(), s.signature);
  }

  /** A signed block comes back from the wire exactly when both lists are within their
      limit; beyond it, and even where the second offset saturates, it is refused. */
  lemma SignedRoundTrip(s: SignedBlock)
    requires SignedTyped(s)
    ensures DecodeSigned(EncodeSigned(s)) == if WithinLimits(s) then Ok(s) else Err(BytesInvalid)
  {
    hide OffsetValue, EncodeMessage, DecodeMessage, EncodeSigned, Concat, DecodeFixedList, MessageFits,
         AllFit, Faithful, Width;
    var e, n := EncodeSigned(s), SIGNED_FIXED_LEN + MessageLen(s.message);
    SignedSplits(s);
    MessageRoundTrip(s.message);
    SignaturesAreFaithful();
    FixedListRoundTrip(SignatureCoder(), SignatureFits(), SIGNATURE_LEN, s.signature, MAX_ATTESTATIONS);
    if n > U32_MAX {
      assert e[8..U32_MAX] == e[8..n][..U32_MAX - 8];
      LongMessage(s.message, U32_MAX - 8);
    }
  }

  lemma SignedIsCanonical(b: seq<Byte>)
    requires DecodeSigned(b).Ok?
    ensures var s := DecodeSigned(b).value;
            SignedTyped(s) && WithinLimits(s) && EncodeSigned(s) == b
  {
    hide OffsetBytes, OffsetValue, EncodeMessage, DecodeMessage, Concat, DecodeFixedList, MessageFits,
         AllFit, Faithful, Width;
    var second := OffsetValue(b[4..8]);
    OffsetIsCanonical(b[..4]);
    OffsetIsCanonical(b[4..8]);
    MessageIsCanonical(b[8..second]);
    MessageRoundTrip(DecodeSigned(b).value.message);
    SignaturesAreFaithful();
    FixedListIsCanonical(SignatureCoder(), SignatureFits(), SIGNATURE_LEN, b[second..], MAX_ATTESTATIONS);
    assert b == b[..4] + b[4..8] + b[8..second] + b[second..];
  }

  // ---------------------------------------------------------------- by-root response

  function SignedCoder(): Coder<SignedBlock> {
    Coder(EncodeSigned, DecodeSigned)
  }

  ghost function SignedFits(): SignedBlock -> bool {
    (s: SignedBlock) => SignedTyped(s) && WithinLimits(s)
  }

  lemma SignedBlocksAreFaithful()
    ensures Faithful(SignedCoder(), SignedFits())
  {
    hide EncodeSigned, DecodeSigned, SignedTyped, WithinLimits;
    forall s | SignedFits()(s)
      ensures SignedCoder().decode(SignedCoder().encode(s)) == Ok(s)
    {
      SignedRoundTrip(s);
    }
    forall b | SignedCoder().decode(b).Ok?
      ensures var s := SignedCoder().decode(b).value; SignedFits()(s) && SignedCoder().encode(s) == b
    {
      SignedIsCanonical(b);
    }
  }

  ghost predicate ResponseFits(blocks: seq<SignedBlock>) {
    && AllFit(blocks, SignedFits()) && |blocks| <= MAX_REQUEST_BLOCKS
    && OffsetsFit(Starts(SignedCoder(), blocks, OFFSET_LEN * |blocks|))
  }

  /** A response decodes to what was encoded, and accepted bytes are exactly encodings. */
  lemma ResponseCodec(blocks: seq<SignedBlock>, b: seq<Byte>)
    ensures ResponseFits(blocks) ==>
              DecodeVariableList(SignedCoder(), VariableBytes(SignedCoder(), blocks), MAX_REQUEST_BLOCKS) == Ok(blocks)
    ensures var r := DecodeVariableList(SignedCoder(), b, MAX_REQUEST_BLOCKS);
            r.Ok? ==> ResponseFits(r.value) && VariableBytes(SignedCoder(), r.value) == b
  {
    hide Faithful, AllFit, OffsetsFit, Starts, VariableBytes, DecodeVariableList, SignedCoder, SignedFits;
    SignedBlocksAreFaithful();
    if ResponseFits(blocks) { VariableListRoundTrip(SignedCoder(), SignedFits(), blocks, MAX_REQUEST_BLOCKS); }
    if DecodeVariableList(SignedCoder(), b, MAX_REQUEST_BLOCKS).Ok? {
      VariableListIsCanonical(SignedCoder(), SignedFits(), b, MAX_REQUEST_BLOCKS);
    }
  }

  /** The frame fits the reader's caps. */
  ghost predicate WithinCaps(ps: seq<Frames.Piece>, max: Option<U64>) {
    && |ps| < Frames.MAX_CHUNKS && |Frames.Payload(ps)| <= U64_MAX
    && (max.Some? ==> |Frames.Payload(ps)| <= max.value)
  }

  /** Signed blocks streamed one frame each are all read back: an encoded block is never
      the one-byte payload the reader refuses. */
  lemma SignedStreamRoundTrip(
      codec: Frames.Codec, frames: seq<seq<Frames.Piece>>, blocks: seq<SignedBlock>, max: Option<U64>)
    requires AllFit(blocks, SignedFits())
    requires Frames.ValidFrames(codec, frames) && Frames.Carries(SignedCoder(), frames, blocks)
    requires forall i :: 0 <= i < |frames| ==> WithinCaps(frames[i], max)
    ensures Frames.ReadStream(codec, SignedCoder(), Frames.StreamBytes(codec, frames), max) == Ok(blocks)
  {
    hide Faithful, AllFit, EncodeSigned, DecodeSigned, SignedFits, Frames.Payload, Frames.ReadStream, Frames.StreamBytes;
    SignedBlocksAreFaithful();
    forall i | 0 <= i < |frames| ensures Frames.Readable(frames[i], max) {
      assert WithinCaps(frames[i], max);
      assert Frames.Payload(frames[i]) == EncodeSigned(blocks[i]);
      SignedIsLong(blocks[i]);
    }
    Frames.StreamRoundTrip(codec, SignedCoder(), SignedFits(), frames, blocks, max);
  }

  lemma SignedIsLong(s: SignedBlock)
    ensures |EncodeSigned(s)| >= SIGNED_FIXED_LEN
  {
    hide OffsetBytes, EncodeMessage, Concat;
  }
}
