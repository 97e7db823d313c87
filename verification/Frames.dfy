/**
  Length-prefixed stream frames: an unsigned LEB128 length, then Snappy framed chunks
  that decode to exactly that many bytes. Snappy decompression and the masked CRC are
  parameters. The reader consumes one frame and stops at a chunk boundary, so frames
  laid end to end are recovered one by one.
 */
module Frames {
  import opened Containers
  import Ssz

  datatype FrameError =
    | UnexpectedEof
    | UvarintOverflow
    | FrameTooLarge(length: U64, max: U64)
    | SnappyFailure
    | IterationCapExceeded
    | ChunkOverBudget
    | DuplicateIdentifier
    | InvalidIdentifier
    | DataBeforeIdentifier
    | DecodedOverRemaining
    | UnsupportedChunk
    | MissingChecksum
    | CrcMismatch

  const UVARINT_MAX_LEN: nat := 10
  const MAX_CHUNKS: nat := 4096
  const MAGIC: seq<Byte> := [0x73, 0x4e, 0x61, 0x50, 0x70, 0x59]

  /** Raw Snappy decompression and the masked checksum of a decoded block. */
  datatype Codec = Codec(decompress: seq<Byte> -> Option<seq<Byte>>, crc: seq<Byte> -> nat)

  /** An in-memory byte source with a cursor. */
  class Reader {
    const data: seq<Byte>
    var pos: nat

    ghost predicate Valid()
      reads this
    {
      pos <= |data|
    }

    /** The bytes not yet read. */
    ghost function Rest(): seq<Byte>
      requires Valid()
      reads this
    {
      data[pos..]
    }

    constructor (bytes: seq<Byte>)
      ensures Valid() && data == bytes && pos == 0
    {
      data, pos := bytes, 0;
    }

    /** One byte, or nothing at the end. */
    method ReadOne() returns (b: Option<Byte>)
      requires Valid()
      modifies this
      ensures Valid()
      ensures old(Rest()) == [] ==> b.None? && pos == old(pos)
      ensures old(Rest()) != [] ==> b == Some(old(Rest())[0]) && pos == old(pos) + 1 && Rest() == old(Rest())[1..]
    {
      if pos == |data| { return None; }
      b := Some(data[pos]);
      pos := pos + 1;
    }

    /** Exactly `n` bytes, or an error at the end. */
    method ReadExact(n: nat) returns (r: Result<seq<Byte>, FrameError>)
      requires Valid()
      modifies this
      ensures Valid()
      ensures r.Ok? <==> n <= |old(Rest())|
      ensures r.Ok? ==> r.value == old(Rest())[..n] && pos == old(pos) + n && Rest() == old(Rest())[n..]
      ensures r.Err? ==> r.error == UnexpectedEof
    {
      if |data| - pos < n {
        pos := |data|;
        return Err(UnexpectedEof);
      }
      r := Ok(data[pos..pos + n]);
      pos := pos + n;
    }
  }

  // ---------------------------------------------------------------- uvarint

  /** `d` shifted left by `i` groups of seven bits. */
  function Shift(d: nat, i: nat): nat {
    if i == 0 then d else 128 * Shift(d, i - 1)
  }

  /** The LEB128 bytes of a value. */
  function Uvarint(v: nat): seq<Byte> {
    if v < 128 then [v] else [v % 128 + 128] + Uvarint(v / 128)
  }

  method WriteUvarint(value: U64) returns (buf: seq<Byte>)
    ensures buf == Uvarint(value)
  {
    buf := [];
    var v: nat := value;
    while v >= 128
      invariant buf + Uvarint(v) == Uvarint(value)
    {
      assert Uvarint(v) == [v % 128 + 128] + Uvarint(v / 128);
      assert buf + ([v % 128 + 128] + Uvarint(v / 128)) == (buf + [v % 128 + 128]) + Uvarint(v / 128);
      buf := buf + [v % 128 + 128];
      v := v / 128;
    }
    buf := buf + [v];
  }

  /** The value and the number of bytes read; nothing on a clean end of stream. */
  type Length = Result<Option<(nat, nat)>, FrameError>

  /** Reading from byte `i` on, with `acc` accumulated so far. */
  ghost function ScanUvarint(rest: seq<Byte>, i: nat, acc: nat): Length
    requires i <= UVARINT_MAX_LEN
    decreases UVARINT_MAX_LEN - i
  {
    if i == UVARINT_MAX_LEN then Err(UvarintOverflow)
    else if rest == [] then if i == 0 then Ok(None) else Err(UnexpectedEof)
    else if rest[0] < 128 then
      if i == UVARINT_MAX_LEN - 1 && rest[0] > 1 then Err(UvarintOverflow)
      else Ok(Some((acc + Shift(rest[0], i), i + 1)))
    else ScanUvarint(rest[1..], i + 1, acc + Shift(rest[0] - 128, i))
  }

  method ReadUvarintOrEof(r: Reader) returns (v: Result<Option<nat>, FrameError>)
    requires r.Valid()
    modifies r
    ensures r.Valid()
    ensures match ScanUvarint(old(r.Rest()), 0, 0)
            case Err(e) => v == Err(e)
            case Ok(None) => v == Ok(None) && r.pos == old(r.pos)
            case Ok(Some(p)) => v == Ok(Some(p.0)) && r.pos == old(r.pos) + p.1
  {
    hide Shift;
    var acc: nat := 0;
    for i := 0 to UVARINT_MAX_LEN
      invariant r.Valid() && r.pos == old(r.pos) + i
      invariant ScanUvarint(r.Rest(), i, acc) == ScanUvarint(old(r.Rest()), 0, 0)
    {
      var b := r.ReadOne();
      match b {
        case None => return if i == 0 then Ok(None) else Err(UnexpectedEof);
        case Some(byte) =>
          if byte < 0x80 {
            if i == UVARINT_MAX_LEN - 1 && byte > 1 { return Err(UvarintOverflow); }
            return Ok(Some(acc + Shift(byte, i)));
          }
          acc := acc + Shift(byte - 128, i);
      }
    }
    v := Err(UvarintOverflow);
  }

  /** What still fits in a `u64` from byte `i` on. */
  ghost function Room(i: nat): nat
    requires i < UVARINT_MAX_LEN
    decreases UVARINT_MAX_LEN - i
  {
    if i == UVARINT_MAX_LEN - 1 then 2 else 128 * Room(i + 1)
  }

  lemma RoomOfU64()
    ensures Room(0) == U64_MAX + 1
  {
    assert Room(7) == 2 * 128 * 128;
    assert Room(5) == 128 * (128 * Room(7));
    assert Room(3) == 128 * (128 * Room(5));
    assert Room(1) == 128 * (128 * Room(3));
    assert Room(0) == 128 * Room(1);
  }

  lemma {:induction false} ScanUndoesUvarint(v: nat, suffix: seq<Byte>, i: nat, acc: nat)
    requires i < UVARINT_MAX_LEN && v < Room(i)
    ensures ScanUvarint(Uvarint(v) + suffix, i, acc) == Ok(Some((acc + Shift(v, i), i + |Uvarint(v)|)))
    decreases v
  {
    var bytes := Uvarint(v) + suffix;
    if v >= 128 {
      assert bytes[0] == v % 128 + 128;
      assert bytes[1..] == Uvarint(v / 128) + suffix;
      ScanUndoesUvarint(v / 128, suffix, i + 1, acc + Shift(v % 128, i));
      SplitLowDigit(v, i);
    }
  }

  lemma {:induction false} SplitLowDigit(v: nat, i: nat)
    ensures Shift(v % 128, i) + Shift(v / 128, i + 1) == Shift(v, i)
  {
    if i > 0 { SplitLowDigit(v, i - 1); }
  }

  /** Reading undoes writing for every `u64`, leaving any suffix unread. */
  lemma UvarintRoundTrip(v: U64, suffix: seq<Byte>)
    ensures ScanUvarint(Uvarint(v) + suffix, 0, 0) == Ok(Some((v, |Uvarint(v)|)))
  {
    RoomOfU64();
    ScanUndoesUvarint(v, suffix, 0, 0);
  }

  // ---------------------------------------------------------------- chunks

  function Le24(b0: nat, b1: nat, b2: nat): nat {
    b0 + 256 * b1 + 65536 * b2
  }

  function Le32(b0: nat, b1: nat, b2: nat, b3: nat): nat {
    b0 + 256 * b1 + 65536 * b2 + 16777216 * b3
  }

  /** A chunk: its type, its payload and how many bytes it takes. */
  datatype Chunk = Chunk(kind: Byte, payload: seq<Byte>, size: nat)

  function Budget(remaining: U64): nat {
    if remaining + 4 < U64_MAX then remaining + 4 else U64_MAX
  }

  /** One chunk off the front, its payload capped by the budget. */
  ghost function NextChunk(rest: seq<Byte>, budget: nat): Result<Chunk, FrameError> {
    if |rest| < 4 then Err(UnexpectedEof) else
    var len := Le24(rest[1], rest[2], rest[3]);
    if len > budget then Err(ChunkOverBudget)
    else if |rest| < 4 + len then Err(UnexpectedEof)
    else Ok(Chunk(rest[0], rest[4..4 + len], 4 + len))
  }

  method ReadSnappyChunk(r: Reader, budget: nat) returns (c: Result<(Byte, seq<Byte>), FrameError>)
    requires r.Valid()
    modifies r
    ensures r.Valid()
    ensures match NextChunk(old(r.Rest()), budget)
            case Err(e) => c == Err(e)
            case Ok(k) => c == Ok((k.kind, k.payload)) && r.pos == old(r.pos) + k.size
  {
    var head := r.ReadExact(4);
    if head.Err? { return Err(head.error); }
    var hd := head.value;
    var len := Le24(hd[1], hd[2], hd[3]);
    if len > budget { return Err(ChunkOverBudget); }
    ghost var before := old(r.Rest());
    assert hd[0] == before[0] && hd[1] == before[1] && hd[2] == before[2] && hd[3] == before[3];
    var payload := r.ReadExact(len);
    if payload.Err? { return Err(payload.error); }
    assert before[4..][..len] == before[4..4 + len];
    c := Ok((hd[0], payload.value));
  }

  /** The decoded bytes of a data chunk, checksum verified. */
  function DecodeData(codec: Codec, kind: Byte, payload: seq<Byte>): Result<seq<Byte>, FrameError> {
    if |payload| < 4 then Err(MissingChecksum) else
    var body := if kind == 0 then codec.decompress(payload[4..]) else Some(payload[4..]);
    if body.None? then Err(SnappyFailure)
    else if codec.crc(body.value) != Le32(payload[0], payload[1], payload[2], payload[3]) then Err(CrcMismatch)
    else Ok(body.value)
  }

  // ---------------------------------------------------------------- frame body

  /** What one chunk contributes: decoded bytes, bytes consumed, identifier seen. */
  datatype Step = Step(data: seq<Byte>, size: nat, seen: bool)

  /** One turn of the chunk loop. */
  ghost function ChunkStep(codec: Codec, rest: seq<Byte>, remaining: U64, seen: bool): (s: Result<Step, FrameError>)
    ensures s.Ok? ==> 4 <= s.value.size <= |rest| && |s.value.data| <= remaining
  {
    var next := NextChunk(rest, Budget(remaining));
    if next.Err? then Err(next.error) else
    var Chunk(kind, payload, size) := next.value;
    if kind == 0xff then
      if seen then Err(DuplicateIdentifier)
      else if payload != MAGIC then Err(InvalidIdentifier)
      else Ok(Step([], size, true))
    else if kind <= 1 then
      if !seen then Err(DataBeforeIdentifier) else
      var data := DecodeData(codec, kind, payload);
      if data.Err? then Err(data.error)
      else if |data.value| > remaining then Err(DecodedOverRemaining)
      else Ok(Step(data.value, size, seen))
    else if kind <= 0x7f then Err(UnsupportedChunk)
    else Ok(Step([], size, seen))
  }

  /** Decoded bytes and bytes consumed. */
  type Body = Result<(seq<Byte>, nat), FrameError>

  ghost function After(data: seq<Byte>, size: nat, b: Body): Body {
    match b
    case Err(e) => Err(e)
    case Ok(p) => Ok((data + p.0, size + p.1))
  }

  /** Chunk after chunk until `remaining` decoded bytes have been produced. */
  ghost function FrameBody(codec: Codec, rest: seq<Byte>, remaining: U64, seen: bool, chunks: nat): Body
    requires chunks <= MAX_CHUNKS
    decreases MAX_CHUNKS - chunks
  {
    if remaining == 0 then Ok(([], 0))
    else if chunks == MAX_CHUNKS then Err(IterationCapExceeded)
    else match ChunkStep(codec, rest, remaining, seen)
      case Err(e) => Err(e)
      case Ok(s) => After(s.data, s.size, FrameBody(codec, rest[s.size..], remaining - |s.data|, s.seen, chunks + 1))
  }

  method ReadStep(codec: Codec, r: Reader, remaining: U64, seen: bool)
    returns (out: Result<(seq<Byte>, bool), FrameError>)
    requires r.Valid()
    modifies r
    ensures r.Valid()
    ensures match ChunkStep(codec, old(r.Rest()), remaining, seen)
            case Err(e) => out == Err(e)
            case Ok(s) => out == Ok((s.data, s.seen)) && r.pos == old(r.pos) + s.size
  {
    hide DecodeData;
    var chunk := ReadSnappyChunk(r, Budget(remaining));
    if chunk.Err? { return Err(chunk.error); }
    var (kind, payload) := chunk.value;
    if kind == 0xff {
      if seen { return Err(DuplicateIdentifier); }
      if payload != MAGIC { return Err(InvalidIdentifier); }
      return Ok(([], true));
    } else if kind <= 1 {
      if !seen { return Err(DataBeforeIdentifier); }
      var data := DecodeData(codec, kind, payload);
      if data.Err? { return Err(data.error); }
      if |data.value| > remaining { return Err(DecodedOverRemaining); }
      return Ok((data.value, seen));
    } else if kind <= 0x7f {
      return Err(UnsupportedChunk);
    }
    out := Ok(([], seen));
  }

  /** `read_snappy_frame_exact`. */
  method ReadSnappyFrameExact(codec: Codec, r: Reader, length: U64) returns (d: Result<seq<Byte>, FrameError>)
    requires r.Valid()
    modifies r
    ensures r.Valid()
    ensures match FrameBody(codec, old(r.Rest()), length, false, 0)
            case Err(e) => d == Err(e)
            case Ok(p) => d == Ok(p.0) && r.pos == old(r.pos) + p.1
  {
    hide ChunkStep, FrameBody, After;
    ghost var start := r.Rest();
    ghost var all := FrameBody(codec, start, length, false, 0);
    AfterNothing(all);
    var decoded: seq<Byte> := [];
    var remaining: U64 := length;
    var seen := false;
    var iterations := 0;
    while remaining > 0
      invariant old(r.pos) <= r.pos <= |r.data| && iterations <= MAX_CHUNKS
      invariant all == After(decoded, r.pos - old(r.pos), FrameBody(codec, r.data[r.pos..], remaining, seen, iterations))
      decreases MAX_CHUNKS - iterations
    {
      ghost var before, was := r.Rest(), r.pos;
      BodyUnfolds(codec, before, remaining, seen, iterations);
      AfterCases(decoded, was - old(r.pos), FrameBody(codec, before, remaining, seen, iterations));
      if iterations == MAX_CHUNKS { return Err(IterationCapExceeded); }
      var step := ReadStep(codec, r, remaining, seen);
      if step.Err? { return Err(step.error); }
      assert r.Rest() == before[r.pos - was..];
      AfterTwice(decoded, was - old(r.pos), step.value.0, r.pos - was,
                 FrameBody(codec, r.Rest(), remaining - |step.value.0|, step.value.1, iterations + 1));
      decoded := decoded + step.value.0;
      remaining := remaining - |step.value.0|;
      seen := step.value.1;
      iterations := iterations + 1;
    }
    BodyDone(codec, r.Rest(), seen, iterations);
    AfterCases(decoded, r.pos - old(r.pos), Ok(([], 0)));
    assert decoded + [] == decoded;
    d := Ok(decoded);
  }

  lemma BodyUnfolds(codec: Codec, rest: seq<Byte>, remaining: U64, seen: bool, chunks: nat)
    requires remaining > 0 && chunks <= MAX_CHUNKS
    ensures chunks == MAX_CHUNKS ==> FrameBody(codec, rest, remaining, seen, chunks) == Err(IterationCapExceeded)
    ensures chunks < MAX_CHUNKS ==> match ChunkStep(codec, rest, remaining, seen)
                                    case Err(e) => FrameBody(codec, rest, remaining, seen, chunks) == Err(e)
                                    case Ok(s) => FrameBody(codec, rest, remaining, seen, chunks) ==
                                                  After(s.data, s.size, FrameBody(codec, rest[s.size..], remaining - |s.data|, s.seen, chunks + 1))
  {
    hide ChunkStep;
  }

  lemma BodyDone(codec: Codec, rest: seq<Byte>, seen: bool, chunks: nat)
    requires chunks <= MAX_CHUNKS
    ensures FrameBody(codec, rest, 0, seen, chunks) == Ok(([], 0))
  {
  }

  lemma AfterCases(d: seq<Byte>, n: nat, b: Body)
    ensures b.Err? ==> After(d, n, b) == b
    ensures b.Ok? ==> After(d, n, b) == Ok((d + b.value.0, n + b.value.1))
  {
  }

  lemma AfterNothing(b: Body)
    ensures After([], 0, b) == b
  {
    if b.Ok? { assert [] + b.value.0 == b.value.0; }
  }

  lemma AfterTwice(d: seq<Byte>, n: nat, e: seq<Byte>, m: nat, b: Body)
    ensures After(d, n, After(e, m, b)) == After(d + e, n + m, b)
  {
    if b.Ok? { assert d + (e + b.value.0) == (d + e) + b.value.0; }
  }

  /** `read_req_resp_frame`: the payload and the number of bytes read. */
  ghost function ReadFrame(codec: Codec, rest: seq<Byte>, max: Option<U64>): Result<Option<(seq<Byte>, nat)>, FrameError> {
    match ScanUvarint(rest, 0, 0)
    case Err(e) => Err(e)
    case Ok(None) => Ok(None)
    case Ok(Some(p)) =>
      ScanIsExact(rest, 0, 0);
      if max.Some? && p.0 > max.value then Err(FrameTooLarge(p.0, max.value)) else
      match FrameBody(codec, rest[p.1..], p.0, false, 0)
      case Err(e) => Err(e)
      case Ok(b) => Ok(Some((b.0, p.1 + b.1)))
  }

  method ReadReqRespFrame(codec: Codec, r: Reader, max: Option<U64>) returns (d: Result<Option<seq<Byte>>, FrameError>)
    requires r.Valid()
    modifies r
    ensures r.Valid()
    ensures match ReadFrame(codec, old(r.Rest()), max)
            case Err(e) => d == Err(e)
            case Ok(None) => d == Ok(None) && r.pos == old(r.pos)
            case Ok(Some(p)) => d == Ok(Some(p.0)) && r.pos == old(r.pos) + p.1
  {
    hide FrameBody, ScanUvarint;
    ghost var before := r.Rest();
    ScanIsExact(before, 0, 0);
    var length := ReadUvarintOrEof(r);
    if length.Err? { return Err(length.error); }
    if length.value.None? { return Ok(None); }
    var n := length.value.value;
    if max.Some? && n > max.value { return Err(FrameTooLarge(n, max.value)); }
    assert r.Rest() == before[r.pos - old(r.pos)..];
    var body := ReadSnappyFrameExact(codec, r, n);
    if body.Err? { return Err(body.error); }
    d := Ok(Some(body.value));
  }

  // ---------------------------------------------------------------- exactness

  /** A length prefix is a `u64`, lies within the input, and ignores what follows it. */
  lemma {:induction false} ScanIsExact(rest: seq<Byte>, i: nat, acc: nat)
    requires i < UVARINT_MAX_LEN && acc < Shift(1, i)
    ensures var s := ScanUvarint(rest, i, acc);
            s.Ok? && s.value.Some? ==> s.value.value.0 <= U64_MAX && i < s.value.value.1 <= i + |rest|
    decreases UVARINT_MAX_LEN - i
  {
    if rest != [] {
      ShiftBound(rest[0] % 128, i);
      if rest[0] >= 128 {
        if i + 1 < UVARINT_MAX_LEN { ScanIsExact(rest[1..], i + 1, acc + Shift(rest[0] - 128, i)); }
      } else if i < UVARINT_MAX_LEN - 1 || rest[0] <= 1 {
        TenDigits(rest[0], i);
      }
    }
  }

  lemma {:induction false} ShiftBound(d: nat, i: nat)
    requires d < 128
    ensures Shift(d, i) + Shift(1, i) <= Shift(1, i + 1)
  {
    if i > 0 { ShiftBound(d, i - 1); }
  }

  lemma TenDigits(d: nat, i: nat)
    requires i < UVARINT_MAX_LEN && d < 128 && (i == UVARINT_MAX_LEN - 1 ==> d <= 1)
    ensures Shift(d, i) + Shift(1, i) <= U64_MAX + 1
  {
    assert Shift(1, 3) == 128 * 128 * 128;
    assert Shift(1, 6) == 128 * (128 * (128 * Shift(1, 3)));
    assert Shift(1, 9) == 128 * (128 * (128 * Shift(1, 6)));
    if i < UVARINT_MAX_LEN - 1 {
      ShiftBound(d, i);
      ShiftMonotone(i + 1, UVARINT_MAX_LEN - 1);
    } else {
      assert Shift(d, i) <= Shift(1, i) by { ShiftOrdered(d, 1, i); }
    }
  }

  lemma {:induction false} ShiftMonotone(i: nat, j: nat)
    requires i <= j
    ensures Shift(1, i) <= Shift(1, j)
    decreases j
  {
    if i < j { ShiftMonotone(i, j - 1); }
  }

  lemma {:induction false} ShiftOrdered(d: nat, e: nat, i: nat)
    requires d <= e
    ensures Shift(d, i) <= Shift(e, i)
  {
    if i > 0 { ShiftOrdered(d, e, i - 1); }
  }

  /** A chunk is decided by its own bytes. */
  lemma StepIsLocal(codec: Codec, rest: seq<Byte>, other: seq<Byte>, remaining: U64, seen: bool)
    requires ChunkStep(codec, rest, remaining, seen).Ok?
    requires var n := ChunkStep(codec, rest, remaining, seen).value.size;
             n <= |other| && rest[..n] == other[..n]
    ensures ChunkStep(codec, other, remaining, seen) == ChunkStep(codec, rest, remaining, seen)
  {
    hide DecodeData;
    var n := ChunkStep(codec, rest, remaining, seen).value.size;
    assert rest[0] == rest[..n][0] && rest[1] == rest[..n][1] && rest[2] == rest[..n][2] && rest[3] == rest[..n][3];
    assert other[0] == other[..n][0] && other[1] == other[..n][1] && other[2] == other[..n][2] && other[3] == other[..n][3];
    assert rest[4..n] == rest[..n][4..] && other[4..n] == other[..n][4..];
  }

  /** A successful read returns exactly the declared number of bytes, stays within the
      input, and does not depend on anything after what it consumed. */
  lemma {:induction false} BodyIsExact(
      codec: Codec, rest: seq<Byte>, remaining: U64, seen: bool, chunks: nat, suffix: seq<Byte>)
    requires chunks <= MAX_CHUNKS && FrameBody(codec, rest, remaining, seen, chunks).Ok?
    ensures var (d, used) := FrameBody(codec, rest, remaining, seen, chunks).value;
            && |d| == remaining && used <= |rest|
            && FrameBody(codec, rest[..used] + suffix, remaining, seen, chunks) == Ok((d, used))
    decreases MAX_CHUNKS - chunks
  {
    hide ChunkStep, FrameBody;
    if remaining == 0 {
      BodyDone(codec, rest, seen, chunks);
      BodyDone(codec, rest[..0] + suffix, seen, chunks);
    } else {
      BodyUnfolds(codec, rest, remaining, seen, chunks);
      var s := ChunkStep(codec, rest, remaining, seen).value;
      var tail := rest[s.size..];
      BodyIsExact(codec, tail, remaining - |s.data|, s.seen, chunks + 1, suffix);
      var used := FrameBody(codec, rest, remaining, seen, chunks).value.1;
      var short := rest[..used] + suffix;
      assert short[s.size..] == tail[..used - s.size] + suffix;
      assert short[..s.size] == rest[..s.size];
      StepIsLocal(codec, rest, short, remaining, seen);
      BodyUnfolds(codec, short, remaining, seen, chunks);
    }
  }

  /** A frame read within the input: exactly the declared bytes, at least one consumed,
      and the same frame whatever follows it. */
  lemma FrameIsExact(codec: Codec, rest: seq<Byte>, max: Option<U64>)
    ensures var f := ReadFrame(codec, rest, max);
            && (f == Ok(None) <==> rest == [])
            && (f.Ok? && f.value.Some? ==> 0 < f.value.value.1 <= |rest|)
  {
    hide FrameBody;
    ScanIsExact(rest, 0, 0);
    var s := ScanUvarint(rest, 0, 0);
    if s.Ok? && s.value.Some? {
      var tail := rest[s.value.value.1..];
      if FrameBody(codec, tail, s.value.value.0, false, 0).Ok? {
        BodyIsExact(codec, tail, s.value.value.0, false, 0, []);
      }
    }
  }

  /** A stream fails on a bad frame or on a payload that does not decode. */
  datatype StreamError = BadFrame(frame: FrameError) | BadPayload(payload: Ssz.DecodeError)

  /** `decode_frames`: every frame of a stream, in order, each payload decoded. */
  ghost function ReadStream<T>(codec: Codec, c: Ssz.Coder<T>, rest: seq<Byte>, max: Option<U64>)
    : Result<seq<T>, StreamError>
    decreases |rest|
  {
    FrameIsExact(codec, rest, max);
    match ReadFrame(codec, rest, max)
    case Err(e) => Err(BadFrame(e))
    case Ok(None) => Ok([])
    case Ok(Some(p)) =>
      var value := c.decode(p.0);
      if value.Err? then Err(BadPayload(value.error))
      else Before([value.value], ReadStream(codec, c, rest[p.1..], max))
  }

  ghost function Before<T>(values: seq<T>, more: Result<seq<T>, StreamError>): Result<seq<T>, StreamError> {
    match more
    case Err(e) => Err(e)
    case Ok(rest) => Ok(values + rest)
  }

  lemma BeforeTwice<T>(a: seq<T>, b: seq<T>, more: Result<seq<T>, StreamError>)
    ensures Before(a, Before(b, more)) == Before(a + b, more)
    ensures Before([], more) == more && Before(a, Ok([])) == Ok(a)
    ensures more.Err? ==> Before(a, more) == more
  {
    if more.Ok? {
      assert a + (b + more.value) == (a + b) + more.value;
      assert [] + more.value == more.value;
    }
    assert a + [] == a;
  }

  lemma StreamUnfolds<T>(codec: Codec, c: Ssz.Coder<T>, rest: seq<Byte>, max: Option<U64>)
    ensures var f, all := ReadFrame(codec, rest, max), ReadStream(codec, c, rest, max);
            && (f.Err? ==> all == Err(BadFrame(f.error)))
            && (f == Ok(None) ==> all == Ok([]))
            && (f.Ok? && f.value.Some? ==>
                  var (payload, n), value := f.value.value, c.decode(f.value.value.0);
                  && 0 < n <= |rest|
                  && all == if value.Err? then Err(BadPayload(value.error))
                            else Before([value.value], ReadStream(codec, c, rest[n..], max)))
  {
    hide ReadFrame;
    FrameIsExact(codec, rest, max);
  }

  method DecodeFrames<T>(codec: Codec, c: Ssz.Coder<T>, buf: seq<Byte>, max: Option<U64>)
    returns (values: Result<seq<T>, StreamError>)
    ensures values == ReadStream(codec, c, buf, max)
  {
    hide ReadFrame, ReadStream, Before;
    var cursor := new Reader(buf);
    var read: seq<T> := [];
    ghost var all := ReadStream(codec, c, buf, max);
    assert cursor.Rest() == buf;
    BeforeTwice([], [], all);
    while true
      invariant fresh(cursor) && cursor.Valid()
      invariant Before(read, ReadStream(codec, c, cursor.Rest(), max)) == all
      decreases |cursor.Rest()|
    {
      ghost var before, was := cursor.Rest(), cursor.pos;
      StreamUnfolds(codec, c, before, max);
      BeforeTwice(read, [], ReadStream(codec, c, before, max));
      var frame := ReadReqRespFrame(codec, cursor, max);
      if frame.Err? { return Err(BadFrame(frame.error)); }
      if frame.value.None? { return Ok(read); }
      assert cursor.Rest() == before[cursor.pos - was..];
      var value := c.decode(frame.value.value);
      if value.Err? { return Err(BadPayload(value.error)); }
      BeforeTwice(read, [value.value], ReadStream(codec, c, cursor.Rest(), max));
      read := read + [value.value];
    }
  }

  // ---------------------------------------------------------------- what the writer produces

  /** A block of at most 64 KiB as the framing encoder emits it: raw, or compressed when
      that does not make it longer. */
  datatype Piece = Piece(data: seq<Byte>, packed: Option<seq<Byte>>)

  const BLOCK: nat := 65536

  ghost predicate ValidPiece(codec: Codec, p: Piece) {
    && 0 < |p.data| <= BLOCK && codec.crc(p.data) < 0x1_0000_0000
    && (p.packed.Some? ==> |p.packed.value| <= |p.data| && codec.decompress(p.packed.value) == Some(p.data))
  }

  ghost predicate ValidPieces(codec: Codec, ps: seq<Piece>) {
    forall p :: p in ps ==> ValidPiece(codec, p)
  }

  ghost function ChunkBytes(codec: Codec, p: Piece): seq<Byte>
    requires ValidPiece(codec, p)
  {
    var body := if p.packed.Some? then p.packed.value else p.data;
    var len, crc := 4 + |body|, codec.crc(p.data);
    [if p.packed.Some? then 0 else 1, len % 256, len / 256 % 256, len / 256 / 256,
     crc % 256, crc / 256 % 256, crc / 256 / 256 % 256, crc / 256 / 256 / 256] + body
  }

  ghost function ChunksBytes(codec: Codec, ps: seq<Piece>): seq<Byte>
    requires ValidPieces(codec, ps)
  {
    if ps == [] then [] else ChunkBytes(codec, ps[0]) + ChunksBytes(codec, ps[1..])
  }

  /** The payload the pieces carry. */
  ghost function Payload(ps: seq<Piece>): seq<Byte> {
    if ps == [] then [] else ps[0].data + Payload(ps[1..])
  }

  ghost function Identifier(): seq<Byte> {
    [0xff, 6, 0, 0] + MAGIC
  }

  /** `write_req_resp_frame`: the identifier goes out with the first block, so an empty
      payload is the length prefix alone. */
  ghost function FrameBytes(codec: Codec, ps: seq<Piece>): seq<Byte>
    requires ValidPieces(codec, ps)
  {
    Uvarint(|Payload(ps)|) + if ps == [] then [] else Identifier() + ChunksBytes(codec, ps)
  }

  lemma Digits24(n: nat)
    requires n < 16777216
    ensures Le24(n % 256, n / 256 % 256, n / 256 / 256) == n
  {
    var q := n / 256;
    assert n == 256 * q + n % 256 && q == 256 * (q / 256) + q % 256;
  }

  lemma Digits32(n: nat)
    requires n < 0x1_0000_0000
    ensures Le32(n % 256, n / 256 % 256, n / 256 / 256 % 256, n / 256 / 256 / 256) == n
  {
    var q := n / 256;
    var r := q / 256;
    assert n == 256 * q + n % 256 && q == 256 * r + q % 256 && r == 256 * (r / 256) + r % 256;
  }

  lemma PieceIsRead(codec: Codec, p: Piece, suffix: seq<Byte>, remaining: U64)
    requires ValidPiece(codec, p) && |p.data| <= remaining
    ensures ChunkStep(codec, ChunkBytes(codec, p) + suffix, remaining, true) ==
            Ok(Step(p.data, |ChunkBytes(codec, p)|, true))
  {
    hide Le24, Le32;
    var body := if p.packed.Some? then p.packed.value else p.data;
    var len, crc := 4 + |body|, codec.crc(p.data);
    var bytes := ChunkBytes(codec, p) + suffix;
    assert Le24(bytes[1], bytes[2], bytes[3]) == len by { Digits24(len); }
    var payload := bytes[4..4 + len];
    assert NextChunk(bytes, Budget(remaining)) == Ok(Chunk(bytes[0], payload, 4 + len));
    assert DecodeData(codec, bytes[0], payload) == Ok(p.data) by {
      assert payload[4..] == body;
      assert Le32(payload[0], payload[1], payload[2], payload[3]) == crc by { Digits32(crc); }
    }
  }

  lemma IdentifierIsRead(codec: Codec, suffix: seq<Byte>, remaining: U64)
    ensures ChunkStep(codec, Identifier() + suffix, remaining, false) ==
            if remaining < 2 then Err(ChunkOverBudget) else Ok(Step([], 10, true))
  {
    var bytes := Identifier() + suffix;
    assert Le24(bytes[1], bytes[2], bytes[3]) == 6;
    assert bytes[4..10] == MAGIC;
  }

  lemma {:induction false} PiecesAreRead(codec: Codec, ps: seq<Piece>, suffix: seq<Byte>, chunks: nat)
    requires ValidPieces(codec, ps) && chunks <= MAX_CHUNKS && |Payload(ps)| <= U64_MAX
    ensures FrameBody(codec, ChunksBytes(codec, ps) + suffix, |Payload(ps)|, true, chunks) ==
            if chunks + |ps| <= MAX_CHUNKS then Ok((Payload(ps), |ChunksBytes(codec, ps)|))
            else Err(IterationCapExceeded)
    decreases |ps|
  {
    hide ChunkStep, FrameBody, ChunkBytes;
    var bytes := ChunksBytes(codec, ps) + suffix;
    if ps == [] {
      BodyDone(codec, bytes, true, chunks);
    } else {
      var first := ChunkBytes(codec, ps[0]);
      var rest := ChunksBytes(codec, ps[1..]) + suffix;
      assert bytes == first + rest;
      PieceIsRead(codec, ps[0], rest, |Payload(ps)|);
      assert bytes[|first|..] == rest;
      BodyUnfolds(codec, bytes, |Payload(ps)|, true, chunks);
      if chunks < MAX_CHUNKS { PiecesAreRead(codec, ps[1..], suffix, chunks + 1); }
    }
  }

  /** What reading a written frame gives, for every payload and every suffix: the payload,
      leaving the suffix unread, unless the payload is over the caller's cap, is a single
      byte (the identifier then exceeds the chunk budget), or needs more than 4095 blocks. */
  lemma WrittenFrameIsRead(codec: Codec, ps: seq<Piece>, suffix: seq<Byte>, max: Option<U64>)
    requires ValidPieces(codec, ps) && |Payload(ps)| <= U64_MAX
    ensures ReadFrame(codec, FrameBytes(codec, ps) + suffix, max) ==
            var n := |Payload(ps)|;
            if max.Some? && n > max.value then Err(FrameTooLarge(n, max.value))
            else if n == 1 then Err(ChunkOverBudget)
            else if |ps| >= MAX_CHUNKS then Err(IterationCapExceeded)
            else Ok(Some((Payload(ps), |FrameBytes(codec, ps)|)))
  {
    hide ChunkStep, FrameBody, ScanUvarint, Uvarint, ChunksBytes;
    var n := |Payload(ps)|;
    var prefix := Uvarint(n);
    var written := if ps == [] then [] else Identifier() + ChunksBytes(codec, ps);
    var bytes := FrameBytes(codec, ps) + suffix;
    assert bytes == prefix + (written + suffix);
    UvarintRoundTrip(n, written + suffix);
    assert bytes[|prefix|..] == written + suffix;
    if ps == [] {
      BodyDone(codec, written + suffix, false, 0);
    } else {
      var chunks := ChunksBytes(codec, ps) + suffix;
      assert n >= |ps[0].data| > 0 by { assert ps[0] in ps; }
      assert written + suffix == Identifier() + chunks;
      IdentifierIsRead(codec, chunks, n);
      BodyUnfolds(codec, written + suffix, n, false, 0);
      assert (written + suffix)[10..] == chunks;
      PiecesAreRead(codec, ps, suffix, 1);
      assert [] + Payload(ps) == Payload(ps);
      assert |FrameBytes(codec, ps)| == |prefix| + (10 + |ChunksBytes(codec, ps)|);
    }
  }

  // ---------------------------------------------------------------- whole streams

  /** A payload the reader gives back: within the cap, not a single byte, at most 4095 blocks. */
  ghost predicate Readable(ps: seq<Piece>, max: Option<U64>) {
    && |ps| < MAX_CHUNKS && |Payload(ps)| <= U64_MAX && |Payload(ps)| != 1
    && (max.Some? ==> |Payload(ps)| <= max.value)
  }

  ghost predicate ValidFrames(codec: Codec, frames: seq<seq<Piece>>) {
    forall i :: 0 <= i < |frames| ==> ValidPieces(codec, frames[i])
  }

  ghost function StreamBytes(codec: Codec, frames: seq<seq<Piece>>): seq<Byte>
    requires ValidFrames(codec, frames)
  {
    if frames == [] then [] else FrameBytes(codec, frames[0]) + StreamBytes(codec, frames[1..])
  }

  /** The frames carry the encodings of the values, one each. */
  ghost predicate Carries<T>(c: Ssz.Coder<T>, frames: seq<seq<Piece>>, values: seq<T>) {
    |frames| == |values| && forall i :: 0 <= i < |frames| ==> Payload(frames[i]) == c.encode(values[i])
  }

  /** Values written back to back, one frame each, are read back in order, and the stream
      ends cleanly. */
  lemma {:induction false} StreamRoundTrip<T(!new)>(
      codec: Codec, c: Ssz.Coder<T>, fits: T -> bool, frames: seq<seq<Piece>>, values: seq<T>, max: Option<U64>)
    requires Ssz.Faithful(c, fits) && Ssz.AllFit(values, fits)
    requires ValidFrames(codec, frames) && Carries(c, frames, values)
    requires forall i :: 0 <= i < |frames| ==> Readable(frames[i], max)
    ensures ReadStream(codec, c, StreamBytes(codec, frames), max) == Ok(values)
    decreases |frames|
  {
    hide ReadFrame, FrameBytes, ValidPieces, Payload, ReadStream;
    StreamUnfolds(codec, c, StreamBytes(codec, frames), max);
    if frames == [] {
      FrameIsExact(codec, [], max);
    } else {
      var first, rest := FrameBytes(codec, frames[0]), StreamBytes(codec, frames[1..]);
      WrittenFrameIsRead(codec, frames[0], rest, max);
      assert (first + rest)[|first|..] == rest;
      assert fits(values[0]) && c.decode(c.encode(values[0])) == Ok(values[0]);
      StreamRoundTrip(codec, c, fits, frames[1..], values[1..], max);
      assert [values[0]] + values[1..] == values;
    }
  }
}
