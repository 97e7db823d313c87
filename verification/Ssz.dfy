/**
  SSZ lists over any element codec: flat concatenation for fixed-width elements, and a
  leading table of 4-byte offsets for variable-width ones. A codec is faithful when
  decoding undoes encoding on every value that fits and every accepted byte string
  encodes back to itself; both list forms carry faithfulness from elements to lists.
 */
module Ssz {
  import opened Containers

  datatype DecodeError =
    | ZeroLengthItem
    | BytesInvalid
    | InvalidByteLength(len: nat, expected: nat)
    | OffsetIntoFixedPortion(offset: nat)
    | OffsetOutOfBounds(bound: nat)

  const U32_MAX: nat := 0xFFFF_FFFF
  const OFFSET_LEN: nat := 4

  // ---------------------------------------------------------------- integers

  function Pow256(w: nat): nat {
    if w == 0 then 1 else 256 * Pow256(w - 1)
  }

  /** The low `w` bytes of `n`, least significant first. */
  function LeBytes(n: nat, w: nat): (b: seq<Byte>)
    ensures |b| == w
  {
    if w == 0 then [] else [n % 256] + LeBytes(n / 256, w - 1)
  }

  function LeValue(b: seq<Byte>): nat {
    if b == [] then 0 else b[0] + 256 * LeValue(b[1..])
  }

  lemma {:induction false} LeValueOfBytes(n: nat, w: nat)
    requires n < Pow256(w)
    ensures LeValue(LeBytes(n, w)) == n
  {
    if w > 0 {
      LeValueOfBytes(n / 256, w - 1);
      assert LeBytes(n, w)[1..] == LeBytes(n / 256, w - 1);
    }
  }

  lemma {:induction false} LeBytesOfValue(b: seq<Byte>)
    ensures LeValue(b) < Pow256(|b|)
    ensures LeBytes(LeValue(b), |b|) == b
  {
    if b != [] {
      LeBytesOfValue(b[1..]);
      assert LeValue(b) % 256 == b[0] && LeValue(b) / 256 == LeValue(b[1..]);
    }
  }

  lemma OffsetWidth()
    ensures Pow256(OFFSET_LEN) == U32_MAX + 1
  {
    assert Pow256(2) == 65536;
    assert Pow256(4) == 256 * (256 * Pow256(2));
  }

  // ---------------------------------------------------------------- codecs

  datatype Coder<!T> = Coder(encode: T -> seq<Byte>, decode: seq<Byte> -> Result<T, DecodeError>)

  /** Decoding undoes encoding on values that fit, and only their encodings are accepted. */
  ghost predicate Faithful<T(!new)>(c: Coder<T>, fits: T -> bool) {
    && (forall x :: fits(x) ==> c.decode(c.encode(x)) == Ok(x))
    && (forall b :: c.decode(b).Ok? ==> fits(c.decode(b).value) && c.encode(c.decode(b).value) == b)
  }

  ghost predicate Width<T(!new)>(c: Coder<T>, fits: T -> bool, width: nat) {
    forall x :: fits(x) ==> |c.encode(x)| == width
  }

  ghost predicate AllFit<T>(items: seq<T>, fits: T -> bool) {
    forall i :: 0 <= i < |items| ==> fits(items[i])
  }

  /** The encodings one after the other. */
  function Concat<T>(c: Coder<T>, items: seq<T>): seq<Byte> {
    if items == [] then [] else c.encode(items[0]) + Concat(c, items[1..])
  }

  function Cons<T>(x: T, r: Result<seq<T>, DecodeError>): Result<seq<T>, DecodeError> {
    match r
    case Err(e) => Err(e)
    case Ok(xs) => Ok([x] + xs)
  }

  ghost function Join<T>(xs: seq<T>, r: Result<seq<T>, DecodeError>): Result<seq<T>, DecodeError> {
    match r
    case Err(e) => Err(e)
    case Ok(ys) => Ok(xs + ys)
  }

  lemma JoinCons<T>(xs: seq<T>, x: T, r: Result<seq<T>, DecodeError>)
    ensures Join(xs, Cons(x, r)) == Join(xs + [x], r)
  {
    if r.Ok? { assert xs + ([x] + r.value) == (xs + [x]) + r.value; }
  }

  lemma JoinNothing<T>(r: Result<seq<T>, DecodeError>)
    ensures Join([], r) == r
  {
    if r.Ok? { assert [] + r.value == r.value; }
  }

  // ---------------------------------------------------------------- fixed-width elements

  method EncodeFixedList<T>(c: Coder<T>, items: seq<T>, buf: seq<Byte>) returns (out: seq<Byte>)
    ensures out == buf + Concat(c, items)
  {
    out := buf;
    for i := 0 to |items|
      invariant out + Concat(c, items[i..]) == buf + Concat(c, items)
    {
      assert items[i..][1..] == items[i + 1..];
      assert out + (c.encode(items[i]) + Concat(c, items[i + 1..])) == (out + c.encode(items[i])) + Concat(c, items[i + 1..]);
      out := out + c.encode(items[i]);
    }
    assert items[|items|..] == [];
  }

  /** One element after the other, stopping at the first that does not decode. */
  function DecodeItems<T>(c: Coder<T>, width: nat, bytes: seq<Byte>): Result<seq<T>, DecodeError>
    requires width > 0
  {
    if |bytes| < width then Ok([]) else
    match c.decode(bytes[..width])
    case Err(e) => Err(e)
    case Ok(x) => Cons(x, DecodeItems(c, width, bytes[width..]))
  }

  function DecodeFixedList<T>(c: Coder<T>, width: nat, bytes: seq<Byte>, max: nat): Result<seq<T>, DecodeError> {
    if width == 0 then Err(ZeroLengthItem)
    else if |bytes| % width != 0 then Err(BytesInvalid)
    else if |bytes| / width > max then Err(BytesInvalid)
    else DecodeItems(c, width, bytes)
  }

  method ReadFixedList<T>(c: Coder<T>, width: nat, bytes: seq<Byte>, max: nat) returns (r: Result<seq<T>, DecodeError>)
    ensures r == DecodeFixedList(c, width, bytes, max)
  {
    hide DecodeItems, Join, Cons;
    if width == 0 { return Err(ZeroLengthItem); }
    if |bytes| % width != 0 { return Err(BytesInvalid); }
    var count := |bytes| / width;
    if count > max { return Err(BytesInvalid); }
    var items: seq<T> := [];
    var start := 0;
    assert bytes[0..] == bytes;
    JoinNothing(DecodeItems(c, width, bytes));
    for i := 0 to count
      invariant start <= |bytes| && (|bytes| - start) % width == 0 && (|bytes| - start) / width == count - i
      invariant Join(items, DecodeItems(c, width, bytes[start..])) == DecodeItems(c, width, bytes)
    {
      OneLess(|bytes| - start, width);
      ghost var rest := bytes[start..];
      ItemsUnfold(c, width, rest);
      assert rest[..width] == bytes[start..start + width];
      assert rest[width..] == bytes[start + width..];
      var item := c.decode(bytes[start..start + width]);
      if item.Err? {
        JoinError(items, DecodeItems(c, width, rest));
        return Err(item.error);
      }
      JoinCons(items, item.value, DecodeItems(c, width, bytes[start + width..]));
      items := items + [item.value];
      start := start + width;
    }
    NoneLeft(c, width, bytes[start..], items);
    r := Ok(items);
  }

  lemma ItemsUnfold<T>(c: Coder<T>, width: nat, bytes: seq<Byte>)
    requires 0 < width <= |bytes|
    ensures match c.decode(bytes[..width])
            case Err(e) => DecodeItems(c, width, bytes) == Err(e)
            case Ok(x) => DecodeItems(c, width, bytes) == Cons(x, DecodeItems(c, width, bytes[width..]))
  {
  }

  lemma JoinError<T>(xs: seq<T>, r: Result<seq<T>, DecodeError>)
    ensures r.Err? ==> Join(xs, r) == r
  {
  }

  lemma NoneLeft<T>(c: Coder<T>, width: nat, bytes: seq<Byte>, items: seq<T>)
    requires width > 0 && |bytes| % width == 0 && |bytes| / width == 0
    ensures Join(items, DecodeItems(c, width, bytes)) == Ok(items)
  {
    assert |bytes| < width;
    assert items + [] == items;
  }

  lemma {:induction false} ConcatWidth<T(!new)>(c: Coder<T>, fits: T -> bool, width: nat, items: seq<T>)
    requires Width(c, fits, width) && AllFit(items, fits)
    ensures |Concat(c, items)| == |items| * width
  {
    if items != [] {
      ConcatWidth(c, fits, width, items[1..]);
      assert fits(items[0]);
      assert |items| * width == (|items| - 1) * width + width;
    }
  }

  lemma {:induction false} ItemsRoundTrip<T(!new)>(c: Coder<T>, fits: T -> bool, width: nat, items: seq<T>)
    requires Faithful(c, fits) && Width(c, fits, width) && width > 0 && AllFit(items, fits)
    ensures DecodeItems(c, width, Concat(c, items)) == Ok(items)
  {
    if items != [] {
      var bytes, first := Concat(c, items), c.encode(items[0]);
      assert fits(items[0]);
      assert bytes[..width] == first && bytes[width..] == Concat(c, items[1..]);
      ItemsRoundTrip(c, fits, width, items[1..]);
      assert [items[0]] + items[1..] == items;
    }
  }

  lemma {:induction false} ItemsAreCanonical<T(!new)>(c: Coder<T>, fits: T -> bool, width: nat, bytes: seq<Byte>)
    requires Faithful(c, fits) && width > 0 && |bytes| % width == 0
    requires DecodeItems(c, width, bytes).Ok?
    ensures var items := DecodeItems(c, width, bytes).value;
            AllFit(items, fits) && Concat(c, items) == bytes && |items| == |bytes| / width
    decreases |bytes|
  {
    if |bytes| >= width {
      AtLeastOne(|bytes|, width);
      OneLess(|bytes|, width);
      ItemsAreCanonical(c, fits, width, bytes[width..]);
      var items := DecodeItems(c, width, bytes).value;
      assert items[1..] == DecodeItems(c, width, bytes[width..]).value;
      assert bytes == bytes[..width] + bytes[width..];
    } else {
      ShortMultiple(|bytes|, width);
    }
  }

  lemma OneLess(len: nat, width: nat)
    requires width > 0 && len % width == 0 && len / width >= 1
    ensures len >= width && (len - width) % width == 0 && (len - width) / width == len / width - 1
  {
    var q := len / width;
    assert len == q * width;
    assert (q - 1) * width == len - width;
    assert (q - 1) * width >= 0;
    Quotient(q - 1, width);
  }

  lemma AtLeastOne(len: nat, width: nat)
    requires 0 < width <= len
    ensures len / width >= 1
  {
  }

  lemma ShortMultiple(len: nat, width: nat)
    requires len < width && len % width == 0
    ensures len == 0
  {
  }

  lemma Quotient(q: nat, width: nat)
    requires width > 0
    ensures (q * width) / width == q && (q * width) % width == 0
  {
    UniqueQuotient(q, (q * width) / width, (q * width) % width, width);
  }

  lemma UniqueQuotient(q: nat, d: nat, r: nat, width: nat)
    requires r < width && q * width == d * width + r
    ensures q == d && r == 0
  {
    if d < q {
      Spread(d, q - d, width);
    } else if d > q {
      Spread(q, d - q, width);
    }
  }

  lemma {:induction false} Spread(a: nat, k: nat, width: nat)
    requires k > 0
    ensures (a + k) * width >= a * width + width
  {
    assert (a + k) * width == (a + (k - 1)) * width + width;
    if k > 1 { Spread(a, k - 1, width); }
  }

  /** Encoding then decoding gives the list back exactly when it is within the limit. */
  lemma FixedListRoundTrip<T(!new)>(c: Coder<T>, fits: T -> bool, width: nat, items: seq<T>, max: nat)
    requires Faithful(c, fits) && Width(c, fits, width) && width > 0 && AllFit(items, fits)
    ensures DecodeFixedList(c, width, Concat(c, items), max) ==
            if |items| <= max then Ok(items) else Err(BytesInvalid)
  {
    ConcatWidth(c, fits, width, items);
    Quotient(|items|, width);
    ItemsRoundTrip(c, fits, width, items);
  }

  /** Every accepted byte string is the encoding of what it decodes to, within the limit. */
  lemma FixedListIsCanonical<T(!new)>(c: Coder<T>, fits: T -> bool, width: nat, bytes: seq<Byte>, max: nat)
    requires Faithful(c, fits) && DecodeFixedList(c, width, bytes, max).Ok?
    ensures var items := DecodeFixedList(c, width, bytes, max).value;
            AllFit(items, fits) && |items| <= max && Concat(c, items) == bytes
  {
    ItemsAreCanonical(c, fits, width, bytes);
  }

  // ---------------------------------------------------------------- variable-width elements

  /** Where each payload starts, the first at `at`. */
  function Starts<T>(c: Coder<T>, items: seq<T>, at: nat): (s: seq<nat>)
    ensures |s| == |items|
  {
    if items == [] then [] else [at] + Starts(c, items[1..], at + |c.encode(items[0])|)
  }

  function OffsetTable(offsets: seq<nat>): (b: seq<Byte>)
    ensures |b| == OFFSET_LEN * |offsets|
  {
    if offsets == [] then [] else LeBytes(offsets[0], OFFSET_LEN) + OffsetTable(offsets[1..])
  }

  /** The offset table, then the payloads. */
  function VariableBytes<T>(c: Coder<T>, items: seq<T>): seq<Byte> {
    OffsetTable(Starts(c, items, OFFSET_LEN * |items|)) + Concat(c, items)
  }

  /** The encoder's stated limit: every offset it writes is a `u32`. */
  ghost predicate OffsetsFit(offsets: seq<nat>) {
    forall i :: 0 <= i < |offsets| ==> offsets[i] <= U32_MAX
  }

  function Zeros(n: nat): (z: seq<Byte>)
    ensures |z| == n
  {
    seq(n, _ => 0)
  }

  lemma TableUnfolds<T>(c: Coder<T>, items: seq<T>, i: nat, at: nat)
    requires i < |items|
    ensures var size := |c.encode(items[i])|;
            OffsetTable(Starts(c, items[i..], at)) ==
            LeBytes(at, OFFSET_LEN) + OffsetTable(Starts(c, items[i + 1..], at + size))
    ensures Concat(c, items[i..]) == c.encode(items[i]) + Concat(c, items[i + 1..])
  {
    assert items[i..][1..] == items[i + 1..];
    var starts := Starts(c, items[i..], at);
    assert starts[1..] == Starts(c, items[i + 1..], at + |c.encode(items[i])|);
  }

  /** Reserves the table, then patches each offset as the payloads are appended. */
  method EncodeVariableList<T>(c: Coder<T>, items: seq<T>, buf: seq<Byte>) returns (out: seq<Byte>)
    requires OffsetsFit(Starts(c, items, OFFSET_LEN * |items|))
    ensures out == buf + VariableBytes(c, items)
  {
    hide LeBytes, OffsetsFit, Starts, OffsetTable, Concat, Zeros;
    var n := |items|;
    NothingLeft(c, n * OFFSET_LEN);
    if n == 0 {
      assert items == [];
      return buf;
    }
    out := buf + Zeros(n * OFFSET_LEN);
    var current: nat := n * OFFSET_LEN;
    ghost var table: seq<Byte>, payload: seq<Byte> := [], [];
    assert items[0..] == items;
    for i := 0 to n
      invariant |table| == OFFSET_LEN * i
      invariant out == buf + table + Zeros(OFFSET_LEN * (n - i)) + payload
      invariant table + OffsetTable(Starts(c, items[i..], current)) == OffsetTable(Starts(c, items, OFFSET_LEN * n))
      invariant payload + Concat(c, items[i..]) == Concat(c, items)
    {
      var pos := |buf| + i * OFFSET_LEN;
      var offset, item := LeBytes(current, OFFSET_LEN), c.encode(items[i]);
      TableUnfolds(c, items, i, current);
      PatchOffset(buf, table, offset, OFFSET_LEN * (n - i), payload);
      out := out[..pos] + offset + out[pos + OFFSET_LEN..];
      out := out + item;
      Regroup(table, offset, OffsetTable(Starts(c, items[i + 1..], current + |item|)));
      Regroup(payload, item, Concat(c, items[i + 1..]));
      Regroup(buf + (table + offset) + Zeros(OFFSET_LEN * (n - i - 1)), payload, item);
      table, payload := table + offset, payload + item;
      current := current + |item|;
    }
    assert items[n..] == [];
    NothingLeft(c, current);
    assert table + [] == table && payload + [] == payload;
    assert Zeros(0) == [];
    Regroup(buf, table, payload);
  }

  lemma NothingLeft<T>(c: Coder<T>, at: nat)
    ensures OffsetTable(Starts(c, [], at)) == [] && Concat(c, []) == []
  {
  }

  lemma PatchOffset(buf: seq<Byte>, table: seq<Byte>, offset: seq<Byte>, left: nat, payload: seq<Byte>)
    requires |offset| == OFFSET_LEN <= left
    ensures var out := buf + table + Zeros(left) + payload;
            var pos := |buf| + |table|;
            out[..pos] + offset + out[pos + OFFSET_LEN..] == buf + (table + offset) + Zeros(left - OFFSET_LEN) + payload
  {
    var out := buf + table + Zeros(left) + payload;
    var pos := |buf| + |table|;
    assert out[..pos] == buf + table;
    assert out[pos + OFFSET_LEN..] == Zeros(left - OFFSET_LEN) + payload;
  }

  lemma Regroup(a: seq<Byte>, b: seq<Byte>, c: seq<Byte>)
    ensures a + (b + c) == (a + b) + c
  {
  }

  function ReadOffset(bytes: seq<Byte>, pos: nat): Result<nat, DecodeError> {
    if pos + OFFSET_LEN > |bytes| then Err(BytesInvalid) else Ok(LeValue(bytes[pos..pos + OFFSET_LEN]))
  }

  /** Offsets `i` up to `count`: never decreasing, never past the end. */
  function ReadOffsets(bytes: seq<Byte>, i: nat, count: nat, prev: nat): (r: Result<seq<nat>, DecodeError>)
    ensures r.Ok? ==> Ordered(r.value, prev, |bytes|) && |r.value| == if i < count then count - i else 0
    decreases count - i
  {
    if i >= count then Ok([]) else
    match ReadOffset(bytes, i * OFFSET_LEN)
    case Err(e) => Err(e)
    case Ok(off) =>
      if off < prev || off > |bytes| then Err(BytesInvalid)
      else Cons(off, ReadOffsets(bytes, i + 1, count, off))
  }

  ghost predicate Ordered(offsets: seq<nat>, lo: nat, hi: nat) {
    offsets == [] || (lo <= offsets[0] <= hi && Ordered(offsets[1..], offsets[0], hi))
  }

  /** Decodes the bytes between consecutive offsets, the last element running to the end. */
  function Carve<T>(c: Coder<T>, bytes: seq<Byte>, offsets: seq<nat>): Result<seq<T>, DecodeError>
    requires Ordered(offsets, 0, |bytes|)
  {
    if offsets == [] then Ok([]) else
    assert |offsets| > 1 ==> Ordered(offsets[1..], offsets[0], |bytes|) && offsets[1..][0] == offsets[1];
    var end := if |offsets| == 1 then |bytes| else offsets[1];
    match c.decode(bytes[offsets[0]..end])
    case Err(e) => Err(e)
    case Ok(x) =>
      OrderedFromZero(offsets, |bytes|);
      Cons(x, Carve(c, bytes, offsets[1..]))
  }

  lemma OrderedFromZero(offsets: seq<nat>, hi: nat)
    requires offsets != [] && Ordered(offsets, 0, hi)
    ensures Ordered(offsets[1..], 0, hi)
  {
  }

  function DecodeVariableList<T>(c: Coder<T>, bytes: seq<Byte>, max: nat): Result<seq<T>, DecodeError> {
    if bytes == [] then Ok([])
    else if |bytes| < OFFSET_LEN then Err(BytesInvalid)
    else
      var first := LeValue(bytes[..OFFSET_LEN]);
      if first == 0 || first % OFFSET_LEN != 0 then Err(BytesInvalid)
      else if first > |bytes| then Err(BytesInvalid)
      else if first / OFFSET_LEN > max then Err(BytesInvalid)
      else match ReadOffsets(bytes, 1, first / OFFSET_LEN, first)
        case Err(e) => Err(e)
        case Ok(rest) =>
          assert ([first] + rest)[1..] == rest;
          Carve(c, bytes, [first] + rest)
  }

  method ReadVariableList<T>(c: Coder<T>, bytes: seq<Byte>, max: nat) returns (r: Result<seq<T>, DecodeError>)
    ensures r == DecodeVariableList(c, bytes, max)
  {
    hide Carve, ReadOffsets, Join, Cons, LeValue, Ordered;
    if bytes == [] { return Ok([]); }
    if |bytes| < OFFSET_LEN { return Err(BytesInvalid); }
    var first := LeValue(bytes[..OFFSET_LEN]);
    if first == 0 || first % OFFSET_LEN != 0 { return Err(BytesInvalid); }
    if first > |bytes| { return Err(BytesInvalid); }
    if first / OFFSET_LEN > max { return Err(BytesInvalid); }
    var rest := CollectOffsets(bytes, first / OFFSET_LEN, first);
    if rest.Err? { return Err(rest.error); }
    OrderedCons(first, rest.value, |bytes|);
    r := CarveAll(c, bytes, [first] + rest.value);
  }

  lemma OrderedCons(first: nat, rest: seq<nat>, hi: nat)
    requires first <= hi && Ordered(rest, first, hi)
    ensures Ordered([first] + rest, 0, hi)
  {
    assert ([first] + rest)[1..] == rest;
  }

  /** The first loop of the decoder: every offset after the first. */
  method CollectOffsets(bytes: seq<Byte>, count: nat, first: nat) returns (r: Result<seq<nat>, DecodeError>)
    requires count >= 1
    ensures r == ReadOffsets(bytes, 1, count, first)
  {
    hide LeValue, Ordered;
    var offsets: seq<nat> := [];
    var prev: nat := first;
    JoinNothing(ReadOffsets(bytes, 1, count, first));
    for i := 1 to count
      invariant Join(offsets, ReadOffsets(bytes, i, count, prev)) == ReadOffsets(bytes, 1, count, first)
    {
      var off := ReadOffset(bytes, i * OFFSET_LEN);
      if off.Err? { return Err(off.error); }
      if off.value < prev || off.value > |bytes| { return Err(BytesInvalid); }
      JoinCons(offsets, off.value, ReadOffsets(bytes, i + 1, count, off.value));
      offsets := offsets + [off.value];
      prev := off.value;
    }
    assert offsets + [] == offsets;
    r := Ok(offsets);
  }

  /** The second loop: one element per window, the buffer's length closing the last one. */
  method CarveAll<T>(c: Coder<T>, bytes: seq<Byte>, offsets: seq<nat>) returns (r: Result<seq<T>, DecodeError>)
    requires Ordered(offsets, 0, |bytes|)
    ensures r == Carve(c, bytes, offsets)
  {
    hide Carve;
    var ends := offsets + [|bytes|];
    var items: seq<T> := [];
    assert offsets[0..] == offsets;
    JoinNothing(Carve(c, bytes, offsets));
    for i := 0 to |offsets|
      invariant Ordered(offsets[i..], 0, |bytes|)
      invariant Join(items, Carve(c, bytes, offsets[i..])) == Carve(c, bytes, offsets)
    {
      ghost var left := offsets[i..];
      CarveUnfolds(c, bytes, left);
      assert left[1..] == offsets[i + 1..];
      assert ends[i] == left[0] && ends[i + 1] == if |left| == 1 then |bytes| else left[1];
      var item := c.decode(bytes[ends[i]..ends[i + 1]]);
      if item.Err? { return Err(item.error); }
      JoinCons(items, item.value, Carve(c, bytes, left[1..]));
      items := items + [item.value];
    }
    assert offsets[|offsets|..] == [];
    CarveNothing(c, bytes);
    assert items + [] == items;
    r := Ok(items);
  }

  lemma CarveNothing<T>(c: Coder<T>, bytes: seq<Byte>)
    ensures Carve(c, bytes, []) == Ok([])
  {
  }

  lemma CarveUnfolds<T>(c: Coder<T>, bytes: seq<Byte>, offsets: seq<nat>)
    requires offsets != [] && Ordered(offsets, 0, |bytes|)
    ensures Ordered(offsets[1..], 0, |bytes|)
    ensures var end := if |offsets| == 1 then |bytes| else offsets[1];
            && offsets[0] <= end <= |bytes|
            && match c.decode(bytes[offsets[0]..end])
               case Err(e) => Carve(c, bytes, offsets) == Err(e)
               case Ok(x) => Carve(c, bytes, offsets) == Cons(x, Carve(c, bytes, offsets[1..]))
  {
    if |offsets| > 1 { assert Ordered(offsets[1..], offsets[0], |bytes|) && offsets[1..][0] == offsets[1]; }
  }

  /** The first entry of an offset table sitting at `lo`, and the table after it. */
  lemma TableHead(bytes: seq<Byte>, lo: nat, starts: seq<nat>)
    requires starts != [] && OffsetsFit(starts) && lo + OFFSET_LEN * |starts| <= |bytes|
    requires bytes[lo..lo + OFFSET_LEN * |starts|] == OffsetTable(starts)
    ensures LeValue(bytes[lo..lo + OFFSET_LEN]) == starts[0]
    ensures OffsetsFit(starts[1..])
    ensures bytes[lo + OFFSET_LEN..lo + OFFSET_LEN * |starts|] == OffsetTable(starts[1..])
  {
    hide LeBytes, LeValue, OffsetTable, OffsetsFit, Pow256;
    SliceOfSlice(bytes, lo, OFFSET_LEN, lo + OFFSET_LEN * |starts|);
    TableSplits(starts);
    assert bytes[lo..lo + OFFSET_LEN] == LeBytes(starts[0], OFFSET_LEN);
    TailFits(starts);
    OffsetWidth();
    LeValueOfBytes(starts[0], OFFSET_LEN);
  }

  lemma SliceOfSlice(bytes: seq<Byte>, lo: nat, k: nat, hi: nat)
    requires lo + k <= hi <= |bytes|
    ensures bytes[lo..hi][..k] == bytes[lo..lo + k] && bytes[lo..hi][k..] == bytes[lo + k..hi]
  {
  }

  lemma TableSplits(starts: seq<nat>)
    requires starts != []
    ensures OffsetTable(starts)[..OFFSET_LEN] == LeBytes(starts[0], OFFSET_LEN)
    ensures OffsetTable(starts)[OFFSET_LEN..] == OffsetTable(starts[1..])
  {
    hide LeBytes;
  }

  lemma TailFits(starts: seq<nat>)
    requires starts != [] && OffsetsFit(starts)
    ensures starts[0] <= U32_MAX && OffsetsFit(starts[1..])
  {
    forall k | 0 <= k < |starts[1..]| ensures starts[1..][k] <= U32_MAX { assert starts[k + 1] <= U32_MAX; }
  }

  lemma StartsUnfold<T>(c: Coder<T>, items: seq<T>, at: nat)
    requires items != []
    ensures var size := |c.encode(items[0])|;
            && Starts(c, items, at)[0] == at && Starts(c, items, at)[1..] == Starts(c, items[1..], at + size)
            && |Concat(c, items)| == size + |Concat(c, items[1..])|
  {
  }

  lemma {:induction false} TableIsRead<T>(c: Coder<T>, bytes: seq<Byte>, rest: seq<T>, i: nat, at: nat, prev: nat)
    requires OffsetsFit(Starts(c, rest, at)) && prev <= at && at + |Concat(c, rest)| == |bytes|
    requires OFFSET_LEN * (i + |rest|) <= |bytes|
    requires bytes[OFFSET_LEN * i..OFFSET_LEN * (i + |rest|)] == OffsetTable(Starts(c, rest, at))
    ensures ReadOffsets(bytes, i, i + |rest|, prev) == Ok(Starts(c, rest, at))
    decreases |rest|
  {
    hide LeBytes, LeValue, Starts, OffsetTable, OffsetsFit, Concat, Ordered;
    if rest != [] {
      var starts := Starts(c, rest, at);
      StartsUnfold(c, rest, at);
      TableHead(bytes, OFFSET_LEN * i, starts);
      TableIsRead(c, bytes, rest[1..], i + 1, at + |c.encode(rest[0])|, at);
      assert [starts[0]] + starts[1..] == starts;
    }
  }

  lemma {:induction false} PayloadIsCarved<T(!new)>(c: Coder<T>, fits: T -> bool, bytes: seq<Byte>, rest: seq<T>, at: nat, lo: nat)
    requires Faithful(c, fits) && AllFit(rest, fits) && lo <= at <= |bytes| && bytes[at..] == Concat(c, rest)
    ensures Ordered(Starts(c, rest, at), lo, |bytes|) && Ordered(Starts(c, rest, at), 0, |bytes|)
    ensures Carve(c, bytes, Starts(c, rest, at)) == Ok(rest)
    decreases |rest|
  {
    hide Carve;
    var starts := Starts(c, rest, at);
    if rest == [] {
      CarveNothing(c, bytes);
    } else {
      var first := c.encode(rest[0]);
      var next := at + |first|;
      assert starts[1..] == Starts(c, rest[1..], next);
      assert bytes[next..] == bytes[at..][|first|..] == Concat(c, rest[1..]);
      PayloadIsCarved(c, fits, bytes, rest[1..], next, at);
      CarveUnfolds(c, bytes, starts);
      if |rest| == 1 { assert Concat(c, rest[1..]) == []; }
      assert bytes[at..next] == bytes[at..][..|first|] == first;
      assert fits(rest[0]);
      assert [rest[0]] + rest[1..] == rest;
    }
  }

  /** Encoding then decoding gives the list back exactly when it is within the limit. */
  lemma VariableListRoundTrip<T(!new)>(c: Coder<T>, fits: T -> bool, items: seq<T>, max: nat)
    requires Faithful(c, fits) && AllFit(items, fits) && OffsetsFit(Starts(c, items, OFFSET_LEN * |items|))
    ensures DecodeVariableList(c, VariableBytes(c, items), max) ==
            if |items| <= max then Ok(items) else Err(BytesInvalid)
  {
    hide LeBytes, LeValue, OffsetTable, OffsetsFit, Starts, Concat, Carve, ReadOffsets, Ordered,
         VariableBytes, DecodeVariableList;
    if items == [] {
      EmptyList(c, max);
    } else {
      var bytes, at := VariableBytes(c, items), OFFSET_LEN * |items|;
      var starts := Starts(c, items, at);
      VariableSplits(c, items);
      StartsUnfold(c, items, at);
      TableHead(bytes, 0, starts);
      TableIsRead(c, bytes, items[1..], 1, at + |c.encode(items[0])|, at);
      PayloadIsCarved(c, fits, bytes, items, at, 0);
      assert [at] + starts[1..] == starts;
      DecodeFromOffsets(c, bytes, at, starts[1..], max);
    }
  }

  lemma EmptyList<T>(c: Coder<T>, max: nat)
    ensures DecodeVariableList(c, VariableBytes(c, []), max) == Ok([])
  {
  }

  lemma VariableSplits<T>(c: Coder<T>, items: seq<T>)
    ensures var bytes, at := VariableBytes(c, items), OFFSET_LEN * |items|;
            && |bytes| == at + |Concat(c, items)|
            && bytes[0..at] == OffsetTable(Starts(c, items, at)) && bytes[at..] == Concat(c, items)
  {
    hide Starts, OffsetTable, Concat;
  }

  lemma DecodeFromOffsets<T>(c: Coder<T>, bytes: seq<Byte>, first: nat, rest: seq<nat>, max: nat)
    requires OFFSET_LEN <= first <= |bytes| && first % OFFSET_LEN == 0 && LeValue(bytes[0..OFFSET_LEN]) == first
    requires ReadOffsets(bytes, 1, first / OFFSET_LEN, first) == Ok(rest) && Ordered([first] + rest, 0, |bytes|)
    ensures DecodeVariableList(c, bytes, max) ==
            if first / OFFSET_LEN <= max then Carve(c, bytes, [first] + rest) else Err(BytesInvalid)
  {
    hide Carve, ReadOffsets, LeValue, Ordered;
    assert bytes[..OFFSET_LEN] == bytes[0..OFFSET_LEN];
  }

  lemma {:induction false} OffsetsAreTable(bytes: seq<Byte>, i: nat, count: nat, prev: nat)
    requires i <= count && OFFSET_LEN * count <= |bytes| && ReadOffsets(bytes, i, count, prev).Ok?
    ensures var os := ReadOffsets(bytes, i, count, prev).value;
            OffsetsFit(os) && OffsetTable(os) == bytes[OFFSET_LEN * i..OFFSET_LEN * count]
    decreases count - i
  {
    hide LeBytes, LeValue, Ordered;
    if i < count {
      var lo, hi := OFFSET_LEN * i, OFFSET_LEN * count;
      var os := ReadOffsets(bytes, i, count, prev).value;
      OffsetsAreTable(bytes, i + 1, count, os[0]);
      OffsetWidth();
      LeBytesOfValue(bytes[lo..lo + 4]);
      assert os[1..] == ReadOffsets(bytes, i + 1, count, os[0]).value;
      assert bytes[lo..hi] == bytes[lo..lo + 4] + bytes[lo + 4..hi];
      forall k | 0 <= k < |os| ensures os[k] <= U32_MAX { if k > 0 { assert os[k] == os[1..][k - 1]; } }
    }
  }

  lemma {:induction false} CarvedIsPayload<T(!new)>(c: Coder<T>, fits: T -> bool, bytes: seq<Byte>, offsets: seq<nat>)
    requires Faithful(c, fits) && offsets != [] && Ordered(offsets, 0, |bytes|) && Carve(c, bytes, offsets).Ok?
    ensures var items := Carve(c, bytes, offsets).value;
            && AllFit(items, fits) && Starts(c, items, offsets[0]) == offsets
            && offsets[0] <= |bytes| && Concat(c, items) == bytes[offsets[0]..]
    decreases |offsets|
  {
    hide Carve;
    CarveUnfolds(c, bytes, offsets);
    var end := if |offsets| == 1 then |bytes| else offsets[1];
    var items := Carve(c, bytes, offsets).value;
    var first := bytes[offsets[0]..end];
    assert c.decode(first).Ok? && items[0] == c.decode(first).value && c.encode(items[0]) == first;
    var tail := Carve(c, bytes, offsets[1..]).value;
    assert items[1..] == tail;
    if |offsets| == 1 {
      assert offsets[1..] == [];
      CarveNothing(c, bytes);
      assert Concat(c, tail) == [];
    } else {
      CarvedIsPayload(c, fits, bytes, offsets[1..]);
      assert bytes[offsets[0]..] == first + bytes[end..];
    }
    assert [offsets[0]] + offsets[1..] == offsets;
    forall k | 0 <= k < |items| ensures fits(items[k]) { if k > 0 { assert items[k] == tail[k - 1]; } }
  }

  /** Every accepted byte string is the encoding of what it decodes to, within the limit. */
  lemma VariableListIsCanonical<T(!new)>(c: Coder<T>, fits: T -> bool, bytes: seq<Byte>, max: nat)
    requires Faithful(c, fits) && DecodeVariableList(c, bytes, max).Ok?
    ensures var items := DecodeVariableList(c, bytes, max).value;
            && AllFit(items, fits) && |items| <= max
            && OffsetsFit(Starts(c, items, OFFSET_LEN * |items|)) && VariableBytes(c, items) == bytes
  {
    hide Carve, ReadOffsets, LeBytes, LeValue, Ordered;
    if bytes != [] {
      var first := LeValue(bytes[..OFFSET_LEN]);
      var count := first / OFFSET_LEN;
      assert first == OFFSET_LEN * count;
      var rest := ReadOffsets(bytes, 1, count, first).value;
      var os := [first] + rest;
      assert os[1..] == rest;
      OffsetsAreTable(bytes, 1, count, first);
      OffsetWidth();
      LeBytesOfValue(bytes[..OFFSET_LEN]);
      OrderedCons(first, rest, |bytes|);
      CarvedIsPayload(c, fits, bytes, os);
      assert bytes == bytes[..OFFSET_LEN] + bytes[OFFSET_LEN * 1..first] + bytes[first..];
      forall k | 0 <= k < |os| ensures os[k] <= U32_MAX { if k > 0 { assert os[k] == rest[k - 1]; } }
    }
  }
}
