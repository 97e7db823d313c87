/**
  One-time signing keys. A key signs each epoch at most once: a watermark refuses every
  epoch at or below the last one signed, a sliding window limits which epochs are ready,
  and a record carries the watermark across a reload. The signature scheme is a
  parameter; what is relied on is stated in `Sound`.
 */
module KeyState {
  import opened Containers
  import opened Collections

  type U32 = x: int | 0 <= x <= 0xFFFF_FFFF

  const U32_MAX: int := 0xFFFF_FFFF

  /** The epochs a key was generated for, and the part of them it can sign now. */
  datatype Window = Window(activeStart: U64, activeEnd: U64, preparedStart: U64, preparedEnd: U64)

  datatype Scheme = Scheme(
    lifetime: U64,
    keyGen: (nat, U64, U64) -> Window,
    advance: Window -> Window,
    sign: (nat, Window, U32, nat) -> Option<nat>)

  datatype CryptoError =
    | EpochNotActive(epoch: U32, start: U64, end: U64)
    | EpochNotPrepared(epoch: U32, start: U64, end: U64)
    | EpochReused(epoch: U32, last: U32)
    | ActivationOutOfRange
    | Signing

  datatype Record = Record(seed: nat, activationEpoch: U64, numActiveEpochs: U64, nextIndex: U64)

  datatype Key = Key(window: Window, lastSigned: Option<U32>, seed: nat)

  predicate IsActive(w: Window, epoch: int) {
    w.activeStart <= epoch < w.activeEnd
  }

  predicate IsPrepared(w: Window, epoch: int) {
    w.preparedStart <= epoch < w.preparedEnd
  }

  predicate SameActivation(w: Window, v: Window) {
    w.activeStart == v.activeStart && w.activeEnd == v.activeEnd
  }

  ghost predicate WellPlaced(w: Window) {
    w.activeStart <= w.preparedStart < w.preparedEnd <= w.activeEnd
  }

  /** Advancing moves the window right without a gap, and stops only at the end. */
  ghost predicate Slides(s: Scheme) {
    forall w {:trigger s.advance(w)} :: WellPlaced(w) ==>
      var v := s.advance(w);
      && WellPlaced(v) && SameActivation(w, v)
      && (v == w ==> w.preparedEnd == w.activeEnd)
      && (v != w ==> w.preparedStart < v.preparedStart <= w.preparedEnd)
  }

  /** Key generation widens the requested epochs to an aligned range, prepared at its
      start, and leaves an aligned range alone. */
  ghost predicate Regenerates(s: Scheme) {
    forall seed, a: U64, n: U64 {:trigger Requested(s, seed, a, n)} :: Requested(s, seed, a, n) ==>
      var w := s.keyGen(seed, a, n);
      && WellPlaced(w) && w.preparedStart == w.activeStart && w.activeEnd <= s.lifetime
      && w.activeStart <= a && a + n <= w.activeEnd
      && s.keyGen(seed, w.activeStart, w.activeEnd - w.activeStart) == w
  }

  ghost predicate Requested(s: Scheme, seed: nat, a: U64, n: U64) {
    a + n <= s.lifetime
  }

  ghost predicate Sound(s: Scheme) {
    Slides(s) && Regenerates(s)
  }

  /** The smallest interesting scheme: eight epochs, four of them prepared at a time. */
  ghost function TinyScheme(): Scheme {
    Scheme(8, (seed: nat, a: U64, n: U64) => Window(0, 8, 0, 4),
           (w: Window) => if w.preparedStart < w.preparedEnd < w.activeEnd
                          then w.(preparedStart := w.preparedStart + 1, preparedEnd := w.preparedEnd + 1) else w,
           (seed: nat, w: Window, e: U32, m: nat) => Some(m))
  }

  lemma TinySchemeIsSound()
    ensures Sound(TinyScheme())
  {
    hide Slides, Regenerates;
    TinySlides();
    TinyRegenerates();
  }

  lemma TinySlides()
    ensures Slides(TinyScheme())
  {
  }

  lemma TinyRegenerates()
    ensures Regenerates(TinyScheme())
  {
  }

  /** What every key reached by generating, preparing, signing and reloading satisfies. */
  ghost predicate KeyInv(s: Scheme, k: Key) {
    var w := k.window;
    && WellPlaced(w) && w.activeEnd <= s.lifetime
    && SameActivation(s.keyGen(k.seed, w.activeStart, w.activeEnd - w.activeStart), w)
    && (k.lastSigned.Some? ==> IsActive(w, k.lastSigned.value))
  }

  /** The window once it covers `epoch`. */
  ghost function PreparedAt(s: Scheme, w: Window, epoch: int): (v: Window)
    requires Sound(s) && WellPlaced(w) && IsActive(w, epoch) && w.preparedStart <= epoch
    ensures WellPlaced(v) && SameActivation(w, v) && IsPrepared(v, epoch) && w.preparedStart <= v.preparedStart
    decreases w.activeEnd - w.preparedStart
  {
    if IsPrepared(w, epoch) then w else PreparedAt(s, s.advance(w), epoch)
  }

  /** A key with the window it has when `epoch` is asked for; unchanged when refused. */
  ghost function PrepareKey(s: Scheme, k: Key, epoch: U32): (Result<(), CryptoError>, Key)
    requires Sound(s) && KeyInv(s, k)
  {
    var w := k.window;
    if !IsActive(w, epoch) then (Err(EpochNotActive(epoch, w.activeStart, w.activeEnd)), k)
    else if epoch < w.preparedStart then (Err(EpochNotPrepared(epoch, w.preparedStart, w.preparedEnd)), k)
    else (Ok(()), k.(window := PreparedAt(s, w, epoch)))
  }

  /** Signing refuses a used epoch first, then an unprepared one. */
  function SignKey(s: Scheme, k: Key, epoch: U32, message: nat): (Result<nat, CryptoError>, Key) {
    var w := k.window;
    if k.lastSigned.Some? && epoch <= k.lastSigned.value then (Err(EpochReused(epoch, k.lastSigned.value)), k)
    else if !IsPrepared(w, epoch) then (Err(EpochNotPrepared(epoch, w.preparedStart, w.preparedEnd)), k)
    else match s.sign(k.seed, w, epoch, message)
      case None => (Err(Signing), k)
      case Some(signature) => (Ok(signature), k.(lastSigned := Some(epoch)))
  }

  function NextIndex(last: Option<U32>): U64 {
    if last.Some? then last.value + 1 else 0
  }

  function ToRecord(k: Key): Record
    requires k.window.activeStart <= k.window.activeEnd
  {
    Record(k.seed, k.window.activeStart, k.window.activeEnd - k.window.activeStart, NextIndex(k.lastSigned))
  }

  function Generate(s: Scheme, seed: nat, start: U64, count: U64): Result<Key, CryptoError> {
    if start + count > U64_MAX || start + count > s.lifetime then Err(ActivationOutOfRange)
    else Ok(Key(s.keyGen(seed, start, count), None, seed))
  }

  function FromRecord(s: Scheme, r: Record): Result<Key, CryptoError> {
    var key := Generate(s, r.seed, r.activationEpoch, r.numActiveEpochs);
    if key.Err? || r.nextIndex == 0 then key else
    var end := r.activationEpoch + r.numActiveEpochs;
    if r.nextIndex <= r.activationEpoch || r.nextIndex > end then
      Err(EpochNotActive(if r.nextIndex <= U32_MAX then r.nextIndex else U32_MAX, r.activationEpoch, end))
    else if r.nextIndex - 1 > U32_MAX then Err(EpochNotActive(U32_MAX, r.activationEpoch, end))
    else Ok(key.value.(lastSigned := Some(r.nextIndex - 1)))
  }

  class SigningKey {
    const scheme: Scheme
    const seed: nat
    var window: Window
    var lastSigned: Option<U32>

    ghost function Value(): Key
      reads this
    {
      Key(window, lastSigned, seed)
    }

    ghost predicate Valid()
      reads this
    {
      Sound(scheme) && KeyInv(scheme, Value())
    }

    constructor (s: Scheme, k: Key)
      requires Sound(s) && KeyInv(s, k)
      ensures Valid() && scheme == s && Value() == k
    {
      scheme, seed, window, lastSigned := s, k.seed, k.window, k.lastSigned;
    }

    method Advance()
      requires Valid()
      modifies this`window
      ensures Valid() && Value() == old(Value()).(window := scheme.advance(old(window)))
    {
      hide Regenerates;
      window := scheme.advance(window);
    }

    /** Loops advancing the window; it terminates, and a refused request changes nothing. */
    method Prepare(epoch: U32) returns (r: Result<(), CryptoError>)
      requires Valid()
      modifies this`window
      ensures Valid() && (r, Value()) == PrepareKey(scheme, old(Value()), epoch)
    {
      hide Sound, WellPlaced;
      if !IsActive(window, epoch) { return Err(EpochNotActive(epoch, window.activeStart, window.activeEnd)); }
      if epoch < window.preparedStart { return Err(EpochNotPrepared(epoch, window.preparedStart, window.preparedEnd)); }
      while !IsPrepared(window, epoch)
        invariant Valid() && IsActive(window, epoch) && window.preparedStart <= epoch
        invariant PreparedAt(scheme, window, epoch) == PreparedAt(scheme, old(window), epoch)
        decreases window.activeEnd - window.preparedStart
      {
        var before := window;
        Moves(scheme, window, epoch);
        Advance();
        if window.preparedStart == before.preparedStart && window.preparedEnd == before.preparedEnd {
          return Err(EpochNotPrepared(epoch, before.preparedStart, before.preparedEnd));
        }
      }
      r := Ok(());
    }

    method SignRaw(epoch: U32, message: nat) returns (r: Result<nat, CryptoError>)
      requires Valid()
      modifies this`lastSigned
      ensures Valid() && (r, Value()) == SignKey(scheme, old(Value()), epoch, message)
    {
      hide Sound;
      if lastSigned.Some? && epoch <= lastSigned.value { return Err(EpochReused(epoch, lastSigned.value)); }
      if !IsPrepared(window, epoch) { return Err(EpochNotPrepared(epoch, window.preparedStart, window.preparedEnd)); }
      var signature := scheme.sign(seed, window, epoch, message);
      if signature.None? { return Err(Signing); }
      lastSigned := Some(epoch);
      r := Ok(signature.value);
    }
  }

  /** An epoch not yet covered lies ahead, so the window moves and does not pass it. */
  lemma Moves(s: Scheme, w: Window, epoch: int)
    requires Sound(s) && WellPlaced(w) && IsActive(w, epoch) && w.preparedStart <= epoch && !IsPrepared(w, epoch)
    ensures var v := s.advance(w);
            && WellPlaced(v) && SameActivation(w, v) && w.preparedStart < v.preparedStart <= epoch
            && PreparedAt(s, w, epoch) == PreparedAt(s, v, epoch)
  {
  }

  lemma GeneratedKey(s: Scheme, seed: nat, start: U64, count: U64)
    requires Sound(s)
    ensures var g := Generate(s, seed, start, count); g.Ok? ==>
              && KeyInv(s, g.value) && g.value.lastSigned.None?
              && g.value.window.activeStart <= start && start + count <= g.value.window.activeEnd
  {
    assert Requested(s, seed, start, count) <==> start + count <= s.lifetime;
  }

  lemma PrepareKeepsInvariant(s: Scheme, k: Key, epoch: U32)
    requires Sound(s) && KeyInv(s, k)
    ensures var (r, k') := PrepareKey(s, k, epoch);
            && KeyInv(s, k') && k'.lastSigned == k.lastSigned && k'.seed == k.seed
            && (r.Ok? <==> IsActive(k.window, epoch) && k.window.preparedStart <= epoch)
            && (r.Ok? ==> IsPrepared(k'.window, epoch))
            && (r.Err? ==> k' == k)
  {
    hide Sound;
  }

  // ---------------------------------------------------------------- what each call decides

  /** Signing succeeds exactly for an epoch past every signed one, inside the window, that
      the scheme can sign, and then gives the scheme's signature and raises the watermark
      to that epoch. A used epoch is refused as such even when the window misses it. */
  lemma SignsIff(s: Scheme, k: Key, epoch: U32, message: nat)
    ensures var (r, k') := SignKey(s, k, epoch, message);
            var unused := k.lastSigned.None? || k.lastSigned.value < epoch;
            var inside := k.window.preparedStart <= epoch < k.window.preparedEnd;
            var signature := s.sign(k.seed, k.window, epoch, message);
            && (r.Ok? <==> unused && inside && signature.Some?)
            && (r.Ok? ==> r.value == signature.value && k' == Key(k.window, Some(epoch), k.seed))
            && (r.Err? ==> k' == k)
            && (!unused ==> r == Err(EpochReused(epoch, k.lastSigned.value)))
            && (unused && !inside ==> r == Err(EpochNotPrepared(epoch, k.window.preparedStart, k.window.preparedEnd)))
            && (unused && inside && signature.None? ==> r == Err(Signing))
  {
  }

  /** The window after `m` advances. */
  function Advanced(s: Scheme, w: Window, m: nat): Window
    decreases m
  {
    if m == 0 then w else Advanced(s, s.advance(w), m - 1)
  }

  lemma {:induction false} PreparedAfter(s: Scheme, w: Window, epoch: int) returns (m: nat)
    requires Sound(s) && WellPlaced(w) && IsActive(w, epoch) && w.preparedStart <= epoch
    ensures PreparedAt(s, w, epoch) == Advanced(s, w, m) && IsPrepared(Advanced(s, w, m), epoch)
    ensures forall j: nat :: j < m ==> !IsPrepared(Advanced(s, w, j), epoch)
    decreases w.activeEnd - w.preparedStart
  {
    hide Sound;
    if IsPrepared(w, epoch) {
      m := 0;
    } else {
      Moves(s, w, epoch);
      var rest := PreparedAfter(s, s.advance(w), epoch);
      m := rest + 1;
      forall j: nat | j < m ensures !IsPrepared(Advanced(s, w, j), epoch) {
        if j > 0 { assert Advanced(s, w, j) == Advanced(s, s.advance(w), j - 1); }
      }
    }
  }

  /** Preparing advances the window as often as it takes to cover the epoch and no more,
      and refuses an inactive epoch and one behind the window, each as such. */
  lemma PreparesLeast(s: Scheme, k: Key, epoch: U32) returns (m: nat)
    requires Sound(s) && KeyInv(s, k)
    ensures var (r, k') := PrepareKey(s, k, epoch);
            var w := k.window;
            var active := w.activeStart <= epoch < w.activeEnd;
            && k' == k.(window := Advanced(s, w, m))
            && (forall j: nat :: j < m ==> !IsPrepared(Advanced(s, w, j), epoch))
            && (r.Ok? ==> IsPrepared(Advanced(s, w, m), epoch)) && (r.Err? ==> m == 0)
            && (!active ==> r == Err(EpochNotActive(epoch, w.activeStart, w.activeEnd)))
            && (active && epoch < w.preparedStart ==> r == Err(EpochNotPrepared(epoch, w.preparedStart, w.preparedEnd)))
            && (active && w.preparedStart <= epoch ==> r.Ok?)
  {
    hide Sound, PreparedAt;
    m := 0;
    if IsActive(k.window, epoch) && k.window.preparedStart <= epoch { m := PreparedAfter(s, k.window, epoch); }
  }

  /** A record is accepted exactly when its range fits the lifetime and its next index is
      zero or names an epoch of that range as signed. */
  lemma RestoresIff(s: Scheme, r: Record)
    ensures FromRecord(s, r).Ok? <==>
            && r.activationEpoch + r.numActiveEpochs <= s.lifetime
            && (r.nextIndex == 0 || (r.activationEpoch < r.nextIndex <= r.activationEpoch + r.numActiveEpochs
                                     && r.nextIndex <= 0x1_0000_0000))
    ensures FromRecord(s, r).Ok? ==>
              FromRecord(s, r).value == Key(s.keyGen(r.seed, r.activationEpoch, r.numActiveEpochs),
                                            if r.nextIndex == 0 then None else Some(r.nextIndex - 1), r.seed)
  {
  }

  /** A reload of a key's own record is accepted and refuses exactly what the key refused. */
  lemma RecordRoundTrip(s: Scheme, k: Key)
    requires Sound(s) && KeyInv(s, k)
    ensures var r := FromRecord(s, ToRecord(k));
            && r.Ok? && KeyInv(s, r.value) && SameActivation(r.value.window, k.window)
            && r.value.lastSigned == k.lastSigned && ToRecord(r.value) == ToRecord(k)
  {
    hide Sound;
    var w := k.window;
    GeneratedKey(s, k.seed, w.activeStart, w.activeEnd - w.activeStart);
  }

  /** Every accepted record restores a sound key with the record's watermark. */
  lemma RestoredKey(s: Scheme, r: Record)
    requires Sound(s) && FromRecord(s, r).Ok?
    ensures var k := FromRecord(s, r).value;
            && NextIndex(k.lastSigned) == r.nextIndex && k.seed == r.seed && KeyInv(s, k)
  {
    hide Sound;
    GeneratedKey(s, r.seed, r.activationEpoch, r.numActiveEpochs);
  }

  // ---------------------------------------------------------------- whole lives of a key

  datatype KeyOp = PrepareFor(epoch: U32) | AdvanceOnce | SignAt(epoch: U32, message: nat) | Reload

  ghost function Perform(s: Scheme, k: Key, op: KeyOp): Key
    requires Sound(s) && KeyInv(s, k)
  {
    match op
    case PrepareFor(epoch) => PrepareKey(s, k, epoch).1
    case AdvanceOnce => k.(window := s.advance(k.window))
    case SignAt(epoch, message) => SignKey(s, k, epoch, message).1
    case Reload => RecordRoundTrip(s, k); FromRecord(s, ToRecord(k)).value
  }

  lemma PerformKeepsInvariant(s: Scheme, k: Key, op: KeyOp)
    requires Sound(s) && KeyInv(s, k)
    ensures var k' := Perform(s, k, op);
            && KeyInv(s, k') && SameActivation(k.window, k'.window)
            && (k'.lastSigned == k.lastSigned || (op.SignAt? && k'.lastSigned == Some(op.epoch) && NextIndex(k.lastSigned) <= op.epoch))
  {
    hide Sound, PrepareKey, FromRecord, ToRecord;
    match op
    case PrepareFor(epoch) =>
      PrepareKeepsInvariant(s, k, epoch);
      PreparedActivation(s, k, epoch);
    case AdvanceOnce => SlideKeeps(s, k);
    case SignAt(epoch, message) =>
    case Reload => RecordRoundTrip(s, k);
  }

  lemma SlideKeeps(s: Scheme, k: Key)
    requires Sound(s) && KeyInv(s, k)
    ensures var k' := k.(window := s.advance(k.window)); KeyInv(s, k') && SameActivation(k.window, k'.window)
  {
    hide Regenerates;
    assert WellPlaced(k.window);
  }

  lemma PreparedActivation(s: Scheme, k: Key, epoch: U32)
    requires Sound(s) && KeyInv(s, k)
    ensures SameActivation(k.window, PrepareKey(s, k, epoch).1.window)
  {
    hide Sound;
  }

  /** The epochs signed, in order, over a life that reloads from the key's own record. */
  ghost function SignedEpochs(s: Scheme, k: Key, ops: seq<KeyOp>): seq<nat>
    requires Sound(s) && KeyInv(s, k)
    decreases |ops|
  {
    if ops == [] then [] else
    PerformKeepsInvariant(s, k, ops[0]);
    var rest := SignedEpochs(s, Perform(s, k, ops[0]), ops[1..]);
    if ops[0].SignAt? && SignKey(s, k, ops[0].epoch, ops[0].message).0.Ok? then [ops[0].epoch] + rest else rest
  }

  /** Over any interleaving of preparing, advancing, signing and reloading, the signed
      epochs strictly increase and stay inside the activation range. */
  lemma {:induction false} SignedEpochsIncrease(s: Scheme, k: Key, ops: seq<KeyOp>)
    requires Sound(s) && KeyInv(s, k)
    ensures StrictlyIncreasing(SignedEpochs(s, k, ops))
    ensures forall e :: e in SignedEpochs(s, k, ops) ==> NextIndex(k.lastSigned) <= e && IsActive(k.window, e)
    decreases |ops|
  {
    hide Sound, Perform;
    if ops != [] {
      PerformKeepsInvariant(s, k, ops[0]);
      var k' := Perform(s, k, ops[0]);
      var rest := SignedEpochs(s, k', ops[1..]);
      SignedEpochsIncrease(s, k', ops[1..]);
      if ops[0].SignAt? && SignKey(s, k, ops[0].epoch, ops[0].message).0.Ok? {
        SignedNow(s, k, ops[0]);
        PrependSmaller(ops[0].epoch, rest);
      }
    }
  }

  lemma SignedNow(s: Scheme, k: Key, op: KeyOp)
    requires Sound(s) && KeyInv(s, k) && op.SignAt? && SignKey(s, k, op.epoch, op.message).0.Ok?
    ensures Perform(s, k, op).lastSigned == Some(op.epoch)
    ensures NextIndex(k.lastSigned) <= op.epoch && IsActive(k.window, op.epoch)
  {
    hide Sound;
  }
}
