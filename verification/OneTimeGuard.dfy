/**
  The durable guard around one-time keys. A node signs in memory, saves the advanced
  watermark, and only then releases the signature; on start it merges each secret file
  with the saved watermark. Saves may fail and the node may stop at any point, between
  signing and saving included. Over every run, the epochs released for a validator
  strictly increase.
 */
module OneTimeGuard {
  import opened Containers
  import opened KeyState

  datatype Watermark = Watermark(commitment: nat, activationEpoch: U64, numActiveEpochs: U64, nextIndex: U64)

  /** The scheme and the one-way commitment to a seed. */
  datatype Setting = Setting(scheme: Scheme, commit: nat -> nat)

  function ToWatermark(c: Setting, k: Key): Watermark
    requires k.window.activeStart <= k.window.activeEnd
  {
    var r := ToRecord(k);
    Watermark(c.commit(r.seed), r.activationEpoch, r.numActiveEpochs, r.nextIndex)
  }

  /** The secret file's record with the further-advanced watermark, or a mismatch. */
  function ResolveRecord(c: Setting, file: Record, stored: Option<Watermark>): Option<Record> {
    if stored.None? then Some(file)
    else if stored.value.commitment != c.commit(file.seed)
      || stored.value.activationEpoch != file.activationEpoch
      || stored.value.numActiveEpochs != file.numActiveEpochs then None
    else Some(file.(nextIndex := if file.nextIndex < stored.value.nextIndex then stored.value.nextIndex else file.nextIndex))
  }

  datatype Entry = Entry(validator: U64, epoch: U32)

  /** `keys` is absent while the node is down; `signed` and `released` are histories. */
  datatype Node = Node(
    files: map<U64, Record>,
    store: map<U64, Watermark>,
    keys: Option<map<U64, Key>>,
    signed: seq<Entry>,
    released: seq<Entry>)

  /** A signing carries whether the signature fits the wire and whether the save succeeds. */
  datatype Event =
    | Boot
    | Stop
    | Slide(who: U64)
    | Sign(validator: U64, epoch: U32, message: nat, encoded: bool, saved: bool)

  function Stored(n: Node, v: U64): Option<Watermark> {
    if v in n.store then Some(n.store[v]) else None
  }

  function Load(c: Setting, n: Node, v: U64): Option<Key>
    requires v in n.files
  {
    match ResolveRecord(c, n.files[v], Stored(n, v))
    case None => None
    case Some(r) =>
      match FromRecord(c.scheme, r)
      case Err(_) => None
      case Ok(k) => Some(k)
  }

  ghost function BootNode(c: Setting, n: Node): Node {
    if forall v :: v in n.files ==> Load(c, n, v).Some?
    then n.(keys := Some(map v | v in n.files :: Load(c, n, v).value))
    else n.(keys := None)
  }

  /** Prepare, sign, save, release. */
  ghost function SignNode(c: Setting, n: Node, v: U64, epoch: U32, message: nat, encoded: bool, saved: bool): Node
    requires Sound(c.scheme) && n.keys.Some? && v in n.keys.value && KeyInv(c.scheme, n.keys.value[v])
  {
    var (prepared, k1) := PrepareKey(c.scheme, n.keys.value[v], epoch);
    if prepared.Err? then n.(keys := Some(n.keys.value[v := k1])) else
    var (signature, k2) := SignKey(c.scheme, k1, epoch, message);
    var after := n.(keys := Some(n.keys.value[v := k2]));
    if signature.Err? then after else
    var burned := after.(signed := n.signed + [Entry(v, epoch)]);
    if !encoded || !saved then burned else
    SignKeepsInvariant(c.scheme, n.keys.value[v], epoch, message);
    burned.(store := n.store[v := ToWatermark(c, k2)], released := n.released + [Entry(v, epoch)])
  }

  ghost predicate KeysInv(c: Setting, n: Node) {
    n.keys.Some? ==> forall v :: v in n.keys.value ==> KeyInv(c.scheme, n.keys.value[v])
  }

  ghost function Step(c: Setting, n: Node, e: Event): Node
    requires Sound(c.scheme) && KeysInv(c, n)
  {
    match e
    case Boot => BootNode(c, n)
    case Stop => n.(keys := None)
    case Slide(v) =>
      if n.keys.None? || v !in n.keys.value then n
      else var k := n.keys.value[v]; n.(keys := Some(n.keys.value[v := k.(window := c.scheme.advance(k.window))]))
    case Sign(v, epoch, message, encoded, saved) =>
      if n.keys.None? || v !in n.keys.value then n
      else SignNode(c, n, v, epoch, message, encoded, saved)
  }

  /** A successful signing moves the watermark to its epoch, past every earlier one. */
  lemma SignKeepsInvariant(s: Scheme, k: Key, epoch: U32, message: nat)
    requires Sound(s) && KeyInv(s, k)
    ensures var (p, k1) := PrepareKey(s, k, epoch);
            var (r, k2) := SignKey(s, k1, epoch, message);
            && KeyInv(s, k1) && k1.lastSigned == k.lastSigned
            && (p.Ok? ==> KeyInv(s, k2) && k2.seed == k.seed)
            && (p.Ok? && r.Ok? ==> k2.lastSigned == Some(epoch) && NextIndex(k.lastSigned) <= epoch)
            && (p.Ok? && r.Err? ==> k2 == k1)
  {
    hide Sound, PrepareKey;
    PrepareKeepsInvariant(s, k, epoch);
  }

  ghost predicate Increasing(log: seq<Entry>) {
    forall i, j :: 0 <= i < j < |log| && log[i].validator == log[j].validator ==> log[i].epoch < log[j].epoch
  }

  /** Every released epoch is below the saved watermark. */
  ghost predicate Covered(released: seq<Entry>, store: map<U64, Watermark>) {
    forall r :: r in released ==> r.validator in store && r.epoch < store[r.validator].nextIndex
  }

  /** No key in memory lags behind the saved watermark. */
  ghost predicate Abreast(keys: map<U64, Key>, store: map<U64, Watermark>) {
    forall v :: v in keys && v in store ==> store[v].nextIndex <= NextIndex(keys[v].lastSigned)
  }

  ghost predicate NodeInv(c: Setting, n: Node) {
    && KeysInv(c, n) && Increasing(n.released) && Covered(n.released, n.store)
    && (n.keys.Some? ==> Abreast(n.keys.value, n.store))
  }

  lemma BootKeepsInvariant(c: Setting, n: Node)
    requires Sound(c.scheme) && NodeInv(c, n)
    ensures NodeInv(c, BootNode(c, n))
  {
    hide Sound, KeyInv, Load, Increasing, Covered;
    forall v | v in n.files && Load(c, n, v).Some?
      ensures KeyInv(c.scheme, Load(c, n, v).value)
      ensures v in n.store ==> n.store[v].nextIndex <= NextIndex(Load(c, n, v).value.lastSigned)
    {
      LoadedKey(c, n, v);
    }
  }

  lemma LoadedKey(c: Setting, n: Node, v: U64)
    requires Sound(c.scheme) && v in n.files && Load(c, n, v).Some?
    ensures var k := Load(c, n, v).value;
            KeyInv(c.scheme, k) && NextIndex(k.lastSigned) == Resume(n, v)
  {
    hide Sound;
    var r := ResolveRecord(c, n.files[v], Stored(n, v)).value;
    RestoredKey(c.scheme, r);
  }

  /** The next index a start resumes from. */
  function Resume(n: Node, v: U64): U64
    requires v in n.files
  {
    if v in n.store && n.files[v].nextIndex < n.store[v].nextIndex then n.store[v].nextIndex else n.files[v].nextIndex
  }

  lemma SigningKeepsInvariant(c: Setting, n: Node, v: U64, epoch: U32, message: nat, encoded: bool, saved: bool)
    requires Sound(c.scheme) && NodeInv(c, n) && n.keys.Some? && v in n.keys.value
    ensures NodeInv(c, SignNode(c, n, v, epoch, message, encoded, saved))
  {
    hide Sound, PrepareKey, SignKey, Increasing, Covered;
    var k := n.keys.value[v];
    SignKeepsInvariant(c.scheme, k, epoch, message);
    if NextIndex(k.lastSigned) <= epoch { ReleaseKeeps(n.released, n.store, v, epoch, k.lastSigned); }
    var (prepared, k1) := PrepareKey(c.scheme, k, epoch);
    var (signature, k2) := SignKey(c.scheme, k1, epoch, message);
    if prepared.Ok? && signature.Ok? && encoded && saved {
      var after := SignNode(c, n, v, epoch, message, encoded, saved);
      assert after.store == n.store[v := ToWatermark(c, k2)];
    }
  }

  /** Saving `epoch + 1` and releasing `epoch` past the watermark keeps the log in order. */
  lemma ReleaseKeeps(released: seq<Entry>, store: map<U64, Watermark>, v: U64, epoch: U32, last: Option<U32>)
    requires Increasing(released) && Covered(released, store) && NextIndex(last) <= epoch
    requires v in store ==> store[v].nextIndex <= NextIndex(last)
    ensures Increasing(released + [Entry(v, epoch)])
    ensures forall w: Watermark :: w.nextIndex == epoch + 1 ==> Covered(released + [Entry(v, epoch)], store[v := w])
  {
    var log := released + [Entry(v, epoch)];
    forall i, j | 0 <= i < j < |log| && log[i].validator == log[j].validator ensures log[i].epoch < log[j].epoch {
      assert log[i] in released;
    }
  }

  lemma StepKeepsInvariant(c: Setting, n: Node, e: Event)
    requires Sound(c.scheme) && NodeInv(c, n)
    ensures NodeInv(c, Step(c, n, e))
  {
    hide Regenerates, SignNode, BootNode, Increasing, Covered, KeyInv;
    match e
    case Boot => BootKeepsInvariant(c, n);
    case Stop =>
    case Slide(v) =>
      if n.keys.Some? && v in n.keys.value { SlideKeeps(c.scheme, n.keys.value[v]); }
    case Sign(v, epoch, message, encoded, saved) =>
      if n.keys.Some? && v in n.keys.value { SigningKeepsInvariant(c, n, v, epoch, message, encoded, saved); }
  }

  ghost function Run(c: Setting, n: Node, events: seq<Event>): (r: Node)
    requires Sound(c.scheme) && NodeInv(c, n)
    ensures NodeInv(c, r)
    decreases |events|
  {
    if events == [] then n else
    StepKeepsInvariant(c, n, events[0]);
    Run(c, Step(c, n, events[0]), events[1..])
  }

  function Fresh(files: map<U64, Record>): Node {
    Node(files, map[], None, [], [])
  }

  /** Whatever the secret files say, in every run with stops, restarts and failed saves,
      the epochs released for a validator strictly increase. */
  lemma ReleasedEpochsIncrease(c: Setting, files: map<U64, Record>, events: seq<Event>)
    requires Sound(c.scheme)
    ensures NodeInv(c, Fresh(files)) && Increasing(Run(c, Fresh(files), events).released)
  {
    hide Sound;
  }

  /** A start loads a validator's key exactly when there is no saved watermark, or it is of
      the same seed and range, and the record with the further next index restores. */
  lemma LoadsIff(c: Setting, n: Node, v: U64)
    requires v in n.files
    ensures var f := n.files[v];
            Load(c, n, v).Some? <==>
            && (v in n.store ==>
                  && n.store[v].commitment == c.commit(f.seed)
                  && n.store[v].activationEpoch == f.activationEpoch && n.store[v].numActiveEpochs == f.numActiveEpochs)
            && FromRecord(c.scheme, Record(f.seed, f.activationEpoch, f.numActiveEpochs, Resume(n, v))).Ok?
    ensures var f := n.files[v];
            Load(c, n, v).Some? ==>
              FromRecord(c.scheme, Record(f.seed, f.activationEpoch, f.numActiveEpochs, Resume(n, v))) ==
              Ok(Load(c, n, v).value)
  {
    hide FromRecord;
  }

  /** A node comes up with a key for every secret file, each the loaded one, or not at all. */
  lemma BootsIff(c: Setting, n: Node)
    ensures var n' := BootNode(c, n);
            && n' == n.(keys := n'.keys)
            && (n'.keys.Some? <==> forall v :: v in n.files ==> Load(c, n, v).Some?)
            && (n'.keys.Some? ==>
                  && n'.keys.value.Keys == n.files.Keys
                  && forall v :: v in n.files ==> Load(c, n, v) == Some(n'.keys.value[v]))
  {
    hide Load;
  }

  /** The node signs exactly when the epoch is active, not behind the window and past the
      watermark, and the scheme can sign it. It saves and releases exactly when besides the
      signature encodes and the save succeeds; what is saved resumes after that epoch. No
      other validator's key, record or history entry moves. */
  lemma SigningOutcome(c: Setting, n: Node, v: U64, epoch: U32, message: nat, encoded: bool, saved: bool)
    requires Sound(c.scheme) && n.keys.Some? && v in n.keys.value && KeyInv(c.scheme, n.keys.value[v])
    ensures var k, n' := n.keys.value[v], SignNode(c, n, v, epoch, message, encoded, saved);
            var prepared := k.window.activeStart <= epoch < k.window.activeEnd && k.window.preparedStart <= epoch;
            && n'.files == n.files && n'.keys.Some? && n'.keys.value == n.keys.value[v := n'.keys.value[v]]
            && (prepared ==>
                  var w := PreparedAt(c.scheme, k.window, epoch);
                  var signs := (k.lastSigned.None? || k.lastSigned.value < epoch)
                               && c.scheme.sign(k.seed, w, epoch, message).Some?;
                  && n'.keys.value[v] == Key(w, if signs then Some(epoch) else k.lastSigned, k.seed)
                  && n'.signed == (if signs then n.signed + [Entry(v, epoch)] else n.signed)
                  && n'.released == (if signs && encoded && saved then n.released + [Entry(v, epoch)] else n.released)
                  && n'.store == (if signs && encoded && saved
                                  then n.store[v := Watermark(c.commit(k.seed), k.window.activeStart,
                                                              k.window.activeEnd - k.window.activeStart, epoch + 1)]
                                  else n.store))
            && (!prepared ==> n' == n)
  {
    hide Sound, PreparedAt;
    var k := n.keys.value[v];
    SignKeepsInvariant(c.scheme, k, epoch, message);
    assert n.keys.value[v := k] == n.keys.value;
    PreparedActivation(c.scheme, k, epoch);
  }

  /** What a start refuses: exactly the epochs below the further of file and store. */
  lemma RestartRefusesIff(c: Setting, n: Node, v: U64, epoch: U32)
    requires Sound(c.scheme) && v in n.files && Load(c, n, v).Some?
    ensures var k := Load(c, n, v).value;
            (k.lastSigned.Some? && epoch <= k.lastSigned.value) <==> epoch < Resume(n, v)
  {
    hide Sound, KeyInv, Load;
    LoadedKey(c, n, v);
  }

  ghost predicate EverySaved(events: seq<Event>) {
    forall i :: 0 <= i < |events| && events[i].Sign? ==> events[i].encoded && events[i].saved
  }

  /** When every save succeeds, every signature made is released, so the epochs signed
      for a validator strictly increase as well. */
  lemma {:induction false} SavedRunSignsOnce(c: Setting, n: Node, events: seq<Event>)
    requires Sound(c.scheme) && NodeInv(c, n) && n.signed == n.released && EverySaved(events)
    ensures var r := Run(c, n, events); r.signed == r.released && Increasing(r.signed)
    decreases |events|
  {
    hide Sound, KeyInv, Increasing, Covered, Abreast, BootNode, SignNode;
    if events != [] {
      StepKeepsInvariant(c, n, events[0]);
      StepSaves(c, n, events[0]);
      SavedRunSignsOnce(c, Step(c, n, events[0]), events[1..]);
    }
  }

  lemma StepSaves(c: Setting, n: Node, e: Event)
    requires Sound(c.scheme) && KeysInv(c, n) && n.signed == n.released
    requires e.Sign? ==> e.encoded && e.saved
    ensures var n' := Step(c, n, e); n'.signed == n'.released
  {
    hide Sound, PrepareKey, SignKey;
  }

  // ---------------------------------------------------------------- a save that never happened

  ghost function Tiny(): Setting {
    Setting(TinyScheme(), (seed: nat) => seed)
  }

  const TINY_FILES: map<U64, Record> := map[0 := Record(7, 0, 8, 0)]

  const TINY_KEY: Key := Key(Window(0, 8, 0, 4), None, 7)

  lemma TinyBoot(n: Node)
    requires n.files == TINY_FILES && n.store == map[]
    ensures BootNode(Tiny(), n) == n.(keys := Some(map[0 := TINY_KEY]))
  {
    assert Load(Tiny(), n, 0) == Some(TINY_KEY);
    assert (map v | v in n.files :: Load(Tiny(), n, v).value) == map[0 := TINY_KEY];
  }

  lemma TinySign(n: Node, saved: bool)
    requires n.keys == Some(map[0 := TINY_KEY]) && Sound(TinyScheme()) && KeyInv(TinyScheme(), TINY_KEY)
    ensures var after := SignNode(Tiny(), n, 0, 0, 0, true, saved);
            && after.files == n.files && after.signed == n.signed + [Entry(0, 0)]
            && (saved ==> after.released == n.released + [Entry(0, 0)])
            && (!saved ==> after.released == n.released && after.store == n.store)
  {
    assert IsPrepared(TINY_KEY.window, 0);
    assert PrepareKey(TinyScheme(), TINY_KEY, 0) == (Ok(()), TINY_KEY);
    assert SignKey(TinyScheme(), TINY_KEY, 0, 0) == (Ok(0), TINY_KEY.(lastSigned := Some(0)));
  }

  const LOST_SAVE: seq<Event> := [Boot, Sign(0, 0, 0, true, false), Stop, Boot, Sign(0, 0, 0, true, true)]

  /** Signing, unlike releasing, is not once-only: a node that stops after signing and
      before saving signs the same epoch again, though it releases it once. */
  lemma LostSaveSignsTwice() returns (n: Node)
    ensures Sound(TinyScheme()) && NodeInv(Tiny(), Fresh(TINY_FILES))
    ensures n == Run(Tiny(), Fresh(TINY_FILES), LOST_SAVE)
    ensures n.signed == [Entry(0, 0), Entry(0, 0)] && n.released == [Entry(0, 0)]
  {
    hide Sound, Regenerates, Slides, BootNode, SignNode, NodeInv, KeyInv;
    TinySchemeIsSound();
    TinyStart();
    var n0 := Fresh(TINY_FILES);
    var n1 := TinyStep(n0, LOST_SAVE);
    TinyBoot(n0);
    TinySign(n1, false);
    var n2 := TinyStep(n1, LOST_SAVE[1..]);
    var n3 := TinyStep(n2, LOST_SAVE[1..][1..]);
    var n4 := TinyStep(n3, LOST_SAVE[1..][1..][1..]);
    TinyBoot(n3);
    TinySign(n4, true);
    n := TinyStep(n4, LOST_SAVE[1..][1..][1..][1..]);
  }

  lemma TinyStart()
    ensures NodeInv(Tiny(), Fresh(TINY_FILES)) && KeyInv(TinyScheme(), TINY_KEY)
  {
  }

  lemma TinyStep(n: Node, events: seq<Event>) returns (after: Node)
    requires Sound(TinyScheme()) && NodeInv(Tiny(), n) && events != []
    ensures KeysInv(Tiny(), n) && after == Step(Tiny(), n, events[0]) && NodeInv(Tiny(), after)
    ensures Run(Tiny(), n, events) == Run(Tiny(), after, events[1..])
    ensures |events| == 1 ==> Run(Tiny(), n, events) == after
  {
    hide Sound, BootNode, SignNode;
    StepKeepsInvariant(Tiny(), n, events[0]);
    after := Step(Tiny(), n, events[0]);
  }
}
