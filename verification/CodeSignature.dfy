/** Refreshing the page hashes of an ad-hoc code signature in place. */
module CodeSignature {
  import opened Wrappers

  const MH_MAGIC_64: nat := 0xfeedfacf
  const LC_CODE_SIGNATURE: nat := 0x1d
  const EMBEDDED_SIGNATURE: nat := 0xfade0cc0
  const CODE_DIRECTORY: nat := 0xfade0c02
  const CS_ADHOC: nat := 2

  datatype Algorithm = Sha1 | Sha256

  datatype SignatureError = OutOfRange | NotThin64 | NotEmbedded | SignedByIdentity | UnsupportedHash

  /** The digests, of twenty and of thirty-two bytes. */
  type Hash = h: (Algorithm, seq<byte>) -> seq<byte> | forall a, s :: |h(a, s)| == if a == Sha1 then 20 else 32
    ghost witness (a, s) => seq(if a == Sha1 then 20 else 32, _ => 0)

  // ---- reading numbers ----

  function U8(s: seq<byte>, at: nat): Result<nat, SignatureError> {
    if at < |s| then Ok(s[at]) else Err(OutOfRange)
  }

  function Word(a: nat, b: nat, c: nat, d: nat): nat {
    ((a * 256 + b) * 256 + c) * 256 + d
  }

  function Big(s: seq<byte>, at: nat): Result<nat, SignatureError> {
    if at + 4 <= |s| then Ok(Word(s[at], s[at + 1], s[at + 2], s[at + 3])) else Err(OutOfRange)
  }

  function Little(s: seq<byte>, at: nat): Result<nat, SignatureError> {
    if at + 4 <= |s| then Ok(Word(s[at + 3], s[at + 2], s[at + 1], s[at])) else Err(OutOfRange)
  }

  /** A part of the bytes; what lies past the end is left out. */
  function Part(s: seq<byte>, from: nat, to: nat): (r: seq<byte>) {
    if from <= to <= |s| then s[from..to]
    else if from <= |s| < to then s[from..]
    else []
  }

  function Pow2(n: nat): nat {
    if n == 0 then 1 else 2 * Pow2(n - 1)
  }

  // ---- the layout ----

  /** The code signature command, the last one if there are several. */
  function SignatureOffset(s: seq<byte>, left: nat, cursor: nat, found: Option<nat>): Result<Option<nat>, SignatureError>
    decreases left
  {
    if left == 0 then Ok(found)
    else
      var cmd, size := Little(s, cursor), Little(s, cursor + 4);
      if cmd.Err? then Err(OutOfRange)
      else if cmd.value == LC_CODE_SIGNATURE && (Little(s, cursor + 8).Err? || Little(s, cursor + 12).Err?) then Err(OutOfRange)
      else if size.Err? then Err(OutOfRange)
      else
        SignatureOffset(s, left - 1, cursor + size.value,
                        if cmd.value == LC_CODE_SIGNATURE then Some(Little(s, cursor + 8).value) else found)
  }

  /** The first byte after the load commands. */
  function CommandsEnd(s: seq<byte>, left: nat, cursor: nat): nat
    decreases left
  {
    if left == 0 then cursor
    else
      var size := Little(s, cursor + 4);
      if size.Err? then cursor + 16 else Max(cursor + 16, CommandsEnd(s, left - 1, cursor + size.value))
  }

  /** Where a hash is stored, and the bytes it is the hash of. */
  datatype Slot = Slot(at: nat, size: nat, algorithm: Algorithm, from: nat, to: nat)

  function HashOf(kind: nat): Option<(Algorithm, nat)> {
    if kind == 1 then Some((Sha1, 20)) else if kind == 2 then Some((Sha256, 32)) else if kind == 3 then Some((Sha256, 20)) else None
  }

  datatype Directory = Directory(base: nat, hashes: nat, count: nat, limit: nat, algorithm: Algorithm, size: nat, page: nat)

  function SlotAt(d: Directory, page: nat): Slot {
    var start := page * d.page;
    Slot(d.base + d.hashes + page * d.size, d.size, d.algorithm, start, Min(start + d.page, d.limit))
  }

  function ReadDirectory(s: seq<byte>, cd: nat): Result<Option<Directory>, SignatureError> {
    if Big(s, cd).Err? then Err(OutOfRange)
    else if Big(s, cd).value != CODE_DIRECTORY then Ok(None)
    else if Big(s, cd + 12).Err? then Err(OutOfRange)
    else if Big(s, cd + 12).value / CS_ADHOC % 2 == 0 then Err(SignedByIdentity)
    else
      var hashes, count, limit, kind := Big(s, cd + 16), Big(s, cd + 28), Big(s, cd + 32), U8(s, cd + 37);
      if hashes.Err? || count.Err? || limit.Err? || kind.Err? then Err(OutOfRange)
      else
        var hash := HashOf(kind.value);
        if hash.None? || s[cd + 36] != hash.value.1 then Err(UnsupportedHash)
        else if U8(s, cd + 39).Err? then Err(OutOfRange)
        else Ok(Some(Directory(cd, hashes.value, count.value, limit.value, hash.value.0, hash.value.1, Pow2(s[cd + 39]))))
  }

  /** The i-th blob of the signature, if it is a code directory. */
  function ReadBlob(s: seq<byte>, signature: nat, i: nat): Result<Option<Directory>, SignatureError> {
    var offset := Big(s, BlobEntry(signature, i));
    if offset.Err? then Err(OutOfRange) else ReadDirectory(s, signature + offset.value)
  }

  /** Where the signature is, if the image has one. */
  function FindSignature(s: seq<byte>): Result<Option<nat>, SignatureError> {
    if Little(s, 0).Err? then Err(OutOfRange)
    else if Little(s, 0).value != MH_MAGIC_64 then Err(NotThin64)
    else if Little(s, 16).Err? then Err(OutOfRange)
    else SignatureOffset(s, Little(s, 16).value, 32, None)
  }

  // ---- refreshing ----

  function Digest(s: seq<byte>, slot: Slot, hash: Hash): (r: seq<byte>) {
    Part(hash(slot.algorithm, Part(s, slot.from, slot.to)), 0, slot.size)
  }

  predicate Holds(s: seq<byte>, slot: Slot, hash: Hash) {
    Part(s, slot.at, slot.at + slot.size) == Digest(s, slot, hash)
  }

  function Put(s: seq<byte>, at: nat, digest: seq<byte>): (r: seq<byte>)
    requires at + |digest| <= |s|
    ensures |r| == |s|
  {
    s[..at] + digest + s[at + |digest|..]
  }

  /** The bytes after a step, whether any changed, and what went wrong. */
  datatype Step = Step(bytes: seq<byte>, changed: bool, error: Option<SignatureError>)

  function RefreshSlot(s: seq<byte>, slot: Slot, hash: Hash): (r: Step)
    ensures |r.bytes| == |s|
  {
    var digest := Digest(s, slot, hash);
    if Holds(s, slot, hash) then Step(s, false, None)
    else if slot.at + |digest| <= |s| then Step(Put(s, slot.at, digest), true, None)
    else Step(s, false, Some(OutOfRange))
  }

  function RefreshPages(s: seq<byte>, d: Directory, page: nat, hash: Hash): (r: Step)
    requires page <= d.count
    ensures |r.bytes| == |s|
    decreases d.count - page
  {
    if page == d.count then Step(s, false, None)
    else
      var first := RefreshSlot(s, SlotAt(d, page), hash);
      if first.error.Some? then first
      else
        var rest := RefreshPages(first.bytes, d, page + 1, hash);
        Step(rest.bytes, first.changed || rest.changed, rest.error)
  }

  function RefreshBlobs(s: seq<byte>, signature: nat, i: nat, count: nat, hash: Hash): (r: Step)
    requires i <= count
    ensures |r.bytes| == |s|
    decreases count - i
  {
    if i == count then Step(s, false, None)
    else
      match ReadBlob(s, signature, i)
      case Err(e) => Step(s, false, Some(e))
      case Ok(None) => RefreshBlobs(s, signature, i + 1, count, hash)
      case Ok(Some(d)) =>
        var first := RefreshPages(s, d, 0, hash);
        if first.error.Some? then first
        else
          var rest := RefreshBlobs(first.bytes, signature, i + 1, count, hash);
          Step(rest.bytes, first.changed || rest.changed, rest.error)
  }

  function Refreshed(s: seq<byte>, hash: Hash): (r: Step)
    ensures |r.bytes| == |s|
  {
    match FindSignature(s)
    case Err(e) => Step(s, false, Some(e))
    case Ok(None) => Step(s, false, None)
    case Ok(Some(signature)) =>
      if Big(s, signature).Err? then Step(s, false, Some(OutOfRange))
      else if Big(s, signature).value != EMBEDDED_SIGNATURE then Step(s, false, Some(NotEmbedded))
      else if Big(s, signature + 8).Err? then Step(s, false, Some(OutOfRange))
      else RefreshBlobs(s, signature, 0, Big(s, signature + 8).value, hash)
  }

  method FindSignatureCommand(bytes: array<byte>) returns (r: Result<Option<nat>, SignatureError>)
    ensures r == FindSignature(bytes[..])
  {
    hide Little;
    var s := bytes[..];
    var magic := Little(s, 0);
    if magic.Err? {
      return Err(OutOfRange);
    }
    if magic.value != MH_MAGIC_64 {
      return Err(NotThin64);
    }
    var ncmds := Little(s, 16);
    if ncmds.Err? {
      return Err(OutOfRange);
    }
    LittleError(s, 0);
    var cursor := 32;
    var found := None;
    for i := 0 to ncmds.value
      invariant 0 <= cursor
      invariant SignatureOffset(s, ncmds.value - i, cursor, found) == FindSignature(s)
    {
      var cmd := Little(s, cursor);
      if cmd.Err? {
        return Err(OutOfRange);
      }
      if cmd.value == LC_CODE_SIGNATURE {
        var offset, size := Little(s, cursor + 8), Little(s, cursor + 12);
        if offset.Err? || size.Err? {
          return Err(OutOfRange);
        }
        found := Some(offset.value);
      }
      var step := Little(s, cursor + 4);
      if step.Err? {
        return Err(OutOfRange);
      }
      cursor := cursor + step.value;
    }
    return Ok(found);
  }

  lemma LittleError(s: seq<byte>, at: nat)
    ensures Little(s, at).Err? ==> Little(s, at) == Err(OutOfRange)
  {
  }

  method SetBytes(bytes: array<byte>, digest: seq<byte>, at: nat)
    requires at + |digest| <= bytes.Length
    modifies bytes
    ensures bytes[..] == Put(old(bytes[..]), at, digest)
  {
    forall i | 0 <= i < |digest| {
      bytes[at + i] := digest[i];
    }
  }

  method RefreshDirectory(bytes: array<byte>, d: Directory, hash: Hash) returns (changed: bool, error: Option<SignatureError>)
    modifies bytes
    ensures Step(bytes[..], changed, error) == RefreshPages(old(bytes[..]), d, 0, hash)
  {
    hide SlotAt, Digest, Part;
    changed, error := false, None;
    ghost var all := RefreshPages(bytes[..], d, 0, hash);
    var page := 0;
    while page < d.count
      invariant page <= d.count
      invariant var rest := RefreshPages(bytes[..], d, page, hash);
                all == Step(rest.bytes, changed || rest.changed, rest.error)
    {
      var slot := SlotAt(d, page);
      var digest := Digest(bytes[..], slot, hash);
      if Part(bytes[..], slot.at, slot.at + slot.size) != digest {
        if slot.at + |digest| > bytes.Length {
          return changed, Some(OutOfRange);
        }
        SetBytes(bytes, digest, slot.at);
        changed := true;
      }
      page := page + 1;
    }
  }

  method RefreshAdhocSignature(bytes: array<byte>, hash: Hash) returns (changed: bool, error: Option<SignatureError>)
    modifies bytes
    ensures Step(bytes[..], changed, error) == Refreshed(old(bytes[..]), hash)
  {
    hide FindSignature, ReadDirectory, RefreshPages, Big;
    changed, error := false, None;
    var found := FindSignatureCommand(bytes);
    if found.Err? {
      return false, Some(found.error);
    }
    if found.value.None? {
      return false, None;
    }
    var signature := found.value.value;
    var magic := Big(bytes[..], signature);
    if magic.Err? {
      return false, Some(OutOfRange);
    }
    if magic.value != EMBEDDED_SIGNATURE {
      return false, Some(NotEmbedded);
    }
    var count := Big(bytes[..], signature + 8);
    if count.Err? {
      return false, Some(OutOfRange);
    }
    ghost var all := RefreshBlobs(bytes[..], signature, 0, count.value, hash);
    var i := 0;
    while i < count.value
      invariant i <= count.value
      invariant var rest := RefreshBlobs(bytes[..], signature, i, count.value, hash);
                all == Step(rest.bytes, changed || rest.changed, rest.error)
    {
      var blob := ReadBlob(bytes[..], signature, i);
      if blob.Err? {
        return changed, Some(blob.error);
      }
      if blob.value.Some? {
        var more, e := RefreshDirectory(bytes, blob.value.value, hash);
        changed := changed || more;
        if e.Some? {
          return changed, e;
        }
      }
      i := i + 1;
    }
  }

  // ---- slots kept apart ----

  predicate InSlot(slot: Slot, p: nat) {
    slot.at <= p < slot.at + slot.size
  }

  ghost predicate InSome(slots: seq<Slot>, p: nat) {
    exists k :: 0 <= k < |slots| && InSlot(slots[k], p)
  }

  /** No slot reaches into the range. */
  ghost predicate Clear(slots: seq<Slot>, lo: nat, hi: nat) {
    forall p: nat {:trigger InSome(slots, p)} :: lo <= p < hi ==> !InSome(slots, p)
  }

  /** The bytes differ in slots at most. */
  ghost predicate Agree(s: seq<byte>, t: seq<byte>, slots: seq<Slot>) {
    |s| == |t| && forall p: nat {:trigger t[p]} :: p < |s| && !InSome(slots, p) ==> t[p] == s[p]
  }

  predicate Apart(a: Slot, b: Slot) {
    a.at + a.size <= b.at || b.at + b.size <= a.at
  }

  /** The hashed bytes of a slot hold no byte of the other. */
  predicate HashesApart(a: Slot, b: Slot) {
    a.from >= a.to || a.to <= b.at || b.at + b.size <= a.from
  }

  predicate Sized(slot: Slot, length: nat) {
    0 < slot.size <= (if slot.algorithm == Sha1 then 20 else 32) && slot.at + slot.size <= length
  }

  ghost predicate Separate(slots: seq<Slot>, length: nat) {
    && (forall a {:trigger Sized(slots[a], length)} :: 0 <= a < |slots| ==> Sized(slots[a], length))
    && (forall a, b {:trigger Apart(slots[a], slots[b])} :: 0 <= a < b < |slots| ==> Apart(slots[a], slots[b]))
    && (forall a, b {:trigger HashesApart(slots[a], slots[b])} ::
          0 <= a < |slots| && 0 <= b < |slots| ==> HashesApart(slots[a], slots[b]))
  }

  function RefreshList(s: seq<byte>, slots: seq<Slot>, hash: Hash): (r: Step)
    ensures |r.bytes| == |s|
    decreases |slots|
  {
    if slots == [] then Step(s, false, None)
    else
      var first := RefreshSlot(s, slots[0], hash);
      if first.error.Some? then first
      else
        var rest := RefreshList(first.bytes, slots[1..], hash);
        Step(rest.bytes, first.changed || rest.changed, rest.error)
  }

  lemma PartSame(s: seq<byte>, t: seq<byte>, from: nat, to: nat)
    requires |s| == |t| && forall p: nat :: from <= p < to && p < |s| ==> t[p] == s[p]
    ensures Part(t, from, to) == Part(s, from, to)
  {
  }

  /** Changing other slots leaves a slot as it is. */
  lemma OtherSlotHolds(s: seq<byte>, t: seq<byte>, slot: Slot, others: seq<Slot>, hash: Hash)
    requires Agree(s, t, others)
    requires forall k :: 0 <= k < |others| ==> Apart(slot, others[k]) && HashesApart(slot, others[k])
    ensures Holds(t, slot, hash) == Holds(s, slot, hash) && Digest(t, slot, hash) == Digest(s, slot, hash)
  {
    hide Part;
    forall p: nat | slot.at <= p < slot.at + slot.size || slot.from <= p < slot.to ensures !InSome(others, p) {
    }
    PartSame(s, t, slot.at, slot.at + slot.size);
    PartSame(s, t, slot.from, slot.to);
  }

  lemma TailSeparate(slots: seq<Slot>, length: nat)
    requires Separate(slots, length) && slots != []
    ensures Separate(slots[1..], length) && Sized(slots[0], length) && HashesApart(slots[0], slots[0])
    ensures forall k {:trigger slots[1..][k]} :: 0 <= k < |slots[1..]| ==>
              Apart(slots[0], slots[1..][k]) && HashesApart(slots[0], slots[1..][k]) && HashesApart(slots[1..][k], slots[0])
  {
    hide Sized, Apart, HashesApart;
    var tail := slots[1..];
    forall a | 0 <= a < |tail| ensures Sized(tail[a], length) {
      assert Sized(slots[a + 1], length);
    }
    forall a, b | 0 <= a < b < |tail| ensures Apart(tail[a], tail[b]) {
      assert Apart(slots[a + 1], slots[b + 1]);
    }
    forall a, b | 0 <= a < |tail| && 0 <= b < |tail| ensures HashesApart(tail[a], tail[b]) {
      assert HashesApart(slots[a + 1], slots[b + 1]);
    }
    assert Sized(slots[0], length) && HashesApart(slots[0], slots[0]);
    forall k | 0 <= k < |tail| ensures Apart(slots[0], tail[k]) && HashesApart(slots[0], tail[k]) && HashesApart(tail[k], slots[0]) {
      assert Apart(slots[0], slots[k + 1]) && HashesApart(slots[0], slots[k + 1]) && HashesApart(slots[k + 1], slots[0]);
    }
  }

  lemma ConsAgree(s: seq<byte>, t: seq<byte>, u: seq<byte>, first: Slot, rest: seq<Slot>)
    requires Agree(s, t, [first]) && Agree(t, u, rest)
    ensures Agree(s, u, [first] + rest)
  {
    var all := [first] + rest;
    forall p: nat | p < |s| && !InSome(all, p) ensures u[p] == s[p] {
      ConcatSome([first], rest, p);
    }
  }

  lemma ConcatSome(a: seq<Slot>, b: seq<Slot>, p: nat)
    ensures InSome(a + b, p) <==> InSome(a, p) || InSome(b, p)
  {
    hide InSlot;
    var all := a + b;
    if InSome(a, p) {
      var k :| 0 <= k < |a| && InSlot(a[k], p);
      assert InSlot(all[k], p);
    }
    if InSome(b, p) {
      var k :| 0 <= k < |b| && InSlot(b[k], p);
      assert InSlot(all[|a| + k], p);
    }
    if InSome(all, p) {
      var k :| 0 <= k < |all| && InSlot(all[k], p);
      assert if k < |a| then InSlot(a[k], p) else InSlot(b[k - |a|], p);
    }
  }

  lemma DigestSize(s: seq<byte>, slot: Slot, hash: Hash)
    requires Sized(slot, |s|)
    ensures |Digest(s, slot, hash)| == slot.size
  {
  }

  /** A slot that can be written ends up holding its hash, and only its bytes change. */
  lemma OneSlot(s: seq<byte>, slot: Slot, hash: Hash)
    requires Sized(slot, |s|) && HashesApart(slot, slot)
    ensures var r := RefreshSlot(s, slot, hash);
            && r.error == None && Holds(r.bytes, slot, hash) && Agree(s, r.bytes, [slot]) && (r.changed <==> r.bytes != s)
  {
    hide Part;
    DigestSize(s, slot, hash);
    var r := RefreshSlot(s, slot, hash);
    var digest := Digest(s, slot, hash);
    if !Holds(s, slot, hash) {
      PartInside(r.bytes, slot.at, slot.at + slot.size);
      PartInside(s, slot.at, slot.at + slot.size);
      assert r.bytes[slot.at..slot.at + slot.size] == digest;
      PartSame(s, r.bytes, slot.from, slot.to);
    }
    forall p: nat | p < |s| && !InSome([slot], p) ensures r.bytes[p] == s[p] {
      assert !InSlot([slot][0], p);
    }
  }

  lemma PartInside(s: seq<byte>, from: nat, to: nat)
    requires from <= to <= |s|
    ensures Part(s, from, to) == s[from..to]
  {
  }

  /** Slots kept apart: all end up right, nothing else changes, and the bytes changed exactly if that is reported. */
  lemma {:induction false} ListSettles(s: seq<byte>, slots: seq<Slot>, hash: Hash)
    requires Separate(slots, |s|)
    ensures var r := RefreshList(s, slots, hash);
            && r.error == None && Agree(s, r.bytes, slots) && (r.changed <==> r.bytes != s)
            && forall k {:trigger slots[k]} :: 0 <= k < |slots| ==> Holds(r.bytes, slots[k], hash)
    decreases |slots|
  {
    hide Digest, Put, Sized, Apart, HashesApart, Agree, Holds, Part;
    if slots == [] {
      NothingChanged(s);
    } else {
      TailSeparate(slots, |s|);
      var first := RefreshSlot(s, slots[0], hash);
      var tail := slots[1..];
      OneSlot(s, slots[0], hash);
      ListSettles(first.bytes, tail, hash);
      var rest := RefreshList(first.bytes, tail, hash);
      OtherSlotHolds(first.bytes, rest.bytes, slots[0], tail, hash);
      ConsAgree(s, first.bytes, rest.bytes, slots[0], tail);
      assert slots == [slots[0]] + tail;
      forall k | 0 <= k < |slots| ensures Holds(rest.bytes, slots[k], hash) {
        assert k > 0 ==> slots[k] == tail[k - 1];
      }
      if first.changed || rest.changed {
        ChangesStay(s, first.bytes, rest.bytes, slots[0], tail, hash);
      }
    }
  }

  lemma NothingChanged(s: seq<byte>)
    ensures Agree(s, s, [])
  {
  }

  /** A change in one slot is not undone by changes in others. */
  lemma ChangesStay(s: seq<byte>, t: seq<byte>, u: seq<byte>, first: Slot, rest: seq<Slot>, hash: Hash)
    requires Agree(s, t, [first]) && Agree(t, u, rest) && (s != t || t != u)
    requires forall k {:trigger rest[k]} :: 0 <= k < |rest| ==> Apart(first, rest[k])
    ensures s != u
  {
    if s != t {
      var p: nat :| p < |s| && s[p] != t[p];
      assert InSome([first], p);
      assert !InSome(rest, p);
      assert u[p] == t[p];
    } else {
      assert s != u;
    }
  }

  /** Slots that are right stay as they are. */
  lemma {:induction false} SettledStays(s: seq<byte>, slots: seq<Slot>, hash: Hash)
    requires forall k {:trigger slots[k]} :: 0 <= k < |slots| ==> Holds(s, slots[k], hash)
    ensures RefreshList(s, slots, hash) == Step(s, false, None)
    decreases |slots|
  {
    hide Holds, Digest;
    if slots != [] {
      assert forall k :: 0 <= k < |slots[1..]| ==> slots[1..][k] == slots[k + 1];
      SettledStays(s, slots[1..], hash);
    }
  }

  // ---- the whole signature ----

  function SlotsOf(d: Directory): (r: seq<Slot>)
    ensures |r| == d.count
    ensures forall p :: 0 <= p < |r| ==> r[p] == SlotAt(d, p)
  {
    seq(d.count, p requires 0 <= p < d.count => SlotAt(d, p))
  }

  /** The slots of all code directories from the i-th blob on, as the bytes describe them. */
  function SlotsFrom(s: seq<byte>, signature: nat, i: nat, count: nat): seq<Slot>
    requires i <= count
    decreases count - i
  {
    if i == count then []
    else
      var blob := ReadBlob(s, signature, i);
      (if blob.Ok? && blob.value.Some? then SlotsOf(blob.value.value) else []) + SlotsFrom(s, signature, i + 1, count)
  }

  ghost predicate AllRead(s: seq<byte>, signature: nat, count: nat) {
    forall i: nat {:trigger ReadBlob(s, signature, i)} :: i < count ==> ReadBlob(s, signature, i).Ok?
  }

  function BlobEntry(signature: nat, i: nat): nat {
    signature + 16 + i * 8
  }

  /** No slot reaches into the i-th entry of the blob index, or into the fields of the directory it points at. */
  ghost predicate BlobClear(s: seq<byte>, signature: nat, i: nat, slots: seq<Slot>) {
    var offset := Big(s, BlobEntry(signature, i));
    && Clear(slots, BlobEntry(signature, i), BlobEntry(signature, i) + 4)
    && (offset.Ok? ==> Clear(slots, signature + offset.value, signature + offset.value + 40))
  }

  /** No slot reaches into the bytes that describe the signature. */
  ghost predicate BlobsClear(s: seq<byte>, signature: nat, count: nat, slots: seq<Slot>) {
    && Clear(slots, signature, signature + 12)
    && forall i: nat {:trigger BlobClear(s, signature, i, slots)} :: i < count ==> BlobClear(s, signature, i, slots)
  }

  lemma {:induction false} PagesAreList(s: seq<byte>, d: Directory, page: nat, hash: Hash)
    requires page <= d.count
    ensures RefreshPages(s, d, page, hash) == RefreshList(s, SlotsOf(d)[page..], hash)
    decreases d.count - page
  {
    hide RefreshSlot, SlotAt;
    if page < d.count {
      var slots := SlotsOf(d)[page..];
      assert slots[0] == SlotAt(d, page) && slots[1..] == SlotsOf(d)[page + 1..];
      var first := RefreshSlot(s, SlotAt(d, page), hash);
      PagesAreList(first.bytes, d, page + 1, hash);
    }
  }

  function Followed(first: Step, slots: seq<Slot>, hash: Hash): Step {
    if first.error.Some? then first
    else
      var rest := RefreshList(first.bytes, slots, hash);
      Step(rest.bytes, first.changed || rest.changed, rest.error)
  }

  lemma {:induction false} ListConcat(s: seq<byte>, a: seq<Slot>, b: seq<Slot>, hash: Hash)
    ensures RefreshList(s, a + b, hash) == Followed(RefreshList(s, a, hash), b, hash)
    decreases |a|
  {
    hide RefreshSlot;
    if a == [] {
      assert a + b == b;
    } else {
      assert (a + b)[1..] == a[1..] + b && (a + b)[0] == a[0];
      ListConcat(RefreshSlot(s, a[0], hash).bytes, a[1..], b, hash);
    }
  }

  lemma WordSame(s: seq<byte>, t: seq<byte>, slots: seq<Slot>, at: nat)
    requires Agree(s, t, slots) && Clear(slots, at, at + 4)
    ensures Big(t, at) == Big(s, at) && Little(t, at) == Little(s, at)
  {
    if at + 4 <= |s| {
      forall p: nat | at <= p < at + 4 ensures t[p] == s[p] {
        assert !InSome(slots, p);
      }
    }
  }

  lemma ClearPart(slots: seq<Slot>, lo: nat, hi: nat, from: nat, to: nat)
    requires Clear(slots, lo, hi) && lo <= from && to <= hi
    ensures Clear(slots, from, to)
  {
    hide InSome;
  }

  lemma DirectorySame(s: seq<byte>, t: seq<byte>, slots: seq<Slot>, cd: nat)
    requires Agree(s, t, slots) && Clear(slots, cd, cd + 40)
    ensures ReadDirectory(t, cd) == ReadDirectory(s, cd)
  {
    hide Clear, InSome, Big, Pow2, HashOf;
    ClearPart(slots, cd, cd + 40, cd, cd + 4);
    ClearPart(slots, cd, cd + 40, cd + 12, cd + 16);
    ClearPart(slots, cd, cd + 40, cd + 16, cd + 20);
    ClearPart(slots, cd, cd + 40, cd + 28, cd + 32);
    ClearPart(slots, cd, cd + 40, cd + 32, cd + 36);
    WordSame(s, t, slots, cd);
    WordSame(s, t, slots, cd + 12);
    WordSame(s, t, slots, cd + 16);
    WordSame(s, t, slots, cd + 28);
    WordSame(s, t, slots, cd + 32);
    ByteSame(s, t, slots, cd, cd + 36);
    ByteSame(s, t, slots, cd, cd + 37);
    ByteSame(s, t, slots, cd, cd + 39);
  }

  lemma ByteSame(s: seq<byte>, t: seq<byte>, slots: seq<Slot>, cd: nat, at: nat)
    requires Agree(s, t, slots) && Clear(slots, cd, cd + 40) && cd <= at < cd + 40
    ensures U8(t, at) == U8(s, at) && (at < |s| ==> t[at] == s[at])
  {
    assert !InSome(slots, at);
  }

  lemma BlobSame(s: seq<byte>, t: seq<byte>, slots: seq<Slot>, signature: nat, i: nat)
    requires Agree(s, t, slots) && BlobClear(s, signature, i, slots)
    ensures ReadBlob(t, signature, i) == ReadBlob(s, signature, i)
  {
    hide Clear, Agree, Big, ReadDirectory, BlobEntry;
    var at := BlobEntry(signature, i);
    WordSame(s, t, slots, at);
    if Big(s, at).Ok? {
      DirectorySame(s, t, slots, signature + Big(s, at).value);
    }
  }

  function OwnSlots(blob: Option<Directory>): seq<Slot> {
    if blob.Some? then SlotsOf(blob.value) else []
  }

  lemma BlobStep(t: seq<byte>, signature: nat, i: nat, count: nat, blob: Option<Directory>, hash: Hash)
    requires i < count && ReadBlob(t, signature, i) == Ok(blob)
    requires RefreshList(t, OwnSlots(blob), hash).error == None
    ensures var own := RefreshList(t, OwnSlots(blob), hash);
            var rest := RefreshBlobs(own.bytes, signature, i + 1, count, hash);
            RefreshBlobs(t, signature, i, count, hash) == Step(rest.bytes, own.changed || rest.changed, rest.error)
  {
    hide ReadBlob, RefreshPages;
    if blob.Some? {
      PagesAreList(t, blob.value, 0, hash);
      assert SlotsOf(blob.value)[0..] == SlotsOf(blob.value);
    }
  }

  /** Reading the directories between the changes is reading them all first. */
  lemma {:induction false} BlobsAreList(s: seq<byte>, t: seq<byte>, slots: seq<Slot>, done: seq<Slot>,
                                        signature: nat, i: nat, count: nat, hash: Hash)
    requires i <= count && AllRead(s, signature, count) && BlobsClear(s, signature, count, slots)
    requires Agree(s, t, slots) && slots == done + SlotsFrom(s, signature, i, count) && Separate(slots, |s|)
    ensures RefreshBlobs(t, signature, i, count, hash) == RefreshList(t, SlotsFrom(s, signature, i, count), hash)
    decreases count - i
  {
    hide Separate, Agree, ReadBlob, RefreshPages, BlobClear, Clear, OwnSlots, RefreshSlot;
    if i < count {
      BlobSame(s, t, slots, signature, i);
      assert ReadBlob(s, signature, i).Ok?;
      var own, later := OwnSlots(ReadBlob(s, signature, i).value), SlotsFrom(s, signature, i + 1, count);
      SlotsStep(s, signature, i, count);
      assert slots == done + own + later;
      PartSettles(s, t, slots, done, own, later, hash);
      BlobStep(t, signature, i, count, ReadBlob(s, signature, i).value, hash);
      ListConcat(t, own, later, hash);
      BlobsAreList(s, RefreshList(t, own, hash).bytes, slots, done + own, signature, i + 1, count, hash);
    }
  }

  lemma SlotsStep(s: seq<byte>, signature: nat, i: nat, count: nat)
    requires i < count && ReadBlob(s, signature, i).Ok?
    ensures SlotsFrom(s, signature, i, count)
         == OwnSlots(ReadBlob(s, signature, i).value) + SlotsFrom(s, signature, i + 1, count)
  {
    hide ReadBlob;
  }

  lemma PartSettles(s: seq<byte>, t: seq<byte>, slots: seq<Slot>, done: seq<Slot>, own: seq<Slot>, later: seq<Slot>, hash: Hash)
    requires Separate(slots, |s|) && slots == done + own + later && Agree(s, t, slots)
    ensures RefreshList(t, own, hash).error == None && Agree(s, RefreshList(t, own, hash).bytes, slots)
  {
    hide Sized, Apart, HashesApart, RefreshList;
    forall a | 0 <= a < |own| ensures Sized(own[a], |t|) {
      assert Sized(slots[|done| + a], |s|);
    }
    forall a, b | 0 <= a < b < |own| ensures Apart(own[a], own[b]) {
      assert Apart(slots[|done| + a], slots[|done| + b]);
    }
    forall a, b | 0 <= a < |own| && 0 <= b < |own| ensures HashesApart(own[a], own[b]) {
      assert HashesApart(slots[|done| + a], slots[|done| + b]);
    }
    ListSettles(t, own, hash);
    var u := RefreshList(t, own, hash).bytes;
    forall p: nat | p < |s| && !InSome(slots, p) ensures u[p] == s[p] {
      ConcatSome(done + own, later, p);
      ConcatSome(done, own, p);
    }
  }

  lemma {:induction false} CommandsSame(s: seq<byte>, t: seq<byte>, slots: seq<Slot>, left: nat, cursor: nat, found: Option<nat>, end: nat)
    requires Agree(s, t, slots) && Clear(slots, 0, end) && CommandsEnd(s, left, cursor) <= end
    ensures SignatureOffset(t, left, cursor, found) == SignatureOffset(s, left, cursor, found)
    decreases left
  {
    hide Agree, Clear, Little;
    if left > 0 {
      ClearPart(slots, 0, end, cursor, cursor + 4);
      ClearPart(slots, 0, end, cursor + 4, cursor + 8);
      ClearPart(slots, 0, end, cursor + 8, cursor + 12);
      ClearPart(slots, 0, end, cursor + 12, cursor + 16);
      WordSame(s, t, slots, cursor);
      WordSame(s, t, slots, cursor + 4);
      WordSame(s, t, slots, cursor + 8);
      WordSame(s, t, slots, cursor + 12);
      var size := Little(s, cursor + 4);
      if size.Ok? {
        CommandsSame(s, t, slots, left - 1, cursor + size.value,
                     if Little(s, cursor).Ok? && Little(s, cursor).value == LC_CODE_SIGNATURE && Little(s, cursor + 8).Ok?
                     then Some(Little(s, cursor + 8).value) else found, end);
        if Little(s, cursor).Ok? && Little(s, cursor).value != LC_CODE_SIGNATURE {
          CommandsSame(s, t, slots, left - 1, cursor + size.value, found, end);
        }
      }
    }
  }

  /** An ad-hoc signature as linkers lay it out: read without error, its slots apart from each other, from what they hash and from all headers. */
  ghost predicate Laid(s: seq<byte>) {
    && FindSignature(s).Ok? && FindSignature(s).value.Some?
    && var signature := FindSignature(s).value.value;
       && Big(s, signature) == Ok(EMBEDDED_SIGNATURE) && Big(s, signature + 8).Ok?
       && var count := Big(s, signature + 8).value;
          var slots := SlotsFrom(s, signature, 0, count);
          && AllRead(s, signature, count)
          && Separate(slots, |s|) && BlobsClear(s, signature, count, slots)
          && Clear(slots, 0, Max(32, CommandsEnd(s, Little(s, 16).value, 32)))
  }

  function SignatureSlots(s: seq<byte>): seq<Slot> {
    if FindSignature(s).Ok? && FindSignature(s).value.Some? && Big(s, FindSignature(s).value.value + 8).Ok? then
      SlotsFrom(s, FindSignature(s).value.value, 0, Big(s, FindSignature(s).value.value + 8).value)
    else []
  }

  lemma HeadersSame(s: seq<byte>, t: seq<byte>)
    requires Laid(s) && Agree(s, t, SignatureSlots(s))
    ensures FindSignature(t) == FindSignature(s)
    ensures var signature := FindSignature(s).value.value;
            Big(t, signature) == Big(s, signature) && Big(t, signature + 8) == Big(s, signature + 8)
  {
    hide Agree, Clear, Little, Big, Separate, SignatureOffset, AllRead, SlotsFrom;
    var slots := SignatureSlots(s);
    var end := Max(32, CommandsEnd(s, Little(s, 16).value, 32));
    ClearPart(slots, 0, end, 0, 4);
    ClearPart(slots, 0, end, 16, 20);
    WordSame(s, t, slots, 0);
    WordSame(s, t, slots, 16);
    CommandsSame(s, t, slots, Little(s, 16).value, 32, None, end);
    var signature := FindSignature(s).value.value;
    var count := Big(s, signature + 8).value;
    ClearPart(slots, signature, signature + 12, signature, signature + 4);
    ClearPart(slots, signature, signature + 12, signature + 8, signature + 12);
    WordSame(s, t, slots, signature);
    WordSame(s, t, slots, signature + 8);
  }

  lemma RefreshIsList(s: seq<byte>, t: seq<byte>, hash: Hash)
    requires Laid(s) && Agree(s, t, SignatureSlots(s))
    ensures Refreshed(t, hash) == RefreshList(t, SignatureSlots(s), hash)
  {
    hide Agree, Clear, Little, Big, Separate, FindSignature, AllRead, SlotsFrom, BlobsClear, RefreshBlobs, RefreshList, CommandsEnd;
    HeadersSame(s, t);
    var signature := FindSignature(s).value.value;
    var slots := SignatureSlots(s);
    assert slots == [] + slots;
    BlobsAreList(s, t, slots, [], signature, 0, Big(s, signature + 8).value, hash);
  }

  lemma AgreeSelf(s: seq<byte>, slots: seq<Slot>)
    ensures Agree(s, s, slots)
  {
  }

  /**
   After the refresh every slot holds the hash of its page, only slots have
   changed, a change is reported exactly if there is one, and a second
   refresh does nothing.
   */
  lemma RefreshSettles(s: seq<byte>, hash: Hash)
    requires Laid(s)
    ensures var r := Refreshed(s, hash); var slots := SignatureSlots(s);
            && r.error == None && Agree(s, r.bytes, slots) && (r.changed <==> r.bytes != s)
            && (forall k {:trigger slots[k]} :: 0 <= k < |slots| ==> Holds(r.bytes, slots[k], hash))
            && Refreshed(r.bytes, hash) == Step(r.bytes, false, None)
  {
    hide Agree, SignatureSlots, Refreshed, RefreshList, Holds, Separate, Clear, AllRead, BlobsClear;
    var slots := SignatureSlots(s);
    AgreeSelf(s, slots);
    RefreshIsList(s, s, hash);
    LaidIsSeparate(s);
    ListSettles(s, slots, hash);
    var r := Refreshed(s, hash);
    RefreshIsList(s, r.bytes, hash);
    SettledStays(r.bytes, slots, hash);
  }

  lemma LaidIsSeparate(s: seq<byte>)
    requires Laid(s)
    ensures Separate(SignatureSlots(s), |s|)
  {
    hide Separate, Clear, AllRead, BlobsClear, FindSignature;
  }
}
