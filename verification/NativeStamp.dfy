/** Stamping a signed addon: the stamp, then the refresh of the signature over the stamped bytes, in one write. */
module NativeStamp {
  import opened VersionStamp
  import opened CodeSignature
  import opened Wrappers

  /** Thin or fat Mach-O images, in either byte order. */
  const MACH_O_MAGICS: set<nat> := {0xfeedface, 0xfeedfacf, 0xcefaedfe, 0xcffaedfe, 0xcafebabe, 0xbebafeca}

  predicate IsMachO(s: seq<byte>) {
    Big(s, 0).Ok? && Big(s, 0).value in MACH_O_MAGICS
  }

  datatype Failure = NoStamp(stamp: StampError) | NoSignature(signature: SignatureError)

  /** What becomes of the file: nothing, new bytes, or an error before anything is written. */
  datatype Outcome = Untouched | Written(bytes: seq<byte>) | Failed(failure: Failure)

  function Signed(t: seq<byte>, sign: bool, hash: Hash): Outcome {
    if !sign || !IsMachO(t) then Written(t)
    else
      var r := Refreshed(t, hash);
      if r.error.Some? then Failed(NoSignature(r.error.value)) else Written(r.bytes)
  }

  function StampAndSign(s: seq<byte>, version: seq<byte>, sign: bool, hash: Hash): Outcome {
    match StampOf(s, version)
    case Err(e) => Failed(NoStamp(e))
    case Ok(t) => if t == s then Untouched else Signed(t, sign, hash)
  }

  method StampNativeVersion(bytes: array<byte>, version: seq<byte>, sign: bool, hash: Hash) returns (r: Outcome)
    modifies bytes
    ensures r == StampAndSign(old(bytes[..]), version, sign, hash)
    ensures r.Written? ==> r.bytes == bytes[..]
  {
    hide StampOf, Refreshed;
    var stamped := StampNativeBytes(bytes, version);
    if stamped.Err? {
      return Failed(NoStamp(stamped.error));
    }
    if !stamped.value {
      return Untouched;
    }
    if sign && IsMachO(bytes[..]) {
      var changed, error := RefreshAdhocSignature(bytes, hash);
      if error.Some? {
        return Failed(NoSignature(error.value));
      }
    }
    return Written(bytes[..]);
  }

  // ---- a stamp apart from the signature ----

  /** The payload of the stamp, as a range of bytes that may change. */
  function Payload(at: nat): Slot {
    Slot(at + 25, PAYLOAD, Sha256, 0, 0)
  }

  /** Neither the slots nor the payload reach into the headers, nor into each other. */
  ghost predicate LaidApart(s: seq<byte>, at: nat) {
    && Laid(s)
    && var signature := FindSignature(s).value.value;
       var all := SignatureSlots(s) + [Payload(at)];
       && BlobsClear(s, signature, Big(s, signature + 8).value, all)
       && Clear(all, 0, Max(32, CommandsEnd(s, Little(s, 16).value, 32)))
       && Clear(SignatureSlots(s), at, at + SLOT_SIZE)
  }

  lemma {:induction false} SlotsSame(s: seq<byte>, t: seq<byte>, all: seq<Slot>, signature: nat, i: nat, count: nat)
    requires Agree(s, t, all) && BlobsClear(s, signature, count, all) && i <= count
    ensures SlotsFrom(t, signature, i, count) == SlotsFrom(s, signature, i, count)
    decreases count - i
  {
    hide Agree, Clear, ReadBlob, BlobClear;
    if i < count {
      assert BlobClear(s, signature, i, all);
      BlobSame(s, t, all, signature, i);
      SlotsSame(s, t, all, signature, i + 1, count);
    }
  }

  lemma ReadSame(s: seq<byte>, t: seq<byte>, all: seq<Slot>, signature: nat, count: nat)
    requires Agree(s, t, all) && BlobsClear(s, signature, count, all)
    ensures AllRead(s, signature, count) <==> AllRead(t, signature, count)
  {
    hide Agree, Clear, ReadBlob, BlobClear;
    forall i: nat | i < count ensures ReadBlob(t, signature, i) == ReadBlob(s, signature, i) {
      assert BlobClear(s, signature, i, all);
      BlobSame(s, t, all, signature, i);
    }
  }

  lemma {:induction false} EndSame(s: seq<byte>, t: seq<byte>, all: seq<Slot>, left: nat, cursor: nat, end: nat)
    requires Agree(s, t, all) && Clear(all, 0, end) && CommandsEnd(s, left, cursor) <= end
    ensures CommandsEnd(t, left, cursor) == CommandsEnd(s, left, cursor)
    decreases left
  {
    hide Agree, Clear, Little;
    if left > 0 {
      ClearPart(all, 0, end, cursor + 4, cursor + 8);
      WordSame(s, t, all, cursor + 4);
      if Little(s, cursor + 4).Ok? {
        EndSame(s, t, all, left - 1, cursor + Little(s, cursor + 4).value, end);
      }
    }
  }

  lemma SomeOf(slots: seq<Slot>, extra: Slot, p: nat)
    ensures InSome(slots + [extra], p) <==> InSome(slots, p) || InSlot(extra, p)
  {
    ConcatSome(slots, [extra], p);
    assert InSome([extra], p) <==> InSlot([extra][0], p);
  }

  /** Bytes that differ in the payload and in slots only describe the same signature. */
  lemma HeadersKept(s: seq<byte>, t: seq<byte>, at: nat)
    requires LaidApart(s, at) && Agree(s, t, SignatureSlots(s) + [Payload(at)])
    ensures FindSignature(t) == FindSignature(s) && SignatureSlots(t) == SignatureSlots(s) && Laid(t)
  {
    hide Agree, Clear, Little, Big, Separate, SignatureOffset, AllRead, SlotsFrom, BlobClear, CommandsEnd, InSome;
    var slots := SignatureSlots(s);
    var all := slots + [Payload(at)];
    var left := Little(s, 16).value;
    var end := Max(32, CommandsEnd(s, left, 32));
    ClearPart(all, 0, end, 0, 4);
    ClearPart(all, 0, end, 16, 20);
    WordSame(s, t, all, 0);
    WordSame(s, t, all, 16);
    CommandsSame(s, t, all, left, 32, None, end);
    EndSame(s, t, all, left, 32, end);
    var signature := FindSignature(s).value.value;
    var count := Big(s, signature + 8).value;
    ClearPart(all, signature, signature + 12, signature, signature + 4);
    ClearPart(all, signature, signature + 12, signature + 8, signature + 12);
    WordSame(s, t, all, signature);
    WordSame(s, t, all, signature + 8);
    SlotsSame(s, t, all, signature, 0, count);
    ReadSame(s, t, all, signature, count);
    AgreeLength(s, t, all);
    BlobsStayClear(s, t, all, slots, signature, count);
  }

  lemma AgreeLength(s: seq<byte>, t: seq<byte>, slots: seq<Slot>)
    requires Agree(s, t, slots)
    ensures |s| == |t|
  {
  }

  lemma BlobsStayClear(s: seq<byte>, t: seq<byte>, all: seq<Slot>, slots: seq<Slot>, signature: nat, count: nat)
    requires Agree(s, t, all) && BlobsClear(s, signature, count, all) && BlobsClear(s, signature, count, slots)
    ensures BlobsClear(t, signature, count, slots)
  {
    hide Agree, Clear, Big;
    forall i: nat | i < count ensures BlobClear(t, signature, i, slots) {
      assert BlobClear(s, signature, i, all) && BlobClear(s, signature, i, slots);
      WordSame(s, t, all, BlobEntry(signature, i));
    }
  }

  /** The refresh forgets what the slots held before it. */
  lemma SameRefresh(s: seq<byte>, t: seq<byte>, hash: Hash)
    requires Laid(s) && Agree(s, t, SignatureSlots(s))
    ensures Refreshed(t, hash).bytes == Refreshed(s, hash).bytes
    ensures Refreshed(t, hash).error == None && Refreshed(s, hash).error == None
  {
    hide *;
    var slots := SignatureSlots(s);
    AgreeSelf(s, slots);
    RefreshIsList(s, s, hash);
    RefreshIsList(s, t, hash);
    LaidIsSeparate(s);
    AgreeLength(s, t, slots);
    ListSettles(s, slots, hash);
    ListSettles(t, slots, hash);
    SettledAlike(s, t, RefreshList(s, slots, hash).bytes, RefreshList(t, slots, hash).bytes, slots, hash);
  }

  lemma SettledAlike(s: seq<byte>, t: seq<byte>, u: seq<byte>, v: seq<byte>, slots: seq<Slot>, hash: Hash)
    requires Separate(slots, |s|) && Agree(s, t, slots) && Agree(s, u, slots) && Agree(t, v, slots)
    requires forall k {:trigger slots[k]} :: 0 <= k < |slots| ==> Holds(u, slots[k], hash) && Holds(v, slots[k], hash)
    ensures u == v
  {
    hide Digest, Part, Sized;
    assert forall p: nat :: p < |s| && !InSome(slots, p) ==> u[p] == v[p];
    forall p: nat | p < |s| ensures u[p] == v[p] {
      if InSome(slots, p) {
        var k: nat :| k < |slots| && InSlot(slots[k], p);
        var slot := slots[k];
        assert Sized(slot, |s|);
        SameDigest(u, v, slots, k, |s|, hash);
        SizedFits(slot, |s|);
        PartInside(u, slot.at, slot.at + slot.size);
        PartInside(v, slot.at, slot.at + slot.size);
        assert u[slot.at..slot.at + slot.size][p - slot.at] == v[slot.at..slot.at + slot.size][p - slot.at];
      }
    }
  }

  lemma SizedFits(slot: Slot, length: nat)
    requires Sized(slot, length)
    ensures slot.at + slot.size <= length
  {
  }

  lemma SameDigest(u: seq<byte>, v: seq<byte>, slots: seq<Slot>, k: nat, length: nat, hash: Hash)
    requires Separate(slots, length) && k < |slots| && |u| == |v| == length
    requires forall p: nat :: p < length && !InSome(slots, p) ==> u[p] == v[p]
    ensures Digest(u, slots[k], hash) == Digest(v, slots[k], hash)
  {
    hide Part, Sized;
    var slot := slots[k];
    forall p: nat | slot.from <= p < slot.to ensures !InSome(slots, p) {
      forall j | 0 <= j < |slots| ensures !InSlot(slots[j], p) {
        assert HashesApart(slot, slots[j]);
      }
    }
    PartSame(u, v, slot.from, slot.to);
  }

  // ---- the whole run ----

  lemma StampAgrees(s: seq<byte>, at: nat, version: seq<byte>, slots: seq<Slot>)
    requires at + SLOT_SIZE <= |s| && |version| <= PAYLOAD
    ensures Agree(s, Stamped(s, at, version), slots + [Payload(at)])
  {
    hide Padded;
    MagicSize();
    var t := Stamped(s, at, version);
    forall p: nat | p < |s| && !InSome(slots + [Payload(at)], p) ensures t[p] == s[p] {
      SomeOf(slots, Payload(at), p);
      StampKeepsTheRest(s, at, version, p);
    }
  }

  lemma LaidIsMachO(s: seq<byte>)
    requires Laid(s)
    ensures IsMachO(s)
  {
    hide Separate, Clear, AllRead, BlobsClear, SignatureOffset, SlotsFrom, CommandsEnd;
    assert Little(s, 0) == Ok(MH_MAGIC_64);
    LittleMagic(s[0], s[1], s[2], s[3]);
  }

  lemma LittleMagic(a: byte, b: byte, c: byte, d: byte)
    requires Word(d, c, b, a) == MH_MAGIC_64
    ensures Word(a, b, c, d) == 0xcffaedfe
  {
    assert d == 0xfe && c == 0xed && b == 0xfa && a == 0xcf;
  }

  /**
   A signed addon stamped anew: the version reads back, every slot holds the
   hash of its page as stamped, and only the payload and the slots changed.
   */
  lemma SignedStamp(s: seq<byte>, version: seq<byte>, hash: Hash)
    requires StampOf(s, version).Ok? && StampOf(s, version).value != s && LaidApart(s, SlotOf(s).value)
    ensures var at := SlotOf(s).value;
            && StampAndSign(s, version, true, hash) == Written(Refreshed(StampOf(s, version).value, hash).bytes)
            && var u := Refreshed(StampOf(s, version).value, hash).bytes;
               && |u| == |s| && UpToZero(u[at + |MAGIC|..at + SLOT_SIZE]) == version
               && SignatureSlots(u) == SignatureSlots(s)
               && (forall k {:trigger SignatureSlots(s)[k]} :: 0 <= k < |SignatureSlots(s)| ==> Holds(u, SignatureSlots(s)[k], hash))
               && Agree(s, u, SignatureSlots(s) + [Payload(at)])
  {
    hide *;
    StampIs(s, version);
    var at, t := SlotOf(s).value, StampOf(s, version).value;
    StampAgrees(s, at, version, SignatureSlots(s));
    HeadersKept(s, t, at);
    LaidIsMachO(t);
    RefreshSettles(t, hash);
    SignedIs(s, version, t, hash);
    var u := Refreshed(t, hash).bytes;
    AgreeTwice(s, t, u, at);
    HeadersKept(s, u, at);
    StampReadsBack(s, version);
    AgreeLength(t, u, SignatureSlots(s));
    PayloadStays(s, t, u, at);
  }

  lemma StampIs(s: seq<byte>, version: seq<byte>)
    requires StampOf(s, version).Ok?
    ensures SlotOf(s).Ok? && VersionError(version) == None && |version| < PAYLOAD && |MAGIC| == 25 && SLOT_SIZE == 25 + PAYLOAD
    ensures SlotOf(s).value + SLOT_SIZE <= |s| && StampOf(s, version).value == Stamped(s, SlotOf(s).value, version)
    ensures |Stamped(s, SlotOf(s).value, version)| == |s|
  {
    hide IndexFrom, Stamped;
    MagicSize();
  }

  lemma SignedIs(s: seq<byte>, version: seq<byte>, t: seq<byte>, hash: Hash)
    requires StampOf(s, version) == Ok(t) && t != s && IsMachO(t) && Refreshed(t, hash).error == None
    ensures StampAndSign(s, version, true, hash) == Written(Refreshed(t, hash).bytes)
  {
    hide StampOf, Refreshed, IsMachO;
  }

  lemma AgreeTwice(s: seq<byte>, t: seq<byte>, u: seq<byte>, at: nat)
    requires Agree(s, t, SignatureSlots(s) + [Payload(at)]) && Agree(t, u, SignatureSlots(s))
    ensures Agree(s, u, SignatureSlots(s) + [Payload(at)])
  {
    hide SignatureSlots, InSome;
    var slots := SignatureSlots(s);
    forall p: nat | p < |s| && !InSome(slots + [Payload(at)], p) ensures u[p] == s[p] {
      SomeOf(slots, Payload(at), p);
      assert t[p] == s[p];
    }
  }

  lemma PayloadStays(s: seq<byte>, t: seq<byte>, u: seq<byte>, at: nat)
    requires LaidApart(s, at) && Agree(t, u, SignatureSlots(s)) && at + SLOT_SIZE <= |t|
    ensures |MAGIC| == 25 && u[at + |MAGIC|..at + SLOT_SIZE] == t[at + |MAGIC|..at + SLOT_SIZE]
  {
    hide Laid, SignatureSlots, InSome, BlobsClear;
    MagicSize();
    var slots := SignatureSlots(s);
    forall p: nat | at <= p < at + SLOT_SIZE ensures u[p] == t[p] {
      assert !InSome(slots, p);
    }
  }

  lemma Restamped(s: seq<byte>, u: seq<byte>, at: nat, version: seq<byte>, slots: seq<Slot>)
    requires at + SLOT_SIZE <= |s| && |version| <= PAYLOAD && Agree(s, u, slots + [Payload(at)])
    ensures |u| == |s| && Agree(Stamped(s, at, version), Stamped(u, at, version), slots)
  {
    hide InSome, Padded;
    MagicSize();
    var t, v := Stamped(s, at, version), Stamped(u, at, version);
    forall p: nat | p < |s| && !InSome(slots, p) ensures v[p] == t[p] {
      SomeOf(slots, Payload(at), p);
      if p < at + 25 || p >= at + SLOT_SIZE {
        StampKeepsTheRest(s, at, version, p);
        StampKeepsTheRest(u, at, version, p);
        assert u[p] == s[p];
      } else {
        assert t[at + 25..at + SLOT_SIZE] == Padded(version) == v[at + 25..at + SLOT_SIZE];
        assert t[p] == t[at + 25..at + SLOT_SIZE][p - at - 25];
        assert v[p] == v[at + 25..at + SLOT_SIZE][p - at - 25];
      }
    }
  }

  // ---- what the digests put into the image ----

  /** The image with the digest of every page, as the image has it, in its slot. */
  function Filled(t: seq<byte>, slots: seq<Slot>, hash: Hash): (r: seq<byte>)
    ensures |r| == |t|
  {
    if slots == [] then t
    else
      var last := slots[|slots| - 1];
      var before, digest := Filled(t, slots[..|slots| - 1], hash), Digest(t, last, hash);
      if last.at + |digest| <= |before| then Put(before, last.at, digest) else before
  }

  lemma InitSeparate(slots: seq<Slot>, length: nat)
    requires Separate(slots, length) && slots != []
    ensures Separate(slots[..|slots| - 1], length)
  {
    hide Sized, Apart, HashesApart;
    var init := slots[..|slots| - 1];
    forall a | 0 <= a < |init| ensures Sized(init[a], length) {
      assert Sized(slots[a], length);
    }
    forall a, b | 0 <= a < b < |init| ensures Apart(init[a], init[b]) {
      assert Apart(slots[a], slots[b]);
    }
    forall a, b | 0 <= a < |init| && 0 <= b < |init| ensures HashesApart(init[a], init[b]) {
      assert HashesApart(slots[a], slots[b]);
    }
  }

  lemma PutIs(s: seq<byte>, slot: Slot, digest: seq<byte>)
    requires slot.at + |digest| <= |s| && |digest| == slot.size
    ensures Agree(s, Put(s, slot.at, digest), [slot]) && Part(Put(s, slot.at, digest), slot.at, slot.at + slot.size) == digest
  {
    var t := Put(s, slot.at, digest);
    PartInside(t, slot.at, slot.at + slot.size);
    forall p: nat | p < |s| && !InSome([slot], p) ensures t[p] == s[p] {
      assert !InSlot([slot][0], p);
    }
  }

  /** Filling changes slots only, and leaves each with the digest of its page. */
  lemma {:induction false} FilledIs(t: seq<byte>, slots: seq<Slot>, hash: Hash)
    requires Separate(slots, |t|)
    ensures Agree(t, Filled(t, slots, hash), slots)
    ensures forall k {:trigger slots[k]} :: 0 <= k < |slots| ==>
              Part(Filled(t, slots, hash), slots[k].at, slots[k].at + slots[k].size) == Digest(t, slots[k], hash)
    decreases |slots|
  {
    hide Digest, Part, Put, Sized, Apart, HashesApart, Agree;
    if slots == [] {
      NothingChanged(t);
    } else {
      var n := |slots| - 1;
      var init, last := slots[..n], slots[n];
      InitSeparate(slots, |t|);
      FilledIs(t, init, hash);
      var before, digest := Filled(t, init, hash), Digest(t, last, hash);
      assert Sized(last, |t|);
      SizedFits(last, |t|);
      DigestSize(t, last, hash);
      PutIs(before, last, digest);
      var after := Put(before, last.at, digest);
      assert Filled(t, slots, hash) == after;
      AgreeSnoc(t, before, after, init, last);
      assert slots == init + [last];
      forall k | 0 <= k < n ensures Part(after, slots[k].at, slots[k].at + slots[k].size) == Digest(t, slots[k], hash) {
        assert init[k] == slots[k] && Apart(slots[k], slots[n]);
        ApartStays(before, after, slots[k], last);
      }
    }
  }

  lemma AgreeSnoc(s: seq<byte>, t: seq<byte>, u: seq<byte>, init: seq<Slot>, last: Slot)
    requires Agree(s, t, init) && Agree(t, u, [last])
    ensures Agree(s, u, init + [last])
  {
    hide InSome;
    forall p: nat | p < |s| && !InSome(init + [last], p) ensures u[p] == s[p] {
      ConcatSome(init, [last], p);
      assert t[p] == s[p];
    }
  }

  lemma ApartStays(s: seq<byte>, t: seq<byte>, slot: Slot, other: Slot)
    requires Agree(s, t, [other]) && Apart(slot, other)
    ensures Part(t, slot.at, slot.at + slot.size) == Part(s, slot.at, slot.at + slot.size)
  {
    hide Part;
    forall p: nat | slot.at <= p < slot.at + slot.size ensures !InSome([other], p) {
      assert !InSlot([other][0], p);
    }
    PartSame(s, t, slot.at, slot.at + slot.size);
  }

  /** The refresh, page after page in place, comes to filling in all digests at once. */
  lemma RefreshedIsFilled(t: seq<byte>, hash: Hash)
    requires Laid(t)
    ensures Refreshed(t, hash).bytes == Filled(t, SignatureSlots(t), hash)
  {
    hide *;
    var slots := SignatureSlots(t);
    AgreeSelf(t, slots);
    RefreshIsList(t, t, hash);
    LaidIsSeparate(t);
    ListSettles(t, slots, hash);
    FilledIs(t, slots, hash);
    FilledHolds(t, slots, hash);
    SettledAlike(t, t, RefreshList(t, slots, hash).bytes, Filled(t, slots, hash), slots, hash);
  }

  lemma FilledHolds(t: seq<byte>, slots: seq<Slot>, hash: Hash)
    requires Separate(slots, |t|) && Agree(t, Filled(t, slots, hash), slots)
    requires forall k {:trigger slots[k]} :: 0 <= k < |slots| ==>
               Part(Filled(t, slots, hash), slots[k].at, slots[k].at + slots[k].size) == Digest(t, slots[k], hash)
    ensures forall k {:trigger slots[k]} :: 0 <= k < |slots| ==> Holds(Filled(t, slots, hash), slots[k], hash)
  {
    hide Digest, Part, Filled, Separate;
    var u := Filled(t, slots, hash);
    forall k | 0 <= k < |slots| ensures Holds(u, slots[k], hash) {
      SameDigest(t, u, slots, k, |t|, hash);
    }
  }

  // ---- stamping a signed image again ----

  /** Where the magic would stand, some slot has a byte. */
  ghost predicate MeetsSlot(slots: seq<Slot>, i: nat) {
    exists p: nat {:trigger InSome(slots, p)} :: i <= p < i + 25 && InSome(slots, p)
  }

  /** With the digests filled in, the magic stands in a slot or across the edge of one. */
  ghost predicate DigestsSpellMagic(t: seq<byte>, slots: seq<Slot>, hash: Hash) {
    exists i: nat {:trigger MeetsSlot(slots, i)} :: MeetsSlot(slots, i) && OccursAt(Filled(t, slots, hash), MAGIC, i)
  }

  /** Neither the version nor the digests of the stamped image bring the magic in a second time. */
  ghost predicate MagicStaysAlone(s: seq<byte>, version: seq<byte>, hash: Hash)
    requires StampOf(s, version).Ok?
  {
    !Contains(version, MAGIC) && !DigestsSpellMagic(StampOf(s, version).value, SignatureSlots(s), hash)
  }

  lemma AloneMeans(s: seq<byte>, version: seq<byte>, hash: Hash)
    requires StampOf(s, version).Ok?
    ensures MagicStaysAlone(s, version, hash)
       <==> !Contains(version, MAGIC) && !DigestsSpellMagic(StampOf(s, version).value, SignatureSlots(s), hash)
  {
    hide StampOf, Contains, DigestsSpellMagic;
  }

  /** Away from the slots the magic stands where it stood. */
  lemma AwayFromSlots(t: seq<byte>, u: seq<byte>, slots: seq<Slot>, i: nat)
    requires Agree(t, u, slots) && !MeetsSlot(slots, i)
    ensures OccursAt(u, MAGIC, i) <==> OccursAt(t, MAGIC, i)
  {
    hide InSome;
    MagicSize();
    if i + 25 <= |t| {
      forall p: nat | i <= p < i + 25 ensures u[p] == t[p] {
        assert !InSome(slots, p);
      }
      assert u[i..i + 25] == t[i..i + 25];
    }
  }

  lemma InsideIsAway(slots: seq<Slot>, at: nat, i: nat)
    requires Clear(slots, at, at + SLOT_SIZE) && at <= i && i + 25 <= at + SLOT_SIZE
    ensures !MeetsSlot(slots, i)
  {
    hide InSome;
  }

  /** After stamp and refresh the magic is at the stamp alone, exactly if neither the version nor the digests bring it in. */
  lemma OnlyStampHasMagic(s: seq<byte>, at: nat, first: seq<byte>, slots: seq<Slot>, hash: Hash)
    requires SlotOf(s) == Ok(at) && VersionError(first) == None && Clear(slots, at, at + SLOT_SIZE)
    requires Agree(Stamped(s, at, first), Filled(Stamped(s, at, first), slots, hash), slots)
    requires at + SLOT_SIZE <= |s| && |first| < PAYLOAD && |MAGIC| == 25 && SLOT_SIZE == 25 + PAYLOAD
    ensures var u := Filled(Stamped(s, at, first), slots, hash);
      if Contains(first, MAGIC) || DigestsSpellMagic(Stamped(s, at, first), slots, hash) then SlotOf(u) == Err(MagicRepeated)
      else SlotOf(u) == Ok(at)
  {
    hide Stamped, Filled, SlotOf, OccursAt, Agree, Clear, IndexFrom, MeetsSlot;
    var t := Stamped(s, at, first);
    var u := Filled(t, slots, hash);
    OccurrencesAfter(s, at, first, at);
    InsideIsAway(slots, at, at);
    AwayFromSlots(t, u, slots, at);
    NoneBelow(first);
    NoneBelow(u);
    forall i: nat | !MeetsSlot(slots, i) ensures OccursAt(u, MAGIC, i) <==> i == at || (i >= at + 25 && OccursAt(first, MAGIC, i - at - 25)) {
      AwayFromSlots(t, u, slots, i);
      OccurrencesAfter(s, at, first, i);
    }
    if Contains(first, MAGIC) {
      var j: int :| OccursAt(first, MAGIC, j);
      FitsIn(first, j);
      InsideIsAway(slots, at, at + 25 + j);
      TwoOccurrences(u, at, at + 25 + j);
    } else if DigestsSpellMagic(t, slots, hash) {
      var i: nat :| MeetsSlot(slots, i) && OccursAt(u, MAGIC, i);
      if i < at {
        TwoOccurrences(u, i, at);
      } else {
        TwoOccurrences(u, at, i);
      }
    } else {
      AgreeLength(t, u, slots);
      OnlySlot(u, at);
    }
  }

  lemma FitsIn(version: seq<byte>, j: int)
    requires OccursAt(version, MAGIC, j)
    ensures 0 <= j && j + |MAGIC| <= |version|
  {
  }

  /** The file after a run; none if the run fails. */
  function FileAfter(before: seq<byte>, outcome: Outcome): Option<seq<byte>> {
    match outcome
    case Untouched => Some(before)
    case Written(bytes) => Some(bytes)
    case Failed(_) => None
  }

  /** The second stamp over a signed image whose magic is still at the stamp alone. */
  lemma RestampOverSigned(s: seq<byte>, first: seq<byte>, second: seq<byte>, at: nat, u: seq<byte>, hash: Hash)
    requires StampOf(s, first).Ok? && SlotOf(s) == Ok(at) && LaidApart(s, at) && VersionError(second) == None
    requires u == Refreshed(Stamped(s, at, first), hash).bytes && SlotOf(u) == Ok(at)
    requires |MAGIC| == 25 && |second| < PAYLOAD && |first| < PAYLOAD && at + SLOT_SIZE <= |s|
    requires Agree(s, u, SignatureSlots(s) + [Payload(at)]) && Laid(Stamped(s, at, first))
    ensures FileAfter(u, StampAndSign(u, second, true, hash)) == Some(Refreshed(Stamped(s, at, second), hash).bytes)
  {
    hide *;
    var slots := SignatureSlots(s);
    MagicSize();
    ValidStamps(u, second, at);
    var t, v := Stamped(s, at, second), Stamped(u, at, second);
    Restamped(s, u, at, second, slots);
    StampAgrees(s, at, second, slots);
    HeadersKept(s, t, at);
    SameRefresh(t, v, hash);
    if v == u {
      RefreshSettles(Stamped(s, at, first), hash);
      UntouchedIs(u, second, hash);
      AfterUntouched(u);
      StepBytes(u);
    } else {
      AgreeTwice(s, t, v, at);
      HeadersKept(s, v, at);
      LaidIsMachO(v);
      SignedIs(u, second, v, hash);
      AfterWritten(u, Refreshed(v, hash).bytes);
    }
  }

  lemma ValidStamps(u: seq<byte>, version: seq<byte>, at: nat)
    requires VersionError(version) == None && SlotOf(u) == Ok(at) && |MAGIC| == 25 && |version| < PAYLOAD
    ensures at + SLOT_SIZE <= |u| && StampOf(u, version) == Ok(Stamped(u, at, version))
  {
    hide IndexFrom, Stamped;
    MagicSize();
  }

  lemma UntouchedIs(u: seq<byte>, version: seq<byte>, hash: Hash)
    requires StampOf(u, version) == Ok(u)
    ensures StampAndSign(u, version, true, hash) == Untouched
  {
    hide StampOf;
  }

  lemma AfterUntouched(u: seq<byte>)
    ensures FileAfter(u, Untouched) == Some(u)
  {
  }

  lemma AfterWritten(u: seq<byte>, bytes: seq<byte>)
    ensures FileAfter(u, Written(bytes)) == Some(bytes)
  {
  }

  lemma StepBytes(u: seq<byte>)
    ensures Step(u, false, None).bytes == u
  {
  }

  lemma RepeatedFails(u: seq<byte>, version: seq<byte>, hash: Hash)
    requires VersionError(version) == None && SlotOf(u) == Err(MagicRepeated)
    ensures StampAndSign(u, version, true, hash) == Failed(NoStamp(MagicRepeated))
    ensures FileAfter(u, StampAndSign(u, version, true, hash)) == None
  {
    hide SlotOf;
  }

  lemma VersionFits(version: seq<byte>)
    requires VersionError(version) == None
    ensures |version| < PAYLOAD
  {
  }

  /**
   Stamping and signing a stamped and signed addon again leaves, byte for
   byte, the original stamped with the second version and refreshed, if and
   only if the first version does not hold the magic and no digest of the
   first image spells it, in its slot or across the edge; otherwise the second
   run fails and writes nothing.
   */
  lemma RestampSigned(s: seq<byte>, first: seq<byte>, second: seq<byte>, hash: Hash)
    requires StampOf(s, first).Ok? && StampOf(s, first).value != s && LaidApart(s, SlotOf(s).value)
    requires VersionError(second) == None
    ensures StampOf(s, second).Ok? && StampAndSign(s, first, true, hash).Written?
    ensures var u, again := StampAndSign(s, first, true, hash).bytes, Refreshed(StampOf(s, second).value, hash).bytes;
      var alone := MagicStaysAlone(s, first, hash);
      && (FileAfter(u, StampAndSign(u, second, true, hash)) == Some(again) <==> alone)
      && (!alone ==> StampAndSign(u, second, true, hash) == Failed(NoStamp(MagicRepeated)))
  {
    hide *;
    StampIs(s, first);
    VersionFits(second);
    var at, slots, t := SlotOf(s).value, SignatureSlots(s), StampOf(s, first).value;
    SlotIsOk(s, at);
    ValidStamps(s, second, at);
    SignedStamp(s, first, hash);
    StampAgrees(s, at, first, slots);
    HeadersKept(s, t, at);
    RefreshedIsFilled(t, hash);
    LaidIsSeparate(t);
    FilledIs(t, slots, hash);
    SlotsClearStamp(s, at);
    OnlyStampHasMagic(s, at, first, slots, hash);
    var u := Refreshed(t, hash).bytes;
    WrittenBytes(u);
    AloneMeans(s, first, hash);
    if Contains(first, MAGIC) || DigestsSpellMagic(t, slots, hash) {
      RepeatedFails(u, second, hash);
    } else {
      RestampOverSigned(s, first, second, at, u, hash);
    }
  }

  lemma SlotIsOk(s: seq<byte>, at: nat)
    requires SlotOf(s).Ok? && SlotOf(s).value == at
    ensures SlotOf(s) == Ok(at)
  {
    hide SlotOf;
  }

  lemma SlotsClearStamp(s: seq<byte>, at: nat)
    requires LaidApart(s, at)
    ensures Clear(SignatureSlots(s), at, at + SLOT_SIZE)
  {
    hide Laid, Clear, SignatureSlots, BlobsClear;
  }

  lemma WrittenBytes(u: seq<byte>)
    ensures Written(u).Written? && Written(u).bytes == u
  {
  }
}
