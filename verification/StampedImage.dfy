/** Stamping a signed image: the version reads back, and every page hash is that of the stamped bytes. */
module StampedImage {
  import opened VersionStamp
  import opened CodeSignature
  import opened SignatureLayout
  import opened SignedImage
  import opened NativeStamp
  import opened Wrappers

  /** The stamp stands in the code: after the commands, before the signature. */
  ghost predicate StampInCode(s: seq<byte>, m: Image)
    requires IsImage(s, m)
  {
    && SlotOf(s).Ok? && 32 + |CommandsBytes(Commands(m))| <= SlotOf(s).value
    && SlotOf(s).value + SLOT_SIZE <= m.offset
  }

  predicate InPayload(at: nat, x: nat) {
    at + 25 <= x < at + SLOT_SIZE
  }

  lemma PayloadIsClear(at: nat, from: nat, to: nat)
    requires to <= at + 25 || at + SLOT_SIZE <= from
    ensures Clear([Payload(at)], from, to)
  {
    forall p: nat | from <= p < to ensures !InSome([Payload(at)], p) {
    }
  }

  lemma StampKeepsImage(s: seq<byte>, t: seq<byte>, m: Image, at: nat)
    requires IsImage(s, m) && Linked(s, m) && Agree(s, t, [Payload(at)])
    requires 32 + |CommandsBytes(Commands(m))| <= at && at + SLOT_SIZE <= m.offset
    ensures IsImage(t, m) && Linked(t, m)
  {
    hide IsImage, Agree, Clear, CommandsBytes;
    FitsImage(s, m);
    PayloadIsClear(at, 0, 32 + |CommandsBytes(Commands(m))|);
    PayloadIsClear(at, m.offset, m.offset + 12 + 8 * |m.entries|);
    forall i | 0 <= i < |m.entries| ensures Clear([Payload(at)], BlobAt(m, i), BlobAt(m, i) + 40) {
      PayloadIsClear(at, BlobAt(m, i), BlobAt(m, i) + 40);
    }
    StillImage(s, t, m, [Payload(at)]);
  }

  lemma HashesFollow(m: Image, x: nat)
    requires x < m.offset
    ensures !InHash(m, x)
  {
  }

  /** What the stamp and the refresh change, and that the payload stays as stamped. */
  lemma OnlyPayloadAndHashes(s: seq<byte>, t: seq<byte>, u: seq<byte>, m: Image, at: nat)
    requires Agree(s, t, [Payload(at)]) && |u| == |t| && at + SLOT_SIZE <= m.offset <= |s|
    requires forall x: nat {:trigger u[x]} :: x < |t| && !InHash(m, x) ==> u[x] == t[x]
    ensures forall x: nat {:trigger u[x]} :: x < |s| && !InHash(m, x) && !InPayload(at, x) ==> u[x] == s[x]
    ensures u[at + 25..at + SLOT_SIZE] == t[at + 25..at + SLOT_SIZE]
  {
    hide InHash;
    forall x: nat | x < |s| && !InHash(m, x) && !InPayload(at, x) ensures u[x] == s[x] {
      assert !InSome([Payload(at)], x);
    }
    forall x: nat | x < m.offset ensures u[x] == t[x] {
      HashesFollow(m, x);
    }
  }

  /**
   A signed image stamped anew, as bytes: the file is written, the version
   reads back, each page hash of each code directory is the hash of the bytes
   of its page as stamped, and nothing but the payload and the hashes has
   changed.
   */
  lemma StampedImageIsSigned(s: seq<byte>, m: Image, version: seq<byte>, hash: Hash)
    requires StampOf(s, version).Ok? && StampOf(s, version).value != s
    requires IsImage(s, m) && Linked(s, m) && StampInCode(s, m)
    ensures var at, r := SlotOf(s).value, StampAndSign(s, version, true, hash);
      && r.Written? && |r.bytes| == |s|
      && UpToZero(r.bytes[at + 25..at + SLOT_SIZE]) == version
      && AllHashed(r.bytes, m, hash) && IsImage(r.bytes, m)
      && forall x: nat {:trigger r.bytes[x]} :: x < |s| && !InHash(m, x) && !InPayload(at, x) ==> r.bytes[x] == s[x]
  {
    hide *;
    StampIs(s, version);
    var at, t := SlotOf(s).value, StampOf(s, version).value;
    StampInside(s, m);
    StampAgrees(s, at, version, []);
    assert [] + [Payload(at)] == [Payload(at)];
    StampKeepsImage(s, t, m, at);
    ImageIsLaid(t, m);
    LaidIsMachO(t);
    RefreshedImage(t, m, hash);
    SignedIs(s, version, t, hash);
    var u := Refreshed(t, hash).bytes;
    SignatureInside(s, m);
    OnlyPayloadAndHashes(s, t, u, m, at);
    StampReadsBack(s, version);
    AgreeLength(s, t, [Payload(at)]);
  }

  lemma StampInside(s: seq<byte>, m: Image)
    requires IsImage(s, m) && StampInCode(s, m)
    ensures SlotOf(s).Ok? && 32 + |CommandsBytes(Commands(m))| <= SlotOf(s).value && SlotOf(s).value + SLOT_SIZE <= m.offset
  {
    hide IsImage, CommandsBytes;
  }

  // ---- files without a signature to refresh ----

  /** The first bytes of Mach-O images: 32 and 64 bits and fat ones, in both byte orders. */
  predicate MachOBytes(b: seq<byte>) {
    b in {[0xFE, 0xED, 0xFA, 0xCE], [0xFE, 0xED, 0xFA, 0xCF], [0xCE, 0xFA, 0xED, 0xFE],
          [0xCF, 0xFA, 0xED, 0xFE], [0xCA, 0xFE, 0xBA, 0xBE], [0xBE, 0xBA, 0xFE, 0xCA]}
  }

  lemma WordIs(a: byte, b: byte, c: byte, d: byte, e: byte, f: byte, g: byte, h: byte)
    ensures Word(a, b, c, d) == Word(e, f, g, h) <==> a == e && b == f && c == g && d == h
  {
    LowByte((a * 256 + b) * 256 + c, d, (e * 256 + f) * 256 + g, h);
    LowByte(a * 256 + b, c, e * 256 + f, g);
    LowByte(a, b, e, f);
  }

  lemma LowByte(high: int, low: byte, high2: int, low2: byte)
    ensures high * 256 + low == high2 * 256 + low2 <==> high == high2 && low == low2
  {
  }

  lemma MachOIs(s: seq<byte>)
    requires |s| >= 4
    ensures IsMachO(s) <==> MachOBytes(s[..4])
    ensures Little(s, 0) == Ok(MH_MAGIC_64) <==> s[..4] == [0xCF, 0xFA, 0xED, 0xFE]
  {
    hide Word;
    var a, b, c, d := s[0], s[1], s[2], s[3];
    assert s[..4] == [a, b, c, d];
    MagicWords();
    WordIs(a, b, c, d, 0xFE, 0xED, 0xFA, 0xCE);
    WordIs(a, b, c, d, 0xFE, 0xED, 0xFA, 0xCF);
    WordIs(a, b, c, d, 0xCE, 0xFA, 0xED, 0xFE);
    WordIs(a, b, c, d, 0xCF, 0xFA, 0xED, 0xFE);
    WordIs(a, b, c, d, 0xCA, 0xFE, 0xBA, 0xBE);
    WordIs(a, b, c, d, 0xBE, 0xBA, 0xFE, 0xCA);
    WordIs(d, c, b, a, 0xFE, 0xED, 0xFA, 0xCF);
  }

  lemma MagicWords()
    ensures Word(0xFE, 0xED, 0xFA, 0xCE) == 0xfeedface && Word(0xFE, 0xED, 0xFA, 0xCF) == 0xfeedfacf
    ensures Word(0xCE, 0xFA, 0xED, 0xFE) == 0xcefaedfe && Word(0xCF, 0xFA, 0xED, 0xFE) == 0xcffaedfe
    ensures Word(0xCA, 0xFE, 0xBA, 0xBE) == 0xcafebabe && Word(0xBE, 0xBA, 0xFE, 0xCA) == 0xbebafeca
  {
  }

  /** An image without a signature command. */
  ghost predicate IsUnsigned(s: seq<byte>, words: seq<Word32>, commands: seq<Command>) {
    && |words| == 8 && words[0] == MH_MAGIC_64 && words[4] == |commands| && AreCommands(commands)
    && (forall i {:trigger commands[i]} :: 0 <= i < |commands| ==> commands[i].OtherCommand?)
    && BytesAt(s, 0, LittleWords(words)) && BytesAt(s, 32, CommandsBytes(commands))
  }

  lemma UnsignedIsLeft(s: seq<byte>, words: seq<Word32>, commands: seq<Command>, hash: Hash)
    requires IsUnsigned(s, words, commands)
    ensures Refreshed(s, hash) == Step(s, false, None)
  {
    hide LittleWords, CommandsBytes, BytesAt, Little, SignatureOffset, AreCommands;
    ReadsLittleWord(s, 0, words, 0);
    ReadsLittleWord(s, 0, words, 4);
    CommandsReadBack(s, 32, commands, None);
    NoneAfter(commands, None);
  }

  /** What becomes of a stamped file that has no signature to refresh, by its first bytes. */
  lemma StampedPlainFile(s: seq<byte>, version: seq<byte>, hash: Hash)
    requires StampOf(s, version).Ok? && StampOf(s, version).value != s
    ensures var t := StampOf(s, version).value;
      && |s| >= 4
      && (!MachOBytes(s[..4]) ==> StampAndSign(s, version, true, hash) == Written(t))
      && (MachOBytes(s[..4]) && s[..4] != [0xCF, 0xFA, 0xED, 0xFE] ==>
            StampAndSign(s, version, true, hash) == Failed(NoSignature(NotThin64)))
      && StampAndSign(s, version, false, hash) == Written(t)
      && forall words, commands :: IsUnsigned(t, words, commands) ==> StampAndSign(s, version, true, hash) == Written(t)
  {
    hide IsMachO, StampOf, RefreshBlobs, Little, IsUnsigned, SignatureOffset, MachOBytes;
    var t := StampOf(s, version).value;
    StampIs(s, version);
    FirstBytesStay(s, version);
    MachOIs(t);
    LittleReads(t);
    forall words, commands | IsUnsigned(t, words, commands) ensures StampAndSign(s, version, true, hash) == Written(t) {
      UnsignedIsLeft(t, words, commands, hash);
    }
  }

  lemma LittleReads(s: seq<byte>)
    requires |s| >= 4
    ensures Little(s, 0).Ok?
  {
  }

  lemma FirstBytesStay(s: seq<byte>, version: seq<byte>)
    requires StampOf(s, version).Ok?
    ensures |s| >= 4 && |StampOf(s, version).value| == |s| && StampOf(s, version).value[..4] == s[..4]
  {
    hide Padded;
    MagicSize();
    StampIs(s, version);
  }
}
