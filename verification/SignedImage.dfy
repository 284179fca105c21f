/** A whole signed image: after the refresh every page hash in it is the hash of the bytes of its page. */
module SignedImage {
  import opened CodeSignature
  import opened SignatureLayout
  import opened Wrappers

  datatype Image = Image(
    cputype: Word32, cpusubtype: Word32, filetype: Word32, sizeofcmds: Word32, flags: Word32, reserved: Word32,
    before: seq<Command>, offset: Word32, size: Word32, after: seq<Command>, length: Word32, entries: seq<Entry>)

  function Commands(m: Image): seq<Command> {
    m.before + [SignatureCommand(m.offset, m.size)] + m.after
  }

  function HeaderWords(m: Image): (r: seq<Word32>)
    requires |Commands(m)| < 0x1_0000_0000
    ensures |r| == 8
  {
    [MH_MAGIC_64, m.cputype, m.cpusubtype, m.filetype, |Commands(m)|, m.sizeofcmds, m.flags, m.reserved]
  }

  /** The counts fit their fields, and the signature command is the last of its kind. */
  ghost predicate Fits(m: Image) {
    && AreCommands(Commands(m)) && |Commands(m)| < 0x1_0000_0000 && |m.entries| < 0x1_0000_0000
    && (forall i {:trigger m.after[i]} :: 0 <= i < |m.after| ==> m.after[i].OtherCommand?)
  }

  function BlobAt(m: Image, i: nat): nat
    requires i < |m.entries|
  {
    m.offset + m.entries[i].offset
  }

  ghost predicate EntryStands(s: seq<byte>, m: Image, i: nat)
    requires i < |m.entries|
  {
    && BytesAt(s, BlobAt(m, i), BlobBytes(m.entries[i].blob))
    && (m.entries[i].blob.OtherBlob? ==> m.entries[i].blob.magic != CODE_DIRECTORY)
  }

  /** The bytes hold the parts of the image; what they hold elsewhere does not matter. */
  ghost predicate IsImage(s: seq<byte>, m: Image) {
    && Fits(m)
    && BytesAt(s, 0, LittleWords(HeaderWords(m)))
    && BytesAt(s, 32, CommandsBytes(Commands(m)))
    && BytesAt(s, m.offset, BigWords(SignatureWords(m.length, m.entries)))
    && forall i: nat {:trigger EntryStands(s, m, i)} :: i < |m.entries| ==> EntryStands(s, m, i)
  }

  predicate Signs(m: Image, i: nat) {
    i < |m.entries| && m.entries[i].blob.CodeBlob?
  }

  function Fields(m: Image, i: nat): CodeDirectory
    requires Signs(m, i)
  {
    m.entries[i].blob.directory
  }

  /** Where the hash of a page stands. */
  function HashAt(m: Image, i: nat, page: nat): nat
    requires Signs(m, i)
  {
    BlobAt(m, i) + Fields(m, i).hashOffset + page * Fields(m, i).hashSize
  }

  function BlobEnd(m: Image, i: nat): nat
    requires i < |m.entries|
  {
    if Signs(m, i) then HashAt(m, i, Fields(m, i).codeSlots) else BlobAt(m, i)
  }

  /**
   As linkers lay an ad-hoc signature out: commands, then the code, then the
   signature; in it the index, then the blobs in order, the hashes of each
   code directory after its fields.
   */
  ghost predicate BlobLinked(s: seq<byte>, m: Image, i: nat)
    requires i < |m.entries|
  {
    && m.offset + 12 + 8 * |m.entries| <= BlobAt(m, i) <= BlobEnd(m, i) <= |s|
    && (forall j: nat {:trigger BlobAt(m, j)} :: i < j < |m.entries| ==> BlobEnd(m, i) <= BlobAt(m, j))
    && (Signs(m, i) ==>
          && IsAdhoc(Fields(m, i)) && KnownHash(Fields(m, i))
          && Fields(m, i).hashOffset >= 40 && Fields(m, i).codeLimit <= m.offset)
  }

  ghost predicate Linked(s: seq<byte>, m: Image)
    requires Fits(m)
  {
    && 32 + |CommandsBytes(Commands(m))| <= m.offset
    && forall i: nat {:trigger BlobLinked(s, m, i)} :: i < |m.entries| ==> BlobLinked(s, m, i)
  }

  // ---- writing such an image ----

  /** An image with one code directory: header, commands, code, index, fields, other data and room for the page hashes. */
  function ImageBytes(m: Image, code: seq<byte>, d: CodeDirectory, data: seq<byte>, hashes: seq<byte>): seq<byte>
    requires AreCommands(Commands(m)) && |Commands(m)| < 0x1_0000_0000 && |m.entries| < 0x1_0000_0000
  {
    LittleWords(HeaderWords(m)) + CommandsBytes(Commands(m)) + code
      + BigWords(SignatureWords(m.length, m.entries)) + DirectoryBytes(d) + data + hashes
  }

  lemma PartStands(before: seq<byte>, part: seq<byte>, after: seq<byte>)
    ensures BytesAt(before + part + after, |before|, part)
  {
  }

  /** What is written like this is an image as linkers lay it out. */
  lemma WrittenImage(m: Image, code: seq<byte>, d: CodeDirectory, data: seq<byte>, hashes: seq<byte>)
    requires Fits(m) && m.entries == [Entry(0, 20, CodeBlob(d))]
    requires m.offset == 32 + |CommandsBytes(Commands(m))| + |code|
    requires IsAdhoc(d) && KnownHash(d) && d.codeLimit <= m.offset
    requires d.hashOffset == 40 + |data| && |hashes| == d.codeSlots * d.hashSize
    ensures var s := ImageBytes(m, code, d, data, hashes); IsImage(s, m) && Linked(s, m)
  {
    hide BytesAt, BigWords, LittleWords, CommandsBytes, SignatureWords, DirectoryBytes, HeaderWords, AreCommands, IsAdhoc, KnownHash;
    var header, commands, index := LittleWords(HeaderWords(m)), CommandsBytes(Commands(m)), BigWords(SignatureWords(m.length, m.entries));
    var s := ImageBytes(m, code, d, data, hashes);
    assert s == [] + header + (commands + code + index + DirectoryBytes(d) + data + hashes);
    PartStands([], header, commands + code + index + DirectoryBytes(d) + data + hashes);
    assert s == header + commands + (code + index + DirectoryBytes(d) + data + hashes);
    PartStands(header, commands, code + index + DirectoryBytes(d) + data + hashes);
    assert s == header + commands + code + index + (DirectoryBytes(d) + data + hashes);
    PartStands(header + commands + code, index, DirectoryBytes(d) + data + hashes);
    assert s == header + commands + code + index + DirectoryBytes(d) + (data + hashes);
    PartStands(header + commands + code + index, DirectoryBytes(d), data + hashes);
    assert BlobAt(m, 0) == |header + commands + code + index|;
    assert EntryStands(s, m, 0) && BlobLinked(s, m, 0);
  }

  // ---- the slots of an image ----

  function SlotIn(m: Image, i: nat, page: nat): Slot
    requires Signs(m, i)
  {
    SlotAt(DirectoryAt(Fields(m, i), BlobAt(m, i)), page)
  }

  /** The slots of the image from the i-th blob on. */
  function ImageSlots(m: Image, i: nat): seq<Slot>
    requires i <= |m.entries|
    decreases |m.entries| - i
  {
    if i == |m.entries| then []
    else (if Signs(m, i) then SlotsOf(DirectoryAt(Fields(m, i), BlobAt(m, i))) else []) + ImageSlots(m, i + 1)
  }

  lemma BlobReadsBack(s: seq<byte>, m: Image, i: nat)
    requires IsImage(s, m) && Linked(s, m) && i < |m.entries|
    ensures Big(s, BlobEntry(m.offset, i)) == Ok(m.entries[i].offset)
    ensures ReadBlob(s, m.offset, i) == Ok(if Signs(m, i) then Some(DirectoryAt(Fields(m, i), BlobAt(m, i))) else None)
  {
    hide Big, BytesAt, ReadDirectory, BlobEntry, BigWords, DirectoryBytes, SignatureWords, BigBytes, IsAdhoc, KnownHash, LittleWords, CommandsBytes;
    IndexReadsBack(s, m.offset, m.length, m.entries);
    assert EntryStands(s, m, i) && BlobLinked(s, m, i);
    match m.entries[i].blob
    case CodeBlob(d) => DirectoryReadsBack(s, BlobAt(m, i), d);
    case OtherBlob(magic) => OtherBlobReadsBack(s, BlobAt(m, i), magic);
  }

  lemma {:induction false} SlotsReadBack(s: seq<byte>, m: Image, i: nat)
    requires IsImage(s, m) && Linked(s, m) && i <= |m.entries|
    ensures SlotsFrom(s, m.offset, i, |m.entries|) == ImageSlots(m, i)
    decreases |m.entries| - i
  {
    hide IsImage, Linked, ReadBlob, DirectoryAt;
    if i < |m.entries| {
      BlobReadsBack(s, m, i);
      SlotsReadBack(s, m, i + 1);
    }
  }

  lemma {:induction false} LastOf(before: seq<Command>, c: Command, after: seq<Command>, found: Option<nat>)
    requires c.SignatureCommand? && forall i {:trigger after[i]} :: 0 <= i < |after| ==> after[i].OtherCommand?
    ensures LastSignature(before + [c] + after, found) == Some(c.offset)
    decreases |before|
  {
    var all := before + [c] + after;
    if before == [] {
      assert all[1..] == after;
      NoneAfter(after, Some(c.offset));
    } else {
      assert all[1..] == before[1..] + [c] + after;
      LastOf(before[1..], c, after, if before[0].SignatureCommand? then Some(before[0].offset) else found);
    }
  }

  lemma {:induction false} NoneAfter(after: seq<Command>, found: Option<nat>)
    requires forall i {:trigger after[i]} :: 0 <= i < |after| ==> after[i].OtherCommand?
    ensures LastSignature(after, found) == found
  {
    if after != [] {
      assert forall i :: 0 <= i < |after[1..]| ==> after[1..][i] == after[i + 1];
      NoneAfter(after[1..], found);
    }
  }

  /** Header and commands are read as what was laid out. */
  lemma ImageReadsBack(s: seq<byte>, m: Image)
    requires IsImage(s, m)
    ensures FindSignature(s) == Ok(Some(m.offset))
    ensures CommandsEnd(s, |Commands(m)|, 32) <= 48 + |CommandsBytes(Commands(m))| && Little(s, 16) == Ok(|Commands(m)|)
    ensures Big(s, m.offset) == Ok(EMBEDDED_SIGNATURE) && Big(s, m.offset + 8) == Ok(|m.entries|)
  {
    hide Little, Big, BytesAt, LittleWords, BigWords, CommandsBytes, SignatureWords, AreCommands;
    var words := HeaderWords(m);
    ReadsLittleWord(s, 0, words, 0);
    ReadsLittleWord(s, 0, words, 4);
    CommandsReadBack(s, 32, Commands(m), None);
    LastOf(m.before, SignatureCommand(m.offset, m.size), m.after, None);
    IndexReadsBack(s, m.offset, m.length, m.entries);
  }

  // ---- slots apart ----

  /** Slots between two places, of proper size, hashing nothing at or after `code`. */
  ghost predicate Within(slots: seq<Slot>, lo: nat, hi: nat, code: nat) {
    forall k {:trigger slots[k]} :: 0 <= k < |slots| ==>
      && lo <= slots[k].at && slots[k].at + slots[k].size <= hi && slots[k].to <= code && Sized(slots[k], hi)
  }

  lemma {:induction false} InOrder(size: nat, p: nat, q: nat)
    requires p < q
    ensures p * size + size <= q * size
    decreases q
  {
    assert q * size == (q - 1) * size + size;
    if p < q - 1 {
      InOrder(size, p, q - 1);
    }
  }

  lemma DirectorySlots(s: seq<byte>, m: Image, i: nat)
    requires Signs(m, i) && BlobLinked(s, m, i)
    ensures var slots := SlotsOf(DirectoryAt(Fields(m, i), BlobAt(m, i)));
      && Within(slots, BlobAt(m, i) + 40, BlobEnd(m, i), m.offset)
      && forall a, b {:trigger slots[a], slots[b]} :: 0 <= a < b < |slots| ==> slots[a].at + slots[a].size <= slots[b].at
  {
    hide Pow2, IsAdhoc;
    var d := DirectoryAt(Fields(m, i), BlobAt(m, i));
    var slots := SlotsOf(d);
    forall k | 0 <= k < |slots|
      ensures BlobAt(m, i) + 40 <= slots[k].at && slots[k].at + slots[k].size <= BlobEnd(m, i)
      ensures slots[k].to <= m.offset && Sized(slots[k], BlobEnd(m, i))
    {
      InOrder(d.size, k, d.count);
    }
    forall a, b | 0 <= a < b < |slots| ensures slots[a].at + slots[a].size <= slots[b].at {
      InOrder(d.size, a, b);
    }
  }

  ghost predicate Ascending(slots: seq<Slot>) {
    forall a, b {:trigger slots[a], slots[b]} :: 0 <= a < b < |slots| ==> slots[a].at + slots[a].size <= slots[b].at
  }

  lemma AscendingConcat(a: seq<Slot>, b: seq<Slot>, lo: nat, mid: nat, hi: nat, code: nat)
    requires Ascending(a) && Ascending(b) && Within(a, lo, mid, code) && Within(b, mid, hi, code) && lo <= mid <= hi
    ensures Ascending(a + b) && Within(a + b, lo, hi, code)
  {
    var all := a + b;
    forall k | 0 <= k < |all|
      ensures lo <= all[k].at && all[k].at + all[k].size <= hi && all[k].to <= code && Sized(all[k], hi)
    {
      assert if k < |a| then all[k] == a[k] else all[k] == b[k - |a|];
    }
    forall i, j | 0 <= i < j < |all| ensures all[i].at + all[i].size <= all[j].at {
      assert if i < |a| then all[i] == a[i] else all[i] == b[i - |a|];
      assert if j < |a| then all[j] == a[j] else all[j] == b[j - |a|];
    }
  }

  lemma Widen(slots: seq<Slot>, lo: nat, hi: nat, code: nat, lower: nat)
    requires Within(slots, lo, hi, code) && lower <= lo
    ensures Within(slots, lower, hi, code)
  {
  }

  lemma {:induction false} SlotsWithin(s: seq<byte>, m: Image, i: nat, lo: nat)
    requires IsImage(s, m) && Linked(s, m) && i <= |m.entries|
    requires forall j {:trigger BlobAt(m, j)} :: i <= j < |m.entries| ==> lo <= BlobAt(m, j) + 40
    ensures Within(ImageSlots(m, i), lo, |s|, m.offset) && Ascending(ImageSlots(m, i))
    decreases |m.entries| - i
  {
    hide IsImage, Within, Ascending, DirectoryAt, BlobAt, BlobEnd, Fields, CommandsBytes;
    if i == |m.entries| {
      NothingWithin(lo, |s|, m.offset);
    } else {
      assert BlobLinked(s, m, i);
      if Signs(m, i) {
        var own := SlotsOf(DirectoryAt(Fields(m, i), BlobAt(m, i)));
        DirectorySlots(s, m, i);
        EndIsAfter(s, m, i);
        assert lo <= BlobAt(m, i) + 40;
        SlotsWithin(s, m, i + 1, BlobEnd(m, i));
        IsAscending(own);
        Widen(own, BlobAt(m, i) + 40, BlobEnd(m, i), m.offset, lo);
        AscendingConcat(own, ImageSlots(m, i + 1), lo, BlobEnd(m, i), |s|, m.offset);
      } else {
        SlotsWithin(s, m, i + 1, lo);
        assert [] + ImageSlots(m, i + 1) == ImageSlots(m, i + 1);
      }
    }
  }

  lemma EndIsAfter(s: seq<byte>, m: Image, i: nat)
    requires i < |m.entries| && BlobLinked(s, m, i) && Signs(m, i)
    ensures BlobAt(m, i) + 40 <= BlobEnd(m, i) <= |s|
  {
    var d := Fields(m, i);
    assert d.codeSlots * d.hashSize >= 0;
  }

  lemma IsAscending(slots: seq<Slot>)
    requires forall a, b {:trigger slots[a], slots[b]} :: 0 <= a < b < |slots| ==> slots[a].at + slots[a].size <= slots[b].at
    ensures Ascending(slots)
  {
  }

  lemma NothingWithin(lo: nat, hi: nat, code: nat)
    ensures Within([], lo, hi, code) && Ascending([])
  {
  }

  lemma WithinIsSeparate(slots: seq<Slot>, lo: nat, hi: nat, code: nat)
    requires Within(slots, lo, hi, code) && Ascending(slots) && code <= lo
    ensures Separate(slots, hi)
  {
    forall a, b | 0 <= a < |slots| && 0 <= b < |slots| ensures HashesApart(slots[a], slots[b]) {
      assert slots[a].to <= code && lo <= slots[b].at;
    }
  }

  lemma WithinIsClear(slots: seq<Slot>, lo: nat, hi: nat, code: nat, from: nat, to: nat)
    requires Within(slots, lo, hi, code) && (to <= lo || hi <= from)
    ensures Clear(slots, from, to)
  {
    forall p: nat | from <= p < to ensures !InSome(slots, p) {
    }
  }

  lemma ClearConcat(a: seq<Slot>, b: seq<Slot>, from: nat, to: nat)
    requires Clear(a, from, to) && Clear(b, from, to)
    ensures Clear(a + b, from, to)
  {
    hide InSome;
    forall p: nat | from <= p < to ensures !InSome(a + b, p) {
      ConcatSome(a, b, p);
    }
  }

  /** No slot reaches into the fields of a code directory. */
  lemma {:induction false} FieldsClear(s: seq<byte>, m: Image, k: nat, i: nat)
    requires IsImage(s, m) && Linked(s, m) && k <= |m.entries| && i < |m.entries|
    ensures Clear(ImageSlots(m, k), BlobAt(m, i), BlobAt(m, i) + 40)
    decreases |m.entries| - k
  {
    hide IsImage, Within, Clear, DirectoryAt, CommandsBytes, SlotsOf, BlobEnd, BlobAt;
    if k == |m.entries| {
      NothingWithin(BlobAt(m, i) + 40, 0, 0);
      WithinIsClear([], BlobAt(m, i) + 40, 0, 0, BlobAt(m, i), BlobAt(m, i) + 40);
    } else {
      assert BlobLinked(s, m, k) && BlobLinked(s, m, i);
      FieldsClear(s, m, k + 1, i);
      if Signs(m, k) {
        var own := SlotsOf(DirectoryAt(Fields(m, k), BlobAt(m, k)));
        DirectorySlots(s, m, k);
        assert k < i ==> BlobEnd(m, k) <= BlobAt(m, i);
        assert i < k ==> BlobAt(m, i) <= BlobAt(m, k);
        WithinIsClear(own, BlobAt(m, k) + 40, BlobEnd(m, k), m.offset, BlobAt(m, i), BlobAt(m, i) + 40);
        ClearConcat(own, ImageSlots(m, k + 1), BlobAt(m, i), BlobAt(m, i) + 40);
      } else {
        assert [] + ImageSlots(m, k + 1) == ImageSlots(m, k + 1);
      }
    }
  }

  /** An image laid out like this is one that the refresh settles. */
  lemma ImageIsLaid(s: seq<byte>, m: Image)
    requires IsImage(s, m) && Linked(s, m)
    ensures Laid(s) && SignatureSlots(s) == ImageSlots(m, 0)
  {
    hide IsImage, Within, Ascending, Clear, Separate, ReadBlob, Big, Little, CommandsBytes, FindSignature, ImageSlots, SlotsFrom, CommandsEnd, BlobAt;
    var slots, n := ImageSlots(m, 0), |m.entries|;
    var lo := m.offset + 52 + 8 * n;
    ImageReadsBack(s, m);
    SlotsReadBack(s, m, 0);
    FitsCount(s, m);
    forall j | 0 <= j < n ensures lo <= BlobAt(m, j) + 40 {
      assert BlobLinked(s, m, j);
    }
    SlotsWithin(s, m, 0, lo);
    WithinIsSeparate(slots, lo, |s|, m.offset);
    WithinIsClear(slots, lo, |s|, m.offset, 0, Max(32, CommandsEnd(s, |Commands(m)|, 32)));
    WithinIsClear(slots, lo, |s|, m.offset, m.offset, m.offset + 12);
    forall i: nat | i < n ensures ReadBlob(s, m.offset, i).Ok? && BlobClear(s, m.offset, i, slots) {
      BlobReadsBack(s, m, i);
      WithinIsClear(slots, lo, |s|, m.offset, BlobEntry(m.offset, i), BlobEntry(m.offset, i) + 4);
      FieldsClear(s, m, 0, i);
      BlobAtIs(m, i);
    }
  }

  lemma FitsCount(s: seq<byte>, m: Image)
    requires IsImage(s, m)
    ensures |Commands(m)| < 0x1_0000_0000
  {
  }

  lemma BlobAtIs(m: Image, i: nat)
    requires i < |m.entries|
    ensures BlobAt(m, i) == m.offset + m.entries[i].offset
  {
  }

  // ---- the image after changes elsewhere ----

  lemma BytesStay(s: seq<byte>, u: seq<byte>, slots: seq<Slot>, at: nat, part: seq<byte>)
    requires Agree(s, u, slots) && Clear(slots, at, at + |part|) && BytesAt(s, at, part)
    ensures BytesAt(u, at, part)
  {
    forall p: nat | at <= p < at + |part| ensures u[p] == s[p] {
      assert !InSome(slots, p);
    }
    assert u[at..at + |part|] == s[at..at + |part|];
  }

  /** Changes outside header, commands, index and fields leave the image the same. */
  lemma StillImage(s: seq<byte>, u: seq<byte>, m: Image, slots: seq<Slot>)
    requires IsImage(s, m) && Linked(s, m) && Agree(s, u, slots)
    requires Clear(slots, 0, 32 + |CommandsBytes(Commands(m))|) && Clear(slots, m.offset, m.offset + 12 + 8 * |m.entries|)
    requires forall i {:trigger BlobAt(m, i)} :: 0 <= i < |m.entries| ==> Clear(slots, BlobAt(m, i), BlobAt(m, i) + 40)
    ensures IsImage(u, m) && Linked(u, m)
  {
    hide Agree, Clear, BytesAt, BigWords, LittleWords, CommandsBytes, SignatureWords, BlobAt, HeaderWords, AreCommands, DirectoryBytes, BigBytes;
    ClearPart(slots, 0, 32 + |CommandsBytes(Commands(m))|, 0, 32);
    ClearPart(slots, 0, 32 + |CommandsBytes(Commands(m))|, 32, 32 + |CommandsBytes(Commands(m))|);
    BytesStay(s, u, slots, 0, LittleWords(HeaderWords(m)));
    BytesStay(s, u, slots, 32, CommandsBytes(Commands(m)));
    BytesStay(s, u, slots, m.offset, BigWords(SignatureWords(m.length, m.entries)));
    SameLength(s, u, slots);
    forall i: nat | i < |m.entries| ensures EntryStands(u, m, i) && BlobLinked(u, m, i) {
      assert EntryStands(s, m, i) && BlobLinked(s, m, i);
      ClearPart(slots, BlobAt(m, i), BlobAt(m, i) + 40, BlobAt(m, i), BlobAt(m, i) + |BlobBytes(m.entries[i].blob)|);
      BytesStay(s, u, slots, BlobAt(m, i), BlobBytes(m.entries[i].blob));
      LinkedStays(s, u, m, i);
    }
  }

  lemma SameLength(s: seq<byte>, u: seq<byte>, slots: seq<Slot>)
    requires Agree(s, u, slots)
    ensures |s| == |u|
  {
  }

  lemma LinkedStays(s: seq<byte>, u: seq<byte>, m: Image, i: nat)
    requires i < |m.entries| && BlobLinked(s, m, i) && |s| == |u|
    ensures BlobLinked(u, m, i)
  {
  }

  // ---- pages and their hashes ----

  function PageSize(d: CodeDirectory): nat {
    Pow2(d.pageBits)
  }

  /** The byte belongs to the page: pages are of one size, but the last ends with the code. */
  predicate InPage(d: CodeDirectory, page: nat, x: nat) {
    page * PageSize(d) <= x < (page + 1) * PageSize(d) && x < d.codeLimit
  }

  /** Page sizes are powers of two. */
  lemma {:induction false} PowersOfTwo(a: nat, b: nat)
    ensures Pow2(0) == 1 && Pow2(1) == 2 && Pow2(a + b) == Pow2(a) * Pow2(b) && Pow2(a) > 0
  {
    if a > 0 {
      PowersOfTwo(a - 1, b);
    } else {
      PowerIsPositive(b);
    }
  }

  lemma {:induction false} PowerIsPositive(a: nat)
    ensures Pow2(a) > 0
  {
    if a > 0 {
      PowerIsPositive(a - 1);
    }
  }

  lemma PageOf(size: nat, x: nat) returns (page: nat)
    requires size > 0
    ensures page * size <= x < (page + 1) * size
  {
    page := x / size;
    assert x == x / size * size + x % size;
  }

  lemma PageIsUnique(size: nat, x: nat, p: nat, q: nat)
    requires p * size <= x < (p + 1) * size && q * size <= x < (q + 1) * size
    ensures p == q
  {
    if p < q {
      InOrder(size, p, q);
    } else if q < p {
      InOrder(size, q, p);
    }
  }

  /** With as many slots as the code has pages, every byte of the code is in exactly one page that has a slot. */
  lemma PagesPartition(d: CodeDirectory, x: nat) returns (page: nat)
    requires x < d.codeLimit <= d.codeSlots * PageSize(d)
    ensures page < d.codeSlots && InPage(d, page, x)
    ensures forall other: nat {:trigger InPage(d, other, x)} :: InPage(d, other, x) ==> other == page
  {
    hide Pow2;
    PowerIsPositive(d.pageBits);
    page := PageOf(PageSize(d), x);
    if page >= d.codeSlots {
      MultiplesGrow(PageSize(d), d.codeSlots, page);
      assert false;
    }
    forall other: nat | InPage(d, other, x) ensures other == page {
      PageIsUnique(PageSize(d), x, other, page);
    }
  }

  lemma {:induction false} MultiplesGrow(size: nat, p: nat, q: nat)
    requires p <= q
    ensures p * size <= q * size
  {
    if p < q {
      InOrder(size, p, q);
    }
  }

  /** The bytes of a page: of the one that ends with the code, up to there; of one after the code, none. */
  function PageBytes(s: seq<byte>, d: CodeDirectory, page: nat): (r: seq<byte>)
    requires d.codeLimit <= |s|
    ensures forall x :: 0 <= x < |s| && InPage(d, page, x) ==>
              0 <= x - page * PageSize(d) < |r| && r[x - page * PageSize(d)] == s[x]
    ensures forall i {:trigger r[i]} :: 0 <= i < |r| ==> InPage(d, page, page * PageSize(d) + i)
  {
    var from, to := page * PageSize(d), (page + 1) * PageSize(d);
    assert to == from + PageSize(d);
    if from >= d.codeLimit then [] else if to < d.codeLimit then s[from..to] else s[from..d.codeLimit]
  }

  /** The hash of the page stands where the directory says: as many of its bytes as the directory stores. */
  ghost predicate PageHashed(s: seq<byte>, m: Image, i: nat, page: nat, hash: Hash)
    requires Signs(m, i)
  {
    var d, at := Fields(m, i), HashAt(m, i, page);
    && KnownHash(d) && d.codeLimit <= |s| && at + d.hashSize <= |s|
    && s[at..at + d.hashSize] == hash(HashAlgorithm(d), PageBytes(s, d, page))[..d.hashSize]
  }

  /** The hash of every page of every code directory stands where it should. */
  ghost predicate AllHashed(s: seq<byte>, m: Image, hash: Hash) {
    forall i: nat, page: nat {:trigger PageHashed(s, m, i, page, hash)} ::
      Signs(m, i) && page < Fields(m, i).codeSlots ==> PageHashed(s, m, i, page, hash)
  }

  /** The byte belongs to a page hash. */
  ghost predicate InHash(m: Image, x: nat) {
    exists i: nat, page: nat {:trigger HashAt(m, i, page)} ::
      Signs(m, i) && page < Fields(m, i).codeSlots && HashAt(m, i, page) <= x < HashAt(m, i, page) + Fields(m, i).hashSize
  }

  lemma {:induction false} SlotListed(m: Image, k: nat, i: nat, page: nat) returns (at: nat)
    requires k <= i && Signs(m, i) && page < Fields(m, i).codeSlots
    ensures at < |ImageSlots(m, k)| && ImageSlots(m, k)[at] == SlotIn(m, i, page)
    decreases i - k
  {
    hide DirectoryAt, BlobAt, SlotAt;
    var own := if Signs(m, k) then SlotsOf(DirectoryAt(Fields(m, k), BlobAt(m, k))) else [];
    if k == i {
      DirectoryCount(m, i);
      at := page;
    } else {
      at := SlotListed(m, k + 1, i, page);
      at := |own| + at;
    }
  }

  lemma DirectoryCount(m: Image, i: nat)
    requires Signs(m, i)
    ensures DirectoryAt(Fields(m, i), BlobAt(m, i)).count == Fields(m, i).codeSlots
  {
  }

  lemma {:induction false} SomeSlotIsHash(m: Image, k: nat, x: nat)
    requires k <= |m.entries| && InSome(ImageSlots(m, k), x)
    ensures InHash(m, x)
    decreases |m.entries| - k
  {
    hide DirectoryAt, BlobAt, SlotAt, SlotsOf, InSome, InHash;
    if k == |m.entries| {
      NoneInSome(x);
    } else {
      var own := if Signs(m, k) then SlotsOf(DirectoryAt(Fields(m, k), BlobAt(m, k))) else [];
      ConcatSome(own, ImageSlots(m, k + 1), x);
      if InSome(ImageSlots(m, k + 1), x) {
        SomeSlotIsHash(m, k + 1, x);
      } else {
        NoneInSome(x);
        OwnSlotIsHash(m, k, x);
      }
    }
  }

  lemma NoneInSome(x: nat)
    ensures !InSome([], x)
  {
  }

  lemma OwnSlotIsHash(m: Image, i: nat, x: nat)
    requires Signs(m, i) && InSome(SlotsOf(DirectoryAt(Fields(m, i), BlobAt(m, i))), x)
    ensures InHash(m, x)
  {
    hide Pow2;
    var slots := SlotsOf(DirectoryAt(Fields(m, i), BlobAt(m, i)));
    var page :| 0 <= page < |slots| && InSlot(slots[page], x);
    assert HashAt(m, i, page) <= x < HashAt(m, i, page) + Fields(m, i).hashSize;
  }

  /** A slot that holds its hash is a page that is hashed. */
  lemma HeldIsHashed(s: seq<byte>, m: Image, i: nat, page: nat, hash: Hash)
    requires Signs(m, i) && BlobLinked(s, m, i) && m.offset <= |s| && page < Fields(m, i).codeSlots
    requires Holds(s, SlotIn(m, i, page), hash)
    ensures PageHashed(s, m, i, page, hash)
  {
    hide Pow2, IsAdhoc;
    var d, slot := Fields(m, i), SlotIn(m, i, page);
    InOrder(d.hashSize, page, d.codeSlots);
    assert HashAt(m, i, page) == slot.at && slot.size == d.hashSize && slot.algorithm == HashAlgorithm(d);
    PartInside(s, slot.at, slot.at + slot.size);
    SlotHashesPage(s, m, i, page);
    var digest := hash(slot.algorithm, PageBytes(s, d, page));
    PartInside(digest, 0, slot.size);
  }

  /** What the slot of a page is the hash of. */
  lemma SlotHashesPage(s: seq<byte>, m: Image, i: nat, page: nat)
    requires Signs(m, i) && Fields(m, i).codeLimit <= |s|
    ensures var slot := SlotIn(m, i, page); Part(s, slot.from, slot.to) == PageBytes(s, Fields(m, i), page)
  {
    hide Pow2;
    var d, slot := Fields(m, i), SlotIn(m, i, page);
    assert (page + 1) * PageSize(d) == page * PageSize(d) + PageSize(d);
  }

  /**
   Refreshing an image laid out by a linker: no error; afterwards every page
   hash of every code directory is the hash of the bytes of its page; no
   other byte has changed; it is still the same image.
   */
  lemma RefreshedImage(s: seq<byte>, m: Image, hash: Hash)
    requires IsImage(s, m) && Linked(s, m)
    ensures var r := Refreshed(s, hash);
      && r.error == None && (r.changed <==> r.bytes != s) && AllHashed(r.bytes, m, hash)
      && (forall x: nat {:trigger r.bytes[x]} :: x < |s| && !InHash(m, x) ==> r.bytes[x] == s[x])
      && IsImage(r.bytes, m) && Linked(r.bytes, m)
  {
    hide *;
    ImageIsLaid(s, m);
    RefreshSettles(s, hash);
    var u := Refreshed(s, hash).bytes;
    SlotsStay(s, u, m);
    ListedAreHashed(u, m, hash);
    OthersStay(s, u, m);
  }

  lemma SlotsStay(s: seq<byte>, u: seq<byte>, m: Image)
    requires IsImage(s, m) && Linked(s, m) && Agree(s, u, ImageSlots(m, 0))
    ensures IsImage(u, m) && Linked(u, m)
  {
    hide IsImage, Within, Ascending, Clear, CommandsBytes, ImageSlots, BlobAt, Agree;
    var slots, n := ImageSlots(m, 0), |m.entries|;
    var lo := m.offset + 52 + 8 * n;
    forall j | 0 <= j < n ensures lo <= BlobAt(m, j) + 40 && Clear(slots, BlobAt(m, j), BlobAt(m, j) + 40) {
      assert BlobLinked(s, m, j);
      FieldsClear(s, m, 0, j);
    }
    SlotsWithin(s, m, 0, lo);
    FitsImage(s, m);
    WithinIsClear(slots, lo, |s|, m.offset, 0, 32 + |CommandsBytes(Commands(m))|);
    WithinIsClear(slots, lo, |s|, m.offset, m.offset, m.offset + 12 + 8 * n);
    StillImage(s, u, m, slots);
  }

  lemma FitsImage(s: seq<byte>, m: Image)
    requires IsImage(s, m)
    ensures Fits(m)
  {
  }

  lemma ListedAreHashed(u: seq<byte>, m: Image, hash: Hash)
    requires IsImage(u, m) && Linked(u, m)
    requires forall k {:trigger ImageSlots(m, 0)[k]} :: 0 <= k < |ImageSlots(m, 0)| ==> Holds(u, ImageSlots(m, 0)[k], hash)
    ensures AllHashed(u, m, hash)
  {
    hide Holds, PageHashed, ImageSlots, SlotIn, KnownHash, IsAdhoc, BytesAt;
    forall i: nat, page: nat | Signs(m, i) && page < Fields(m, i).codeSlots ensures PageHashed(u, m, i, page, hash)
    {
      assert BlobLinked(u, m, i);
      var k := SlotListed(m, 0, i, page);
      SignatureInside(u, m);
      HeldIsHashed(u, m, i, page, hash);
    }
  }

  lemma SignatureInside(u: seq<byte>, m: Image)
    requires IsImage(u, m)
    ensures m.offset <= |u|
  {
  }

  lemma OthersStay(s: seq<byte>, u: seq<byte>, m: Image)
    requires Agree(s, u, ImageSlots(m, 0))
    ensures |s| == |u| && forall x: nat {:trigger u[x]} :: x < |s| && !InHash(m, x) ==> u[x] == s[x]
  {
    hide ImageSlots, InSome, InHash;
    forall x: nat | x < |s| && !InHash(m, x) ensures u[x] == s[x] {
      if InSome(ImageSlots(m, 0), x) {
        SomeSlotIsHash(m, 0, x);
      }
    }
  }
}
