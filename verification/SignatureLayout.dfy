/** A signed image as a linker lays it out, field by field: it is read back as what was written. */
module SignatureLayout {
  import opened CodeSignature
  import opened Wrappers

  // ---- numbers ----

  type Word32 = n: nat | n < 0x1_0000_0000

  function BigBytes(n: Word32): (r: seq<byte>)
    ensures |r| == 4
  {
    [n / 0x100 / 0x100 / 0x100, n / 0x100 / 0x100 % 0x100, n / 0x100 % 0x100, n % 0x100]
  }

  function LittleBytes(n: Word32): (r: seq<byte>)
    ensures |r| == 4
  {
    [n % 0x100, n / 0x100 % 0x100, n / 0x100 / 0x100 % 0x100, n / 0x100 / 0x100 / 0x100]
  }

  /** Words one after the other. */
  function BigWords(words: seq<Word32>): (r: seq<byte>)
    ensures |r| == 4 * |words|
  {
    if words == [] then [] else BigBytes(words[0]) + BigWords(words[1..])
  }

  function LittleWords(words: seq<Word32>): (r: seq<byte>)
    ensures |r| == 4 * |words|
  {
    if words == [] then [] else LittleBytes(words[0]) + LittleWords(words[1..])
  }

  /** The part stands in the bytes at that place. */
  predicate BytesAt(s: seq<byte>, at: nat, part: seq<byte>) {
    at + |part| <= |s| && s[at..at + |part|] == part
  }

  lemma BytesInside(s: seq<byte>, at: nat, part: seq<byte>, from: nat, to: nat)
    requires BytesAt(s, at, part) && from <= to <= |part|
    ensures BytesAt(s, at + from, part[from..to])
  {
    var whole, inner := s[at..at + |part|], part[from..to];
    forall i | 0 <= i < |inner| ensures s[at + from + i] == inner[i] {
      assert whole[from + i] == s[at + (from + i)];
    }
    assert s[at + from..at + from + |inner|] == inner;
  }

  lemma WordOfBytes(n: Word32)
    ensures var b := BigBytes(n); Word(b[0], b[1], b[2], b[3]) == n
    ensures var b := LittleBytes(n); Word(b[3], b[2], b[1], b[0]) == n
  {
  }

  lemma FourBytes(s: seq<byte>, at: nat, part: seq<byte>)
    requires BytesAt(s, at, part) && |part| == 4
    ensures at + 4 <= |s| && s[at] == part[0] && s[at + 1] == part[1] && s[at + 2] == part[2] && s[at + 3] == part[3]
  {
    var whole := s[at..at + 4];
    assert whole[0] == s[at] && whole[1] == s[at + 1] && whole[2] == s[at + 2] && whole[3] == s[at + 3];
  }

  lemma BigReadsBack(s: seq<byte>, at: nat, n: Word32)
    requires BytesAt(s, at, BigBytes(n))
    ensures Big(s, at) == Ok(n)
  {
    hide BigBytes, BytesAt, Word;
    FourBytes(s, at, BigBytes(n));
    WordOfBytes(n);
  }

  lemma LittleReadsBack(s: seq<byte>, at: nat, n: Word32)
    requires BytesAt(s, at, LittleBytes(n))
    ensures Little(s, at) == Ok(n)
  {
    hide LittleBytes, BytesAt, Word;
    FourBytes(s, at, LittleBytes(n));
    WordOfBytes(n);
  }

  lemma {:induction false} BigWordAt(words: seq<Word32>, i: nat)
    requires i < |words|
    ensures BigWords(words)[4 * i..4 * i + 4] == BigBytes(words[i])
  {
    hide BigBytes;
    if i > 0 {
      BigWordAt(words[1..], i - 1);
      assert BigWords(words)[4 * i..4 * i + 4] == BigWords(words[1..])[4 * (i - 1)..4 * (i - 1) + 4];
    }
  }

  lemma {:induction false} LittleWordAt(words: seq<Word32>, i: nat)
    requires i < |words|
    ensures LittleWords(words)[4 * i..4 * i + 4] == LittleBytes(words[i])
  {
    hide LittleBytes;
    if i > 0 {
      LittleWordAt(words[1..], i - 1);
      assert LittleWords(words)[4 * i..4 * i + 4] == LittleWords(words[1..])[4 * (i - 1)..4 * (i - 1) + 4];
    }
  }

  /** The i-th of the words written at a place is read there. */
  lemma ReadsBigWord(s: seq<byte>, at: nat, words: seq<Word32>, i: nat)
    requires BytesAt(s, at, BigWords(words)) && i < |words|
    ensures Big(s, at + 4 * i) == Ok(words[i])
  {
    hide BigBytes, BigWords, BytesAt, Big;
    BigWordAt(words, i);
    BytesInside(s, at, BigWords(words), 4 * i, 4 * i + 4);
    BigReadsBack(s, at + 4 * i, words[i]);
  }

  lemma ReadsLittleWord(s: seq<byte>, at: nat, words: seq<Word32>, i: nat)
    requires BytesAt(s, at, LittleWords(words)) && i < |words|
    ensures Little(s, at + 4 * i) == Ok(words[i])
  {
    hide LittleBytes, LittleWords, BytesAt, Little;
    LittleWordAt(words, i);
    BytesInside(s, at, LittleWords(words), 4 * i, 4 * i + 4);
    LittleReadsBack(s, at + 4 * i, words[i]);
  }

  // ---- the parts of an image ----

  /** The fields of a code directory, in the order in which they stand. */
  datatype CodeDirectory = CodeDirectory(
    length: Word32, version: Word32, flags: Word32, hashOffset: Word32, identOffset: Word32, specialSlots: Word32,
    codeSlots: Word32, codeLimit: Word32, hashSize: byte, hashType: byte, platform: byte, pageBits: byte)

  function DirectoryWords(d: CodeDirectory): seq<Word32> {
    [CODE_DIRECTORY, d.length, d.version, d.flags, d.hashOffset, d.identOffset, d.specialSlots, d.codeSlots, d.codeLimit]
  }

  function DirectoryBytes(d: CodeDirectory): (r: seq<byte>)
    ensures |r| == 40
  {
    BigWords(DirectoryWords(d)) + [d.hashSize, d.hashType, d.platform, d.pageBits]
  }

  /** A blob of the signature; of one that is no code directory only the magic matters. */
  datatype Blob = CodeBlob(directory: CodeDirectory) | OtherBlob(magic: Word32)

  function BlobBytes(b: Blob): seq<byte> {
    match b
    case CodeBlob(d) => DirectoryBytes(d)
    case OtherBlob(magic) => BigBytes(magic)
  }

  datatype Entry = Entry(kind: Word32, offset: Word32, blob: Blob)

  function IndexWords(entries: seq<Entry>): (r: seq<Word32>)
    ensures |r| == 2 * |entries|
  {
    if entries == [] then [] else [entries[0].kind, entries[0].offset] + IndexWords(entries[1..])
  }

  function SignatureWords(length: Word32, entries: seq<Entry>): (r: seq<Word32>)
    requires |entries| < 0x1_0000_0000
    ensures |r| == 3 + 2 * |entries|
  {
    [EMBEDDED_SIGNATURE, length, |entries|] + IndexWords(entries)
  }

  datatype Command = SignatureCommand(offset: Word32, size: Word32) | OtherCommand(cmd: Word32, body: seq<byte>)

  ghost predicate IsCommand(c: Command) {
    c.OtherCommand? ==> c.cmd != LC_CODE_SIGNATURE && 8 + |c.body| < 0x1_0000_0000
  }

  function CommandBytes(c: Command): (r: seq<byte>)
    requires IsCommand(c)
    ensures |r| >= 8
  {
    match c
    case SignatureCommand(offset, size) => LittleWords([LC_CODE_SIGNATURE, 16, offset, size])
    case OtherCommand(cmd, body) => LittleWords([cmd, 8 + |body|]) + body
  }

  ghost predicate AreCommands(commands: seq<Command>) {
    forall i {:trigger commands[i]} :: 0 <= i < |commands| ==> IsCommand(commands[i])
  }

  function CommandsBytes(commands: seq<Command>): seq<byte>
    requires AreCommands(commands)
  {
    if commands == [] then [] else CommandBytes(commands[0]) + CommandsBytes(commands[1..])
  }

  // ---- what is read back ----

  /** The hash kinds the script knows, with the bytes it stores of each digest. */
  predicate KnownHash(d: CodeDirectory) {
    (d.hashType == 1 && d.hashSize == 20) || (d.hashType == 2 && d.hashSize == 32) || (d.hashType == 3 && d.hashSize == 20)
  }

  predicate IsAdhoc(d: CodeDirectory) {
    d.flags % 4 >= 2
  }

  function HashAlgorithm(d: CodeDirectory): Algorithm {
    if d.hashType == 1 then Sha1 else Sha256
  }

  function DirectoryAt(d: CodeDirectory, cd: nat): Directory {
    Directory(cd, d.hashOffset, d.codeSlots, d.codeLimit, HashAlgorithm(d), d.hashSize, Pow2(d.pageBits))
  }

  lemma DirectoryFields(s: seq<byte>, cd: nat, d: CodeDirectory)
    requires BytesAt(s, cd, DirectoryBytes(d))
    ensures Big(s, cd) == Ok(CODE_DIRECTORY) && Big(s, cd + 12) == Ok(d.flags) && Big(s, cd + 16) == Ok(d.hashOffset)
    ensures Big(s, cd + 28) == Ok(d.codeSlots) && Big(s, cd + 32) == Ok(d.codeLimit)
    ensures cd + 40 <= |s| && s[cd + 36] == d.hashSize && s[cd + 37] == d.hashType && s[cd + 39] == d.pageBits
  {
    hide BigWords, Big, BigBytes;
    var words, all := DirectoryWords(d), DirectoryBytes(d);
    assert all[..36] == BigWords(words);
    BytesInside(s, cd, all, 0, 36);
    ReadsBigWord(s, cd, words, 0);
    ReadsBigWord(s, cd, words, 3);
    ReadsBigWord(s, cd, words, 4);
    ReadsBigWord(s, cd, words, 7);
    ReadsBigWord(s, cd, words, 8);
    BytesInside(s, cd, all, 36, 40);
    assert all[36..40] == [d.hashSize, d.hashType, d.platform, d.pageBits];
    FourBytes(s, cd + 36, all[36..40]);
  }

  /** A code directory is read as what was laid out, or refused for the reason it gives. */
  lemma DirectoryReadsBack(s: seq<byte>, cd: nat, d: CodeDirectory)
    requires BytesAt(s, cd, DirectoryBytes(d))
    ensures ReadDirectory(s, cd) ==
      if !IsAdhoc(d) then Err(SignedByIdentity)
      else if !KnownHash(d) then Err(UnsupportedHash)
      else Ok(Some(DirectoryAt(d, cd)))
  {
    hide Big, BytesAt, DirectoryBytes, Pow2;
    DirectoryFields(s, cd, d);
  }

  lemma OtherBlobReadsBack(s: seq<byte>, cd: nat, magic: Word32)
    requires BytesAt(s, cd, BigBytes(magic)) && magic != CODE_DIRECTORY
    ensures ReadDirectory(s, cd) == Ok(None)
  {
    hide Big, BytesAt;
    BigReadsBack(s, cd, magic);
  }

  lemma {:induction false} IndexWordsAre(entries: seq<Entry>, i: nat)
    requires i < |entries|
    ensures IndexWords(entries)[2 * i + 1] == entries[i].offset
  {
    if i > 0 {
      IndexWordsAre(entries[1..], i - 1);
    }
  }

  /** The number of blobs and the places of all of them are read back. */
  lemma IndexReadsBack(s: seq<byte>, at: nat, length: Word32, entries: seq<Entry>)
    requires |entries| < 0x1_0000_0000 && BytesAt(s, at, BigWords(SignatureWords(length, entries)))
    ensures Big(s, at) == Ok(EMBEDDED_SIGNATURE) && Big(s, at + 8) == Ok(|entries|)
    ensures forall i :: 0 <= i < |entries| ==> Big(s, BlobEntry(at, i)) == Ok(entries[i].offset)
  {
    hide Big, BytesAt, BigWords;
    var words := SignatureWords(length, entries);
    ReadsBigWord(s, at, words, 0);
    ReadsBigWord(s, at, words, 2);
    forall i | 0 <= i < |entries| ensures Big(s, BlobEntry(at, i)) == Ok(entries[i].offset) {
      IndexWordsAre(entries, i);
      ReadsBigWord(s, at, words, 4 + 2 * i);
    }
  }

  /** Where the last signature command points. */
  function LastSignature(commands: seq<Command>, found: Option<nat>): Option<nat> {
    if commands == [] then found
    else LastSignature(commands[1..], if commands[0].SignatureCommand? then Some(commands[0].offset) else found)
  }

  lemma CommandReadsBack(s: seq<byte>, cursor: nat, c: Command)
    requires IsCommand(c) && BytesAt(s, cursor, CommandBytes(c))
    ensures Little(s, cursor + 4) == Ok(|CommandBytes(c)|)
    ensures c.OtherCommand? ==> Little(s, cursor) == Ok(c.cmd)
    ensures c.SignatureCommand? ==> Little(s, cursor) == Ok(LC_CODE_SIGNATURE) && Little(s, cursor + 8) == Ok(c.offset) && Little(s, cursor + 12) == Ok(c.size)
  {
    hide Little, BytesAt, LittleWords;
    match c
    case SignatureCommand(offset, size) =>
      var words := [LC_CODE_SIGNATURE, 16, offset, size];
      ReadsLittleWord(s, cursor, words, 0);
      ReadsLittleWord(s, cursor, words, 1);
      ReadsLittleWord(s, cursor, words, 2);
      ReadsLittleWord(s, cursor, words, 3);
    case OtherCommand(cmd, body) =>
      var words := [cmd, 8 + |body|];
      BytesInside(s, cursor, CommandBytes(c), 0, 8);
      assert CommandBytes(c)[..8] == LittleWords(words);
      ReadsLittleWord(s, cursor, words, 0);
      ReadsLittleWord(s, cursor, words, 1);
  }

  lemma TailCommands(s: seq<byte>, cursor: nat, commands: seq<Command>)
    requires commands != [] && AreCommands(commands) && BytesAt(s, cursor, CommandsBytes(commands))
    ensures IsCommand(commands[0]) && AreCommands(commands[1..])
    ensures BytesAt(s, cursor, CommandBytes(commands[0]))
    ensures BytesAt(s, cursor + |CommandBytes(commands[0])|, CommandsBytes(commands[1..]))
    ensures |CommandsBytes(commands)| == |CommandBytes(commands[0])| + |CommandsBytes(commands[1..])|
  {
    hide BytesAt, CommandBytes;
    assert IsCommand(commands[0]);
    forall i | 0 <= i < |commands[1..]| ensures IsCommand(commands[1..][i]) {
      assert IsCommand(commands[i + 1]);
    }
    var all, first := CommandsBytes(commands), CommandBytes(commands[0]);
    BytesInside(s, cursor, all, 0, |first|);
    BytesInside(s, cursor, all, |first|, |all|);
    assert all[..|first|] == first && all[|first|..|all|] == CommandsBytes(commands[1..]);
  }

  /** The walk over the load commands finds the last signature command and ends where the commands do. */
  lemma {:induction false} CommandsReadBack(s: seq<byte>, cursor: nat, commands: seq<Command>, found: Option<nat>)
    requires AreCommands(commands) && BytesAt(s, cursor, CommandsBytes(commands))
    ensures SignatureOffset(s, |commands|, cursor, found) == Ok(LastSignature(commands, found))
    ensures CommandsEnd(s, |commands|, cursor) <= cursor + |CommandsBytes(commands)| + 16
    decreases |commands|
  {
    hide BytesAt, Little, CommandBytes, IsCommand;
    if commands != [] {
      var c := commands[0];
      TailCommands(s, cursor, commands);
      CommandReadsBack(s, cursor, c);
      OtherIsOther(c);
      CommandsReadBack(s, cursor + |CommandBytes(c)|, commands[1..], if c.SignatureCommand? then Some(c.offset) else found);
    }
  }

  lemma OtherIsOther(c: Command)
    requires IsCommand(c)
    ensures c.OtherCommand? ==> c.cmd != LC_CODE_SIGNATURE
  {
  }
}
