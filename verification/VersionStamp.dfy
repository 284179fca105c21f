/** Writing a version into the stamp slot of a linked addon, in place. */
module VersionStamp {
  import opened Wrappers

  /** The text `PI_NATIVES_VERSION_STAMP:`. */
  const MAGIC: seq<byte> :=
    [80, 73, 95, 78, 65, 84, 73, 86, 69, 83, 95, 86, 69, 82, 83, 73, 79, 78, 95, 83, 84, 65, 77, 80, 58]

  /** The last character of the text, which occurs nowhere else in it. */
  const COLON: byte := 58
  const SLOT_SIZE: nat := 64
  const PAYLOAD: nat := 39

  datatype StampError = EmptyVersion | TooLong | ContainsNul | MagicMissing | MagicRepeated | SlotTruncated

  // ---- finding the slot ----

  predicate OccursAt(s: seq<byte>, m: seq<byte>, i: int) {
    0 <= i && i + |m| <= |s| && s[i..i + |m|] == m
  }

  ghost predicate Contains(s: seq<byte>, m: seq<byte>) {
    exists i :: OccursAt(s, m, i)
  }

  function IndexFrom(s: seq<byte>, m: seq<byte>, from: nat): (r: Option<nat>)
    ensures r.Some? ==> r.value >= from && OccursAt(s, m, r.value)
    ensures forall i :: from <= i && OccursAt(s, m, i) ==> r.Some? && r.value <= i
    decreases |s| - from
  {
    if from + |m| > |s| then None
    else if s[from..from + |m|] == m then Some(from)
    else if from == |s| then None
    else IndexFrom(s, m, from + 1)
  }

  method Find(bytes: array<byte>, m: seq<byte>, from: nat) returns (r: Option<nat>)
    ensures r == IndexFrom(bytes[..], m, from)
  {
    var i := from;
    while i + |m| <= bytes.Length
      invariant from <= i
      invariant IndexFrom(bytes[..], m, i) == IndexFrom(bytes[..], m, from)
    {
      assert bytes[..][i..i + |m|] == bytes[i..i + |m|];
      if bytes[i..i + |m|] == m {
        return Some(i);
      }
      if i == bytes.Length {
        return None;
      }
      i := i + 1;
    }
    return None;
  }

  // ---- what a stamp is ----

  function Zeros(n: nat): seq<byte> {
    seq(n, _ => 0)
  }

  function Padded(version: seq<byte>): (r: seq<byte>)
    requires |version| <= PAYLOAD
    ensures |r| == PAYLOAD
  {
    version + Zeros(PAYLOAD - |version|)
  }

  /** The slot at the position holds the version; everything else is as it was. */
  function Stamped(s: seq<byte>, at: nat, version: seq<byte>): (r: seq<byte>)
    requires at + SLOT_SIZE <= |s| && |version| <= PAYLOAD && |MAGIC| + PAYLOAD == SLOT_SIZE
    ensures |r| == |s|
  {
    s[..at + |MAGIC|] + Padded(version) + s[at + SLOT_SIZE..]
  }

  function VersionError(version: seq<byte>): Option<StampError> {
    if |version| == 0 then Some(EmptyVersion)
    else if |version| > PAYLOAD - 1 then Some(TooLong)
    else if 0 in version then Some(ContainsNul)
    else None
  }

  function SlotOf(s: seq<byte>): (r: Result<nat, StampError>)
    ensures r.Ok? ==> OccursAt(s, MAGIC, r.value) && r.value + SLOT_SIZE <= |s|
  {
    var first := IndexFrom(s, MAGIC, 0);
    if first.None? then Err(MagicMissing)
    else if IndexFrom(s, MAGIC, first.value + 1).Some? then Err(MagicRepeated)
    else if first.value + SLOT_SIZE > |s| then Err(SlotTruncated)
    else Ok(first.value)
  }

  lemma MagicSize()
    ensures |MAGIC| == 25 && |MAGIC| + PAYLOAD == SLOT_SIZE
    ensures forall i :: 0 <= i < 25 ==> (MAGIC[i] == COLON <==> i == 24) && MAGIC[i] != 0
  {
  }

  function StampOf(s: seq<byte>, version: seq<byte>): Result<seq<byte>, StampError> {
    var e := VersionError(version);
    if e.Some? then Err(e.value)
    else
      match SlotOf(s)
      case Err(f) => Err(f)
      case Ok(at) => Ok(Stamped(s, at, version))
  }

  /** True if the bytes changed; on an error they are as before. */
  method StampNativeBytes(bytes: array<byte>, version: seq<byte>) returns (r: Result<bool, StampError>)
    modifies bytes
    ensures match StampOf(old(bytes[..]), version)
            case Err(f) => r == Err(f) && bytes[..] == old(bytes[..])
            case Ok(t) => r == Ok(t != old(bytes[..])) && bytes[..] == t
  {
    hide IndexFrom;
    ghost var s := bytes[..];
    if |version| == 0 {
      return Err(EmptyVersion);
    }
    if |version| > PAYLOAD - 1 {
      return Err(TooLong);
    }
    if 0 in version {
      return Err(ContainsNul);
    }
    var first := Find(bytes, MAGIC, 0);
    if first.None? {
      return Err(MagicMissing);
    }
    var second := Find(bytes, MAGIC, first.value + 1);
    if second.Some? {
      return Err(MagicRepeated);
    }
    MagicSize();
    var start, end := first.value + |MAGIC|, first.value + SLOT_SIZE;
    if end > bytes.Length {
      return Err(SlotTruncated);
    }
    var desired := Padded(version);
    SameUnlessPayloadDiffers(s, first.value, version);
    if bytes[start..end] == desired {
      return Ok(false);
    }
    forall i | 0 <= i < PAYLOAD {
      bytes[start + i] := desired[i];
    }
    assert bytes[..] == Stamped(s, first.value, version);
    return Ok(true);
  }

  lemma SameUnlessPayloadDiffers(s: seq<byte>, at: nat, version: seq<byte>)
    requires at + SLOT_SIZE <= |s| && |version| <= PAYLOAD
    ensures Stamped(s, at, version) == s <==> s[at + |MAGIC|..at + SLOT_SIZE] == Padded(version)
  {
    hide Padded;
    MagicSize();
    var a, b := at + |MAGIC|, at + SLOT_SIZE;
    assert s == s[..a] + s[a..b] + s[b..];
    assert Stamped(s, at, version)[a..b] == Padded(version);
  }

  // ---- what a stamp keeps ----

  /** Only the payload after the magic may differ. */
  lemma StampKeepsTheRest(s: seq<byte>, at: nat, version: seq<byte>, i: nat)
    requires at + SLOT_SIZE <= |s| && |version| <= PAYLOAD && i < |s|
    requires i < at + |MAGIC| || i >= at + SLOT_SIZE
    ensures Stamped(s, at, version)[i] == s[i]
  {
    MagicSize();
  }

  /** The version as the addon reads it: up to the first zero of the payload. */
  function UpToZero(s: seq<byte>): seq<byte> {
    if s == [] || s[0] == 0 then [] else [s[0]] + UpToZero(s[1..])
  }

  lemma {:induction false} UpToZeroOf(version: seq<byte>, after: seq<byte>)
    requires 0 !in version && after != [] && after[0] == 0
    ensures UpToZero(version + after) == version
  {
    if version == [] {
      assert version + after == after;
    } else {
      assert (version + after)[1..] == version[1..] + after;
      UpToZeroOf(version[1..], after);
      assert [version[0]] + version[1..] == version;
    }
  }

  /** The stamped version is the one read back. */
  lemma StampReadsBack(s: seq<byte>, version: seq<byte>)
    requires StampOf(s, version).Ok?
    ensures var t := StampOf(s, version).value; var at := SlotOf(s).value;
            UpToZero(t[at + |MAGIC|..at + SLOT_SIZE]) == version
  {
    hide IndexFrom, SlotOf;
    MagicSize();
    var at := SlotOf(s).value;
    assert Stamped(s, at, version)[at + |MAGIC|..at + SLOT_SIZE] == Padded(version);
    UpToZeroOf(version, Zeros(PAYLOAD - |version|));
  }

  // ---- stamping again ----

  lemma CharOf(s: seq<byte>, i: nat, k: nat)
    requires OccursAt(s, MAGIC, i) && k < |MAGIC|
    ensures i + k < |s| && s[i + k] == MAGIC[k]
  {
    assert s[i..i + |MAGIC|][k] == s[i + k];
  }

  /** Two occurrences of the magic cannot overlap: its last character is nowhere else in it. */
  lemma OccurrencesApart(s: seq<byte>, i: nat, j: nat)
    requires OccursAt(s, MAGIC, i) && OccursAt(s, MAGIC, j) && i < j
    ensures i + |MAGIC| <= j
  {
    hide OccursAt;
    MagicSize();
    if j < i + |MAGIC| {
      CharOf(s, i, 24);
      CharOf(s, j, i + 24 - j);
    }
  }

  lemma SlotIsTheOnly(s: seq<byte>, at: nat)
    requires SlotOf(s) == Ok(at)
    ensures forall i :: OccursAt(s, MAGIC, i) <==> i == at
  {
  }

  lemma OnlySlot(s: seq<byte>, at: nat)
    requires at + SLOT_SIZE <= |s| && forall i :: OccursAt(s, MAGIC, i) <==> i == at
    ensures SlotOf(s) == Ok(at)
  {
    hide OccursAt, IndexFrom;
    assert OccursAt(s, MAGIC, at);
  }

  lemma NoMagicAtZero(s: seq<byte>, i: nat, k: nat)
    requires k < |MAGIC| && i + k < |s| && s[i + k] == 0
    ensures !OccursAt(s, MAGIC, i)
  {
    hide OccursAt;
    MagicSize();
    if OccursAt(s, MAGIC, i) {
      CharOf(s, i, k);
    }
  }

  lemma MagicInsideVersion(version: seq<byte>, i: nat)
    requires |version| < PAYLOAD && i + |MAGIC| <= PAYLOAD
    ensures OccursAt(Padded(version), MAGIC, i) <==> OccursAt(version, MAGIC, i)
  {
    MagicSize();
    var p := Padded(version);
    if i + |MAGIC| <= |version| {
      assert p[i..i + |MAGIC|] == version[i..i + |MAGIC|];
    } else {
      assert p[i + 24] == 0;
      NoMagicAtZero(p, i, 24);
    }
  }

  lemma NoneNear(s: seq<byte>, at: nat, i: nat)
    requires OccursAt(s, MAGIC, at) && i != at && at < i + |MAGIC| && i < at + |MAGIC|
    ensures !OccursAt(s, MAGIC, i)
  {
    hide OccursAt;
    if OccursAt(s, MAGIC, i) {
      if i < at {
        OccurrencesApart(s, i, at);
      } else {
        OccurrencesApart(s, at, i);
      }
    }
  }

  /** Where the magic occurs after stamping: at the slot, and wherever the version holds it. */
  lemma OccurrencesAfter(s: seq<byte>, at: nat, version: seq<byte>, i: nat)
    requires SlotOf(s) == Ok(at) && VersionError(version) == None
    ensures OccursAt(Stamped(s, at, version), MAGIC, i)
       <==> i == at || (i >= at + |MAGIC| && OccursAt(version, MAGIC, i - at - |MAGIC|))
  {
    hide IndexFrom, SlotOf, Padded;
    MagicSize();
    StampedAt(s, at, version);
    SlotIsTheOnly(s, at);
    SlotFits(s, at);
    var t := Stamped(s, at, version);
    var a, b := at + |MAGIC|, at + SLOT_SIZE;
    assert t[a..b] == Padded(version);
    assert t[at..a] == s[at..a];
    if i == at {
    } else if i + |MAGIC| <= a || i >= b {
      if i + |MAGIC| <= |s| {
        OutsideSame(s, t, at, version, i);
      }
    } else if i < a {
      NoneNear(t, at, i);
    } else if i + |MAGIC| <= b {
      assert t[i..i + |MAGIC|] == t[a..b][i - a..i - a + |MAGIC|];
      MagicInsideVersion(version, i - a);
    } else {
      LastIsZero(version);
      assert t[b - 1] == t[a..b][PAYLOAD - 1] == 0;
      NoMagicAtZero(t, i, b - 1 - i);
    }
  }

  lemma StampedAt(s: seq<byte>, at: nat, version: seq<byte>)
    requires SlotOf(s) == Ok(at) && VersionError(version) == None
    ensures at + SLOT_SIZE <= |s| && OccursAt(Stamped(s, at, version), MAGIC, at)
  {
    hide IndexFrom, Padded;
    MagicSize();
    assert Stamped(s, at, version)[at..at + |MAGIC|] == s[at..at + |MAGIC|];
  }

  lemma SlotFits(s: seq<byte>, at: nat)
    requires SlotOf(s) == Ok(at)
    ensures at + SLOT_SIZE <= |s| && OccursAt(s, MAGIC, at)
  {
  }

  lemma LastIsZero(version: seq<byte>)
    requires |version| < PAYLOAD
    ensures Padded(version)[PAYLOAD - 1] == 0
  {
  }

  lemma OutsideSame(s: seq<byte>, t: seq<byte>, at: nat, version: seq<byte>, i: nat)
    requires at + SLOT_SIZE <= |s| && |version| <= PAYLOAD && t == Stamped(s, at, version)
    requires i + |MAGIC| <= |s| && (i + |MAGIC| <= at + |MAGIC| || i >= at + SLOT_SIZE)
    ensures OccursAt(t, MAGIC, i) <==> OccursAt(s, MAGIC, i)
  {
    hide Padded;
    MagicSize();
    assert t[i..i + |MAGIC|] == s[i..i + |MAGIC|];
  }

  lemma StampTwice(s: seq<byte>, at: nat, first: seq<byte>, second: seq<byte>)
    requires at + SLOT_SIZE <= |s| && |first| <= PAYLOAD && |second| <= PAYLOAD
    ensures Stamped(Stamped(s, at, first), at, second) == Stamped(s, at, second)
  {
    hide Padded;
    MagicSize();
    var t := Stamped(s, at, first);
    assert t[..at + |MAGIC|] == s[..at + |MAGIC|] && t[at + SLOT_SIZE..] == s[at + SLOT_SIZE..];
  }

  /**
   Stamping over a stamp is stamping the original, exactly if the first
   version does not hold the magic itself; if it does, the second stamp finds
   the magic twice and fails.
   */
  lemma RestampIsStamp(s: seq<byte>, first: seq<byte>, second: seq<byte>)
    requires StampOf(s, first).Ok? && VersionError(second) == None
    ensures StampOf(StampOf(s, first).value, second) == StampOf(s, second) <==> !Contains(first, MAGIC)
    ensures Contains(first, MAGIC) ==> StampOf(StampOf(s, first).value, second) == Err(MagicRepeated)
  {
    hide IndexFrom, Stamped, OccursAt, SlotOf;
    MagicSize();
    var at := SlotOf(s).value;
    var t := StampOf(s, first).value;
    SlotFits(s, at);
    forall i: nat ensures OccursAt(t, MAGIC, i) <==> i == at || (i >= at + |MAGIC| && OccursAt(first, MAGIC, i - at - |MAGIC|)) {
      OccurrencesAfter(s, at, first, i);
    }
    NoneBelow(t);
    if Contains(first, MAGIC) {
      var j :| OccursAt(first, MAGIC, j);
      NoneBelow(first);
      assert OccursAt(t, MAGIC, at + |MAGIC| + j);
      TwoOccurrences(t, at, at + |MAGIC| + j);
    } else {
      OnlySlot(t, at);
      StampTwice(s, at, first, second);
    }
  }

  lemma NoneBelow(s: seq<byte>)
    ensures forall i :: OccursAt(s, MAGIC, i) ==> i >= 0
  {
  }

  lemma TwoOccurrences(s: seq<byte>, i: nat, j: nat)
    requires i < j && OccursAt(s, MAGIC, i) && OccursAt(s, MAGIC, j)
    ensures SlotOf(s) == Err(MagicRepeated)
  {
    hide OccursAt;
    var first := IndexFrom(s, MAGIC, 0);
    assert first.Some? && first.value <= i;
  }

  /** Stamping the same version again leaves the bytes as they are. */
  lemma SameVersionAgain(s: seq<byte>, version: seq<byte>)
    requires StampOf(s, version).Ok? && !Contains(version, MAGIC)
    ensures StampOf(StampOf(s, version).value, version) == Ok(StampOf(s, version).value)
  {
    hide StampOf, Contains;
    ValidIfStamped(s, version);
    RestampIsStamp(s, version, version);
  }

  lemma ValidIfStamped(s: seq<byte>, version: seq<byte>)
    requires StampOf(s, version).Ok?
    ensures VersionError(version) == None
  {
  }
}
