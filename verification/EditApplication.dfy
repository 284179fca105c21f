/**
 One-pass application of text edits to a source string, over UTF-8 bytes:
 sort, drop duplicates, reject overlaps, copy forward once.
 */
module EditApplication {
  import opened Wrappers

  const USIZE_MAX: nat := 0xFFFF_FFFF_FFFF_FFFF

  type usize = x: int | 0 <= x <= USIZE_MAX

  datatype Edit = Edit(position: usize, deleted: usize, inserted: seq<byte>)

  datatype Error = Overlapping | OutOfBounds | InvalidUtf8

  function SaturatingAdd(a: usize, b: usize): usize {
    if a + b > USIZE_MAX then USIZE_MAX else a + b
  }

  function End(e: Edit): usize {
    SaturatingAdd(e.position, e.deleted)
  }

  // ---- UTF-8 (section 3 of RFC 3629) ----

  predicate Continuation(b: byte) {
    0x80 <= b < 0xC0
  }

  /** The length of the character a lead byte announces; 0 for a byte that leads none. */
  function LeadLength(b: byte): nat {
    if b < 0x80 then 1
    else if 0xC2 <= b < 0xE0 then 2
    else if 0xE0 <= b < 0xF0 then 3
    else if 0xF0 <= b < 0xF5 then 4
    else 0
  }

  /** No overlong forms, no surrogates, nothing above U+10FFFF. */
  predicate SecondByteFits(lead: byte, second: byte) {
    && Continuation(second)
    && (lead == 0xE0 ==> second >= 0xA0)
    && (lead == 0xED ==> second < 0xA0)
    && (lead == 0xF0 ==> second >= 0x90)
    && (lead == 0xF4 ==> second < 0x90)
  }

  predicate StartsWithChar(s: seq<byte>) {
    && s != []
    && var k := LeadLength(s[0]);
       && 1 <= k <= |s|
       && (k > 1 ==> SecondByteFits(s[0], s[1]))
       && (forall i :: 2 <= i < k ==> Continuation(s[i]))
  }

  predicate ValidUtf8(s: seq<byte>) {
    s == [] || (StartsWithChar(s) && ValidUtf8(s[LeadLength(s[0])..]))
  }

  predicate IsCharBoundary(s: seq<byte>, i: nat) {
    i == 0 || i == |s| || (i < |s| && !Continuation(s[i]))
  }

  lemma {:induction false} ValidConcat(a: seq<byte>, b: seq<byte>)
    requires ValidUtf8(a) && ValidUtf8(b)
    ensures ValidUtf8(a + b)
  {
    if a == [] {
      assert a + b == b;
    } else {
      var k := LeadLength(a[0]);
      assert (a + b)[k..] == a[k..] + b;
      ValidConcat(a[k..], b);
    }
  }

  /** Cutting a valid string at character boundaries leaves valid pieces. */
  lemma {:induction false} ValidSplit(s: seq<byte>, i: nat)
    requires ValidUtf8(s) && i <= |s| && IsCharBoundary(s, i)
    ensures ValidUtf8(s[..i]) && ValidUtf8(s[i..])
  {
    if 0 < i < |s| {
      var k := LeadLength(s[0]);
      assert i >= k;
      ValidSplit(s[k..], i - k);
      assert s[k..][..i - k] == s[..i][k..];
      assert s[k..][i - k..] == s[i..];
    } else if i == 0 {
      assert s[0..] == s;
    } else {
      assert s[..i] == s;
    }
  }

  // ---- the order of edits ----

  predicate LexLess(a: seq<byte>, b: seq<byte>) {
    b != [] && (a == [] || a[0] < b[0] || (a[0] == b[0] && LexLess(a[1..], b[1..])))
  }

  predicate Less(a: Edit, b: Edit) {
    || a.position < b.position
    || (a.position == b.position && a.deleted < b.deleted)
    || (a.position == b.position && a.deleted == b.deleted && LexLess(a.inserted, b.inserted))
  }

  lemma {:induction false} LexIrreflexive(a: seq<byte>)
    ensures !LexLess(a, a)
  {
    if a != [] {
      LexIrreflexive(a[1..]);
    }
  }

  lemma {:induction false} LexOrder(a: seq<byte>, b: seq<byte>, c: seq<byte>)
    ensures !(LexLess(a, b) && LexLess(b, a)) && !LexLess(a, a)
    ensures a != b ==> LexLess(a, b) || LexLess(b, a)
    ensures LexLess(a, b) && LexLess(b, c) ==> LexLess(a, c)
    decreases |a| + |b| + |c|
  {
    LexIrreflexive(a);
    if a != [] && b != [] {
      LexOrder(a[1..], b[1..], if c == [] then [] else c[1..]);
      assert a == [a[0]] + a[1..] && b == [b[0]] + b[1..];
    }
  }

  lemma EditOrder(a: Edit, b: Edit, c: Edit)
    ensures !(Less(a, b) && Less(b, a)) && !Less(a, a)
    ensures a != b ==> Less(a, b) || Less(b, a)
    ensures Less(a, b) && Less(b, c) ==> Less(a, c)
  {
    LexOrder(a.inserted, b.inserted, c.inserted);
  }

  ghost predicate Sorted(es: seq<Edit>) {
    forall i, j :: 0 <= i < j < |es| ==> es[i] == es[j] || Less(es[i], es[j])
  }

  ghost predicate StrictlySorted(es: seq<Edit>) {
    forall i, j :: 0 <= i < j < |es| ==> Less(es[i], es[j])
  }

  function Elems(es: seq<Edit>): set<Edit> {
    set e | e in es
  }

  lemma ElemsEmpty(es: seq<Edit>)
    ensures Elems(es) == {} <==> es == []
  {
    if es != [] {
      assert es[0] in Elems(es);
    }
  }

  /** There is only one strictly sorted list of a set of edits. */
  lemma {:induction false} StrictlySortedUnique(a: seq<Edit>, b: seq<Edit>)
    requires StrictlySorted(a) && StrictlySorted(b) && Elems(a) == Elems(b)
    ensures a == b
  {
    ElemsEmpty(a);
    ElemsEmpty(b);
    if a != [] {
      assert a[0] in Elems(a) && b[0] in Elems(b);
      assert a[0] in b && b[0] in a;
      EditOrder(a[0], b[0], a[0]);
      assert a[0] == b[0];
      forall x ensures x in a[1..] <==> x in b[1..] {
        NotAgain(a, x);
        NotAgain(b, x);
        assert x in Elems(a) <==> x in Elems(b);
      }
      StrictlySortedUnique(a[1..], b[1..]);
      assert a == [a[0]] + a[1..] && b == [b[0]] + b[1..];
    }
  }

  lemma NotAgain(a: seq<Edit>, x: Edit)
    requires StrictlySorted(a) && a != []
    ensures x in a[1..] <==> x in a && x != a[0]
  {
    if x in a[1..] {
      var k :| 0 <= k < |a[1..]| && a[1..][k] == x;
      assert a[k + 1] == x && Less(a[0], x);
      EditOrder(x, x, x);
    }
    if x in a && x != a[0] {
      var k :| 0 <= k < |a| && a[k] == x;
      assert a[1..][k - 1] == x;
    }
  }

  // ---- sorting and dropping duplicates ----

  function Insert(e: Edit, es: seq<Edit>): seq<Edit> {
    if es == [] || e == es[0] || Less(e, es[0]) then [e] + es else [es[0]] + Insert(e, es[1..])
  }

  /** The sort of the standard library: the comparator looks at every field, so its result is determined. */
  function Sort(es: seq<Edit>): seq<Edit> {
    if es == [] then [] else Insert(es[0], Sort(es[1..]))
  }

  lemma {:induction false} InsertSorted(e: Edit, es: seq<Edit>)
    requires Sorted(es)
    ensures Sorted(Insert(e, es)) && multiset(Insert(e, es)) == multiset(es) + multiset{e}
  {
    if es == [] {
    } else if e == es[0] || Less(e, es[0]) {
      forall j | 0 <= j < |es| ensures e == es[j] || Less(e, es[j]) {
        EditOrder(e, es[0], es[j]);
      }
    } else {
      InsertSorted(e, es[1..]);
      EditOrder(e, es[0], e);
      var rest := Insert(e, es[1..]);
      assert es == [es[0]] + es[1..];
      forall j | 0 <= j < |rest| ensures es[0] == rest[j] || Less(es[0], rest[j]) {
        assert rest[j] in multiset(rest);
        assert rest[j] == e || rest[j] in es[1..];
      }
    }
  }

  lemma {:induction false} SortSorts(es: seq<Edit>)
    ensures Sorted(Sort(es)) && multiset(Sort(es)) == multiset(es)
  {
    if es != [] {
      SortSorts(es[1..]);
      InsertSorted(es[0], Sort(es[1..]));
      assert es == [es[0]] + es[1..];
    }
  }

  /** Keeps each edit that differs from the last one kept. */
  method Dedup(sorted: seq<Edit>) returns (distinct: seq<Edit>)
    requires Sorted(sorted)
    ensures StrictlySorted(distinct) && Elems(distinct) == Elems(sorted)
  {
    distinct := [];
    for i := 0 to |sorted|
      invariant StrictlySorted(distinct) && Elems(distinct) == Elems(sorted[..i])
      invariant i == 0 ==> distinct == []
      invariant i > 0 ==> distinct != [] && distinct[|distinct| - 1] == sorted[i - 1]
    {
      assert sorted[..i + 1] == sorted[..i] + [sorted[i]];
      assert Elems(sorted[..i + 1]) == Elems(sorted[..i]) + {sorted[i]};
      if distinct == [] || distinct[|distinct| - 1] != sorted[i] {
        ghost var before := distinct;
        forall k | 0 <= k < |before| ensures Less(before[k], sorted[i]) {
          EditOrder(before[k], sorted[i - 1], sorted[i]);
        }
        distinct := distinct + [sorted[i]];
        assert Elems(distinct) == Elems(before) + {sorted[i]};
      } else {
        assert sorted[i] in Elems(sorted[..i]);
      }
    }
    assert sorted[..|sorted|] == sorted;
  }

  function InsertNew(e: Edit, es: seq<Edit>): seq<Edit> {
    if es == [] || Less(e, es[0]) then [e] + es
    else if e == es[0] then es
    else [es[0]] + InsertNew(e, es[1..])
  }

  /** The distinct edits in order. */
  function Canonical(es: seq<Edit>): seq<Edit> {
    if es == [] then [] else InsertNew(es[0], Canonical(es[1..]))
  }

  lemma {:induction false} InsertNewSorted(e: Edit, es: seq<Edit>)
    requires StrictlySorted(es)
    ensures StrictlySorted(InsertNew(e, es))
    ensures forall x :: x in InsertNew(e, es) <==> x in es || x == e
  {
    if es == [] {
    } else if Less(e, es[0]) {
      forall j | 0 <= j < |es| ensures Less(e, es[j]) {
        EditOrder(e, es[0], es[j]);
      }
    } else if e != es[0] {
      InsertNewSorted(e, es[1..]);
      EditOrder(e, es[0], e);
      assert es == [es[0]] + es[1..];
      var rest := InsertNew(e, es[1..]);
      forall j | 0 <= j < |rest| ensures Less(es[0], rest[j]) {
        assert rest[j] in rest;
      }
    }
  }

  lemma {:induction false} CanonicalIsStrict(es: seq<Edit>)
    ensures StrictlySorted(Canonical(es)) && Elems(Canonical(es)) == Elems(es)
  {
    if es != [] {
      CanonicalIsStrict(es[1..]);
      InsertNewSorted(es[0], Canonical(es[1..]));
      assert es == [es[0]] + es[1..];
      forall x ensures x in Canonical(es) <==> x in es {
        assert x in Elems(Canonical(es[1..])) <==> x in Elems(es[1..]);
      }
    }
  }

  // ---- what applying the edits means ----

  /** In range, at character boundaries, with valid replacement text. */
  predicate Applicable(content: seq<byte>, e: Edit) {
    InRange(content, e) && ValidUtf8(e.inserted)
  }

  predicate InRange(content: seq<byte>, e: Edit) {
    End(e) <= |content| && IsCharBoundary(content, e.position) && IsCharBoundary(content, End(e))
  }

  /** The error of the first edit that cannot be applied. */
  function FirstError(content: seq<byte>, es: seq<Edit>): Option<Error> {
    if es == [] then None
    else if !InRange(content, es[0]) then Some(OutOfBounds)
    else if !ValidUtf8(es[0].inserted) then Some(InvalidUtf8)
    else FirstError(content, es[1..])
  }

  /** Two distinct edits of which the later starts inside the earlier. */
  predicate Overlaps(a: Edit, b: Edit) {
    Less(a, b) && b.position < End(a)
  }

  ghost predicate NoOverlap(es: seq<Edit>) {
    forall a, b :: a in es && b in es ==> !Overlaps(a, b)
  }

  ghost predicate Disjoint(es: seq<Edit>) {
    forall i, j :: 0 <= i < j < |es| ==> End(es[i]) <= es[j].position
  }

  /** Splices one edit at a time, from the last to the first, so earlier positions stay valid. */
  function SpliceBackwards(content: seq<byte>, es: seq<Edit>): seq<byte>
    decreases |es|
  {
    if es == [] then content
    else
      var e := es[|es| - 1];
      if e.position <= End(e) <= |content| then
        SpliceBackwards(content[..e.position] + e.inserted + content[End(e)..], es[..|es| - 1])
      else content
  }

  /** The result of applying a list of edits, without the one-pass algorithm. */
  ghost function Outcome(content: seq<byte>, edits: seq<Edit>): Result<seq<byte>, Error> {
    if !NoOverlap(edits) then Err(Overlapping)
    else
      match FirstError(content, Canonical(edits))
      case Some(e) => Err(e)
      case None => Ok(SpliceBackwards(content, Canonical(edits)))
  }

  lemma AdjacentSuffice(es: seq<Edit>)
    requires StrictlySorted(es)
    requires forall i :: 0 <= i < |es| - 1 ==> End(es[i]) <= es[i + 1].position
    ensures Disjoint(es) && NoOverlap(es)
  {
    forall i, j | 0 <= i < j < |es| ensures End(es[i]) <= es[j].position {
      assert End(es[j - 1]) <= es[j].position;
      assert i < j - 1 ==> Less(es[i + 1], es[j]);
      assert End(es[i]) <= es[i + 1].position;
    }
    forall a, b | a in es && b in es ensures !Overlaps(a, b) {
      var i :| 0 <= i < |es| && es[i] == a;
      var j :| 0 <= j < |es| && es[j] == b;
      EditOrder(a, b, a);
    }
  }

  /** Edits that all end by `c` only touch the first `c` bytes. */
  lemma {:induction false} SpliceIsLocal(content: seq<byte>, es: seq<Edit>, c: nat)
    requires Disjoint(es) && c <= |content|
    requires forall i :: 0 <= i < |es| ==> es[i].position <= End(es[i]) <= c
    ensures SpliceBackwards(content, es) == SpliceBackwards(content[..c], es) + content[c..]
    decreases |es|
  {
    if es == [] {
      assert content == content[..c] + content[c..];
    } else {
      var e, front := es[|es| - 1], es[..|es| - 1];
      var spliced := content[..e.position] + e.inserted + content[End(e)..];
      var splicedC := content[..c][..e.position] + e.inserted + content[..c][End(e)..];
      assert spliced == splicedC + content[c..];
      SpliceIsLocal(spliced, front, e.position);
      SpliceIsLocal(splicedC, front, e.position);
      assert spliced[..e.position] == splicedC[..e.position];
      assert spliced[e.position..] == splicedC[e.position..] + content[c..];
    }
  }

  /** One forward copy step is one more splice. */
  lemma CopyStep(content: seq<byte>, es: seq<Edit>, i: nat, copied: nat)
    requires Disjoint(es) && i < |es| && copied <= es[i].position <= End(es[i]) <= |content|
    requires forall k :: 0 <= k < i ==> es[k].position <= End(es[k]) <= copied
    ensures SpliceBackwards(content[..End(es[i])], es[..i + 1])
      == SpliceBackwards(content[..copied], es[..i]) + content[copied..es[i].position] + es[i].inserted
  {
    var e, c := es[i], content[..End(es[i])];
    assert es[..i + 1][..i] == es[..i];
    var spliced := c[..e.position] + e.inserted + c[End(e)..];
    assert spliced == content[..e.position] + e.inserted;
    SpliceIsLocal(spliced, es[..i], copied);
    assert spliced[..copied] == content[..copied];
    assert spliced[copied..] == content[copied..e.position] + e.inserted;
  }

  // ---- the algorithm ----

  method ApplyEdits(content: seq<byte>, edits: seq<Edit>) returns (r: Result<seq<byte>, Error>)
    requires |content| < USIZE_MAX
    ensures r == Outcome(content, edits)
  {
    SortSorts(edits);
    assert Elems(Sort(edits)) == Elems(edits) by {
      assert forall x :: x in edits <==> x in multiset(edits);
    }
    var sorted := Dedup(Sort(edits));
    CanonicalIsStrict(edits);
    StrictlySortedUnique(sorted, Canonical(edits));
    var clash := FindOverlap(edits, sorted);
    if clash {
      return Err(Overlapping);
    }
    r := CopyForward(content, sorted);
  }

  /** Compares each edit with the end of the one before it. */
  method FindOverlap(ghost edits: seq<Edit>, sorted: seq<Edit>) returns (clash: bool)
    requires StrictlySorted(sorted) && Elems(sorted) == Elems(edits)
    ensures clash <==> !NoOverlap(edits)
    ensures !clash ==> Disjoint(sorted)
  {
    assert forall x :: x in sorted <==> x in Elems(edits);
    var prevEnd := 0;
    for i := 0 to |sorted|
      invariant prevEnd == if i == 0 then 0 else End(sorted[i - 1])
      invariant forall k :: 0 <= k < i - 1 ==> End(sorted[k]) <= sorted[k + 1].position
    {
      if sorted[i].position < prevEnd {
        assert Overlaps(sorted[i - 1], sorted[i]);
        assert sorted[i - 1] in Elems(sorted) && sorted[i] in Elems(sorted);
        return true;
      }
      prevEnd := End(sorted[i]);
    }
    AdjacentSuffice(sorted);
    return false;
  }

  /** Copies the gaps and the replacements forward once. */
  method CopyForward(content: seq<byte>, sorted: seq<Edit>) returns (r: Result<seq<byte>, Error>)
    requires |content| < USIZE_MAX && Disjoint(sorted)
    ensures r == match FirstError(content, sorted)
      case Some(e) => Err(e)
      case None => Ok(SpliceBackwards(content, sorted))
  {
    var output: seq<byte> := [];
    var copied := 0;
    assert sorted[0..] == sorted;
    for i := 0 to |sorted|
      invariant copied == if i == 0 then 0 else End(sorted[i - 1])
      invariant copied <= |content|
      invariant forall k :: 0 <= k < i ==> sorted[k].position <= End(sorted[k]) <= copied
      invariant output == SpliceBackwards(content[..copied], sorted[..i])
      invariant FirstError(content, sorted) == FirstError(content, sorted[i..])
    {
      var start, end := sorted[i].position, End(sorted[i]);
      assert sorted[i..][0] == sorted[i] && sorted[i..][1..] == sorted[i + 1..];
      if end > |content| || !IsCharBoundary(content, start) || !IsCharBoundary(content, end) {
        return Err(OutOfBounds);
      }
      if !ValidUtf8(sorted[i].inserted) {
        return Err(InvalidUtf8);
      }
      CopyStep(content, sorted, i, copied);
      output := output + content[copied..start] + sorted[i].inserted;
      copied := end;
    }
    assert sorted[..|sorted|] == sorted;
    SpliceIsLocal(content, sorted, copied);
    return Ok(output + content[copied..]);
  }

  // ---- what the outcome depends on ----

  /** Order and repetition of the edits do not matter. */
  lemma OutcomeDependsOnSet(content: seq<byte>, a: seq<Edit>, b: seq<Edit>)
    requires Elems(a) == Elems(b)
    ensures Outcome(content, a) == Outcome(content, b)
  {
    CanonicalIsStrict(a);
    CanonicalIsStrict(b);
    StrictlySortedUnique(Canonical(a), Canonical(b));
    assert forall x :: x in a <==> x in Elems(a);
    assert forall x :: x in b <==> x in Elems(b);
  }

  /** The edits apply exactly when none overlaps another and each is applicable on its own. */
  lemma {:induction false} AppliesIff(content: seq<byte>, edits: seq<Edit>)
    ensures Outcome(content, edits).Ok? <==> NoOverlap(edits) && forall e :: e in edits ==> Applicable(content, e)
    ensures Outcome(content, edits) == Err(Overlapping) <==> !NoOverlap(edits)
  {
    CanonicalIsStrict(edits);
    NoErrorIff(content, Canonical(edits));
    assert forall x :: x in edits <==> x in Elems(Canonical(edits));
  }

  lemma {:induction false} NoErrorIff(content: seq<byte>, es: seq<Edit>)
    ensures FirstError(content, es).None? <==> forall e :: e in es ==> Applicable(content, e)
    ensures FirstError(content, es).Some? ==> FirstError(content, es) != Some(Overlapping)
  {
    if es != [] {
      NoErrorIff(content, es[1..]);
      assert es == [es[0]] + es[1..];
      assert es[0] in es;
    }
  }

  ghost function Growth(es: seq<Edit>): int {
    if es == [] then 0 else Growth(es[..|es| - 1]) + |es[|es| - 1].inserted| - es[|es| - 1].deleted
  }

  /** The last edit, and the earlier ones on what stands before it. */
  lemma SpliceLast(content: seq<byte>, es: seq<Edit>)
    requires Disjoint(es) && es != []
    requires forall i :: 0 <= i < |es| ==> es[i].position <= End(es[i]) <= |content|
    ensures var e, front := es[|es| - 1], es[..|es| - 1];
      SpliceBackwards(content, es) == SpliceBackwards(content[..e.position], front) + (e.inserted + content[End(e)..])
  {
    var e, front := es[|es| - 1], es[..|es| - 1];
    var c, rest := content[..e.position], e.inserted + content[End(e)..];
    var spliced := content[..e.position] + e.inserted + content[End(e)..];
    assert spliced == c + rest;
    SpliceIsLocal(spliced, front, e.position);
    assert spliced[..e.position] == c && spliced[e.position..] == rest;
  }

  /** The output length is the input length plus everything inserted minus everything deleted. */
  lemma {:induction false} SpliceLength(content: seq<byte>, es: seq<Edit>)
    requires Disjoint(es) && |content| < USIZE_MAX
    requires forall i :: 0 <= i < |es| ==> End(es[i]) <= |content|
    ensures |SpliceBackwards(content, es)| == |content| + Growth(es)
    decreases |es|
  {
    if es != [] {
      SpliceLast(content, es);
      SpliceLength(content[..es[|es| - 1].position], es[..|es| - 1]);
    }
  }

  /** An edit stays applicable to a prefix that holds it. */
  lemma ApplicableToPrefix(content: seq<byte>, e: Edit, p: nat)
    requires Applicable(content, e) && End(e) <= p <= |content| && |content| < USIZE_MAX
    ensures Applicable(content[..p], e)
  {
  }

  /** Applying edits to valid UTF-8 gives valid UTF-8. */
  lemma {:induction false} SpliceKeepsUtf8(content: seq<byte>, es: seq<Edit>)
    requires ValidUtf8(content) && Disjoint(es) && |content| < USIZE_MAX
    requires forall i :: 0 <= i < |es| ==> Applicable(content, es[i])
    ensures ValidUtf8(SpliceBackwards(content, es))
    decreases |es|
  {
    if es != [] {
      var e, front := es[|es| - 1], es[..|es| - 1];
      var c := content[..e.position];
      assert Applicable(content, e);
      ValidSplit(content, e.position);
      ValidSplit(content, End(e));
      forall i | 0 <= i < |front| ensures Applicable(c, front[i]) {
        ApplicableToPrefix(content, es[i], e.position);
      }
      SpliceKeepsUtf8(c, front);
      ValidConcat(e.inserted, content[End(e)..]);
      ValidConcat(SpliceBackwards(c, front), e.inserted + content[End(e)..]);
      SpliceLast(content, es);
    }
  }

  lemma CanonicalIsDisjoint(edits: seq<Edit>)
    requires NoOverlap(edits)
    ensures Disjoint(Canonical(edits))
  {
    CanonicalIsStrict(edits);
    var es := Canonical(edits);
    forall i | 0 <= i < |es| - 1 ensures End(es[i]) <= es[i + 1].position {
      assert es[i] in Elems(es) && es[i + 1] in Elems(es);
      assert es[i] in edits && es[i + 1] in edits;
      assert !Overlaps(es[i], es[i + 1]);
    }
    AdjacentSuffice(es);
  }

  /** What a successful application returns. */
  lemma SuccessfulOutcome(content: seq<byte>, edits: seq<Edit>)
    requires ValidUtf8(content) && |content| < USIZE_MAX && Outcome(content, edits).Ok?
    ensures ValidUtf8(Outcome(content, edits).value)
    ensures |Outcome(content, edits).value| == |content| + Growth(Canonical(edits))
  {
    CanonicalIsDisjoint(edits);
    NoErrorIff(content, Canonical(edits));
    var es := Canonical(edits);
    assert forall i :: 0 <= i < |es| ==> es[i] in es;
    SpliceLength(content, es);
    SpliceKeepsUtf8(content, es);
  }
}
