/** Putting rewritten cores back into their lines, with replies checked, retried, and never trusted beyond that. */
module RewriteRun {
  import opened RewritePlan
  import opened WorkerPool
  import opened Wrappers
  import Text = ChangelogText

  // ---- one request with its retries ----

  datatype Item = Item(id: int, tokens: seq<Token>)

  datatype Fragment = Fragment(id: int, text: string)

  /** The last text a reply has for the id. */
  function LastText(reply: seq<Fragment>, id: int): Option<string> {
    if reply == [] then None
    else if reply[|reply| - 1].id == id then Some(reply[|reply| - 1].text)
    else LastText(reply[..|reply| - 1], id)
  }

  /** The text the reply has for the item, if it keeps the item's tokens. */
  function Accepted(reply: Option<seq<Fragment>>, item: Item): Option<string> {
    if reply.None? then None
    else
      var text := LastText(reply.value, item.id);
      if text.Some? && Preserves(text.value, item.tokens) then text else None
  }

  /** The first accepted text among the replies of the attempts; a failed attempt has no reply. */
  function FirstAccepted(replies: seq<Option<seq<Fragment>>>, item: Item): Option<string> {
    if replies == [] then None
    else
      var before := FirstAccepted(replies[..|replies| - 1], item);
      if before.Some? then before else Accepted(replies[|replies| - 1], item)
  }

  ghost predicate UniqueIds(items: seq<Item>) {
    forall i, j {:trigger items[i].id, items[j].id} :: 0 <= i < j < |items| ==> items[i].id != items[j].id
  }

  method Collect(reply: seq<Fragment>) returns (got: map<int, string>)
    ensures forall id {:trigger LastText(reply, id)} :: (id in got <==> LastText(reply, id).Some?)
    ensures forall id {:trigger LastText(reply, id)} :: id in got ==> LastText(reply, id) == Some(got[id])
  {
    got := map[];
    for i := 0 to |reply|
      invariant forall id {:trigger LastText(reply[..i], id)} :: (id in got <==> LastText(reply[..i], id).Some?)
      invariant forall id {:trigger LastText(reply[..i], id)} :: id in got ==> LastText(reply[..i], id) == Some(got[id])
    {
      ghost var before := got;
      got := got[reply[i].id := reply[i].text];
      assert reply[..i + 1][..i] == reply[..i];
      forall id
        ensures id in got <==> LastText(reply[..i + 1], id).Some?
        ensures id in got ==> LastText(reply[..i + 1], id) == Some(got[id])
      {
        assert id in before <==> LastText(reply[..i], id).Some?;
      }
    }
    assert reply[..|reply|] == reply;
  }

  /** The rewrites so far are the first accepted texts; the items without one are pending. */
  ghost predicate Settled(items: seq<Item>, pending: seq<Item>, result: map<int, string>, replies: seq<Option<seq<Fragment>>>) {
    && (forall k {:trigger items[k]} :: 0 <= k < |items| ==>
          && (items[k].id in result <==> FirstAccepted(replies, items[k]).Some?)
          && (items[k].id in result ==> FirstAccepted(replies, items[k]) == Some(result[items[k].id]))
          && (items[k].id in result || items[k] in pending))
    && (forall p {:trigger p in pending} :: p in pending ==> p in items && p.id !in result)
    && (forall id {:trigger id in result} :: id in result ==> exists k :: 0 <= k < |items| && items[k].id == id)
  }

  method Sift(pending: seq<Item>, got: map<int, string>, result0: map<int, string>, ghost reply: seq<Fragment>)
    returns (result: map<int, string>, still: seq<Item>)
    requires forall id {:trigger LastText(reply, id)} :: (id in got <==> LastText(reply, id).Some?)
    requires forall id {:trigger LastText(reply, id)} :: id in got ==> LastText(reply, id) == Some(got[id])
    requires UniqueIds(pending) && forall p :: p in pending ==> p.id !in result0
    ensures forall p :: p in still <==> p in pending && Accepted(Some(reply), p).None?
    ensures UniqueIds(still)
    ensures forall id :: id in result0 ==> id in result && result[id] == result0[id]
    ensures forall p :: p in pending && Accepted(Some(reply), p).Some? ==> p.id in result && Accepted(Some(reply), p) == Some(result[p.id])
    ensures forall id :: id in result && id !in result0 ==>
              exists p :: p in pending && p.id == id && Accepted(Some(reply), p).Some?
  {
    hide Preserves, Keeps, LastText;
    result, still := result0, [];
    for i := 0 to |pending|
      invariant forall p :: p in still <==> p in pending[..i] && Accepted(Some(reply), p).None?
      invariant UniqueIds(still)
      invariant forall id :: id in result0 ==> id in result && result[id] == result0[id]
      invariant forall p :: p in pending[..i] && Accepted(Some(reply), p).Some? ==>
        p.id in result && Accepted(Some(reply), p) == Some(result[p.id])
      invariant forall id :: id in result && id !in result0 ==>
        exists p :: p in pending[..i] && p.id == id && Accepted(Some(reply), p).Some?
    {
      var p := pending[i];
      assert pending[..i + 1] == pending[..i] + [p];
      forall q | q in pending[..i] ensures q.id != p.id {
        var j :| 0 <= j < i && pending[j] == q;
        assert pending[j].id != pending[i].id;
      }
      assert p.id in got <==> LastText(reply, p.id).Some?;
      var good := false;
      if p.id in got {
        good := PreservesTokens(got[p.id], p.tokens);
      }
      assert good <==> Accepted(Some(reply), p).Some?;
      if good {
        result := result[p.id := got[p.id]];
      } else {
        still := still + [p];
      }
    }
    assert pending[..|pending|] == pending;
  }

  /** What the attempts come to: for each item the first accepted text, if there is one. */
  function Answers(items: seq<Item>, replies: seq<Option<seq<Fragment>>>): map<int, string> {
    if items == [] then map[]
    else
      var before, item := Answers(items[..|items| - 1], replies), items[|items| - 1];
      var text := FirstAccepted(replies, item);
      if text.Some? then before[item.id := text.value] else before
  }

  lemma {:induction false} AnswersAre(items: seq<Item>, replies: seq<Option<seq<Fragment>>>)
    requires UniqueIds(items)
    ensures forall k {:trigger items[k]} :: 0 <= k < |items| ==>
              && (items[k].id in Answers(items, replies) <==> FirstAccepted(replies, items[k]).Some?)
              && (items[k].id in Answers(items, replies) ==> FirstAccepted(replies, items[k]) == Some(Answers(items, replies)[items[k].id]))
    ensures forall id :: id in Answers(items, replies) ==> exists k :: 0 <= k < |items| && items[k].id == id
  {
    hide FirstAccepted;
    if items != [] {
      var n := |items| - 1;
      var init := items[..n];
      assert forall i, j :: 0 <= i < j < n ==> init[i].id == items[i].id && init[j].id == items[j].id;
      AnswersAre(init, replies);
      forall k | 0 <= k < n ensures items[k].id != items[n].id && init[k] == items[k] {
      }
      forall id | id in Answers(items, replies) ensures exists k :: 0 <= k < |items| && items[k].id == id {
        if id in Answers(init, replies) {
          var k :| 0 <= k < |init| && init[k].id == id;
          assert items[k].id == id;
        }
      }
    }
  }

  /**
   The attempts of one request: each item ends up with the first text that
   any attempt offers for it and that keeps its tokens, or with none.
   */
  method RewriteChunk(items: seq<Item>, replies: seq<Option<seq<Fragment>>>) returns (result: map<int, string>)
    requires UniqueIds(items)
    ensures result == Answers(items, replies)
    ensures forall k {:trigger items[k]} :: 0 <= k < |items| ==>
              && (items[k].id in result <==> FirstAccepted(replies, items[k]).Some?)
              && (items[k].id in result ==> FirstAccepted(replies, items[k]) == Some(result[items[k].id]))
    ensures forall id :: id in result ==> exists k :: 0 <= k < |items| && items[k].id == id
  {
    hide Accepted;
    result := map[];
    var pending := items;
    var attempt := 0;
    while attempt < |replies| && |pending| > 0
      invariant 0 <= attempt <= |replies| && UniqueIds(pending)
      invariant Settled(items, pending, result, replies[..attempt])
    {
      var reply := replies[attempt];
      assert replies[..attempt + 1][..attempt] == replies[..attempt];
      ghost var before, was := result, pending;
      if reply.Some? {
        var got := Collect(reply.value);
        result, pending := Sift(pending, got, result, reply.value);
      }
      FailedAttempt();
      AttemptSettles(items, was, pending, before, result, replies, attempt);
      attempt := attempt + 1;
    }
    SettledForGood(items, pending, result, replies, attempt);
    SettledAnswers(items, pending, result, replies);
  }

  lemma SettledAnswers(items: seq<Item>, pending: seq<Item>, result: map<int, string>, replies: seq<Option<seq<Fragment>>>)
    requires UniqueIds(items) && Settled(items, pending, result, replies)
    ensures result == Answers(items, replies)
  {
    hide FirstAccepted, Answers;
    AnswersAre(items, replies);
    var answers := Answers(items, replies);
    forall id ensures id in result <==> id in answers {
      if id in result {
        var k :| 0 <= k < |items| && items[k].id == id;
        assert items[k].id in answers;
      }
      if id in answers {
        var k :| 0 <= k < |items| && items[k].id == id;
        assert items[k].id in result;
      }
    }
    forall id | id in result ensures result[id] == answers[id] {
      var k :| 0 <= k < |items| && items[k].id == id;
      assert items[k].id in answers;
    }
  }

  lemma FailedAttempt()
    ensures forall item {:trigger Accepted(None, item)} :: Accepted(None, item) == None
  {
  }

  lemma AttemptSettles(items: seq<Item>, was: seq<Item>, pending: seq<Item>, before: map<int, string>, result: map<int, string>,
                       replies: seq<Option<seq<Fragment>>>, attempt: nat)
    requires attempt < |replies| && UniqueIds(items) && Settled(items, was, before, replies[..attempt])
    requires forall p :: p in pending <==> p in was && Accepted(replies[attempt], p).None?
    requires forall id :: id in before ==> id in result && result[id] == before[id]
    requires replies[attempt].None? ==> result == before
    requires forall p :: p in was && Accepted(replies[attempt], p).Some? ==>
               p.id in result && Accepted(replies[attempt], p) == Some(result[p.id])
    requires forall id :: id in result && id !in before ==>
               exists p :: p in was && p.id == id && Accepted(replies[attempt], p).Some?
    ensures Settled(items, pending, result, replies[..attempt + 1])
  {
    hide Accepted, FirstAccepted;
    forall k | 0 <= k < |items|
      ensures items[k].id in result <==> FirstAccepted(replies[..attempt + 1], items[k]).Some?
      ensures items[k].id in result ==> FirstAccepted(replies[..attempt + 1], items[k]) == Some(result[items[k].id])
      ensures items[k].id in result || items[k] in pending
    {
      SnocAccepted(replies, attempt, items[k]);
      if items[k].id in result && items[k].id !in before {
        var p :| p in was && p.id == items[k].id && Accepted(replies[attempt], p).Some?;
        SameItem(items, k, p);
      }
    }
    forall p | p in pending ensures p in items && p.id !in result {
      if p.id in result && p.id !in before {
        var q :| q in was && q.id == p.id && Accepted(replies[attempt], q).Some?;
        SameId(items, p, q);
      }
    }
    forall id | id in result ensures exists k :: 0 <= k < |items| && items[k].id == id {
      if id !in before {
        var p :| p in was && p.id == id && Accepted(replies[attempt], p).Some?;
        var k :| 0 <= k < |items| && items[k] == p;
      }
    }
  }

  lemma SameId(items: seq<Item>, p: Item, q: Item)
    requires UniqueIds(items) && p in items && q in items && p.id == q.id
    ensures p == q
  {
    var i :| 0 <= i < |items| && items[i] == p;
    var j :| 0 <= j < |items| && items[j] == q;
    assert items[i].id == items[j].id;
  }

  lemma SameItem(items: seq<Item>, k: nat, p: Item)
    requires UniqueIds(items) && k < |items| && p in items && p.id == items[k].id
    ensures p == items[k]
  {
    var j :| 0 <= j < |items| && items[j] == p;
  }

  lemma SnocAccepted(replies: seq<Option<seq<Fragment>>>, attempt: nat, item: Item)
    requires attempt < |replies|
    ensures FirstAccepted(replies[..attempt + 1], item)
         == if FirstAccepted(replies[..attempt], item).Some? then FirstAccepted(replies[..attempt], item)
            else Accepted(replies[attempt], item)
  {
    hide Accepted;
    assert replies[..attempt + 1][..attempt] == replies[..attempt];
  }

  /** Once nothing is pending, later replies would change nothing. */
  lemma {:induction false} AcceptedStays(replies: seq<Option<seq<Fragment>>>, attempt: nat, item: Item)
    requires attempt <= |replies| && FirstAccepted(replies[..attempt], item).Some?
    ensures FirstAccepted(replies, item) == FirstAccepted(replies[..attempt], item)
    decreases |replies|
  {
    hide Accepted;
    if attempt == |replies| {
      assert replies[..attempt] == replies;
    } else {
      var n := |replies| - 1;
      assert replies[..n][..attempt] == replies[..attempt];
      AcceptedStays(replies[..n], attempt, item);
    }
  }

  lemma SettledForGood(items: seq<Item>, pending: seq<Item>, result: map<int, string>,
                       replies: seq<Option<seq<Fragment>>>, attempt: nat)
    requires attempt <= |replies| && Settled(items, pending, result, replies[..attempt])
    requires attempt == |replies| || pending == []
    ensures Settled(items, pending, result, replies)
  {
    hide FirstAccepted;
    if attempt == |replies| {
      assert replies[..attempt] == replies;
    } else {
      forall k | 0 <= k < |items|
        ensures FirstAccepted(replies, items[k]) == FirstAccepted(replies[..attempt], items[k])
      {
        assert items[k].id in result;
        AcceptedStays(replies, attempt, items[k]);
      }
    }
  }

  lemma {:induction false} AcceptedPreserves(replies: seq<Option<seq<Fragment>>>, item: Item)
    requires FirstAccepted(replies, item).Some?
    ensures Keeps(FirstAccepted(replies, item).value, item.tokens)
  {
    var n := |replies| - 1;
    if FirstAccepted(replies[..n], item).Some? {
      AcceptedPreserves(replies[..n], item);
    }
  }

  // ---- all requests ----

  datatype Outcome = Outcome(entry: Entry, text: string, ok: bool)

  function ItemsOf(group: seq<Entry>): (r: seq<Item>)
    ensures |r| == |group|
    ensures forall k :: 0 <= k < |r| ==> r[k] == Item(group[k].line, group[k].tokens)
  {
    seq(|group|, k requires 0 <= k < |group| => Item(group[k].line, group[k].tokens))
  }

  /** What a group comes back as: the texts of its request, and the cores of the lines without one. */
  function OutcomesOf(group: seq<Entry>, rewritten: map<int, string>): (r: seq<Outcome>)
    ensures |r| == |group|
    ensures forall k :: 0 <= k < |r| ==>
      r[k] == if group[k].line in rewritten then Outcome(group[k], rewritten[group[k].line], true)
              else Outcome(group[k], group[k].core, false)
  {
    seq(|group|, k requires 0 <= k < |group| =>
      if group[k].line in rewritten then Outcome(group[k], rewritten[group[k].line], true)
      else Outcome(group[k], group[k].core, false))
  }

  function Rebuilt(o: Outcome): string {
    o.entry.prefix + o.text + o.entry.suffix
  }

  /** The lines with every outcome put back, in order. */
  function PutBack(lines: seq<string>, outcomes: seq<Outcome>): (r: seq<string>)
    requires forall k :: 0 <= k < |outcomes| ==> outcomes[k].entry.line < |lines|
    ensures |r| == |lines|
  {
    if outcomes == [] then lines
    else
      var last := outcomes[|outcomes| - 1];
      PutBack(lines, outcomes[..|outcomes| - 1])[last.entry.line := Rebuilt(last)]
  }

  /** How many outcomes have a text that changes their line, and how many have none. */
  function Changed(outcomes: seq<Outcome>, original: seq<string>): nat
    requires forall k :: 0 <= k < |outcomes| ==> outcomes[k].entry.line < |original|
  {
    if outcomes == [] then 0
    else
      var last := outcomes[|outcomes| - 1];
      Changed(outcomes[..|outcomes| - 1], original) + if last.ok && Rebuilt(last) != original[last.entry.line] then 1 else 0
  }

  function Fallbacks(outcomes: seq<Outcome>): nat {
    if outcomes == [] then 0
    else Fallbacks(outcomes[..|outcomes| - 1]) + if outcomes[|outcomes| - 1].ok then 0 else 1
  }

  method PutGroupBack(lines0: seq<string>, original: seq<string>, group: seq<Outcome>, changed0: nat, fallback0: nat)
    returns (lines: seq<string>, changed: nat, fallback: nat)
    requires |lines0| == |original| && forall k :: 0 <= k < |group| ==> group[k].entry.line < |original|
    ensures lines == PutBack(lines0, group)
    ensures changed == changed0 + Changed(group, original) && fallback == fallback0 + Fallbacks(group)
  {
    hide Rebuilt;
    lines, changed, fallback := lines0, changed0, fallback0;
    for k := 0 to |group|
      invariant lines == PutBack(lines0, group[..k])
      invariant changed == changed0 + Changed(group[..k], original) && fallback == fallback0 + Fallbacks(group[..k])
    {
      assert group[..k + 1][..k] == group[..k];
      var rebuilt := Rebuilt(group[k]);
      lines := lines[group[k].entry.line := rebuilt];
      if !group[k].ok {
        fallback := fallback + 1;
      } else if rebuilt != original[group[k].entry.line] {
        changed := changed + 1;
      }
    }
    assert group[..|group|] == group;
  }

  ghost predicate InOrder(outcomes: seq<Outcome>, count: nat) {
    && (forall k {:trigger outcomes[k]} :: 0 <= k < |outcomes| ==> outcomes[k].entry.line < count)
    && (forall k, l {:trigger outcomes[k], outcomes[l]} :: 0 <= k < l < |outcomes| ==> outcomes[k].entry.line < outcomes[l].entry.line)
  }

  /** With entries in line order each line is written at most once, and the others stay. */
  lemma {:induction false} EachLineOnce(lines: seq<string>, outcomes: seq<Outcome>)
    requires InOrder(outcomes, |lines|)
    ensures forall k {:trigger outcomes[k]} :: 0 <= k < |outcomes| ==>
              PutBack(lines, outcomes)[outcomes[k].entry.line] == Rebuilt(outcomes[k])
    ensures forall i {:trigger PutBack(lines, outcomes)[i]} ::
              0 <= i < |lines| && (forall k :: 0 <= k < |outcomes| ==> outcomes[k].entry.line != i)
              ==> PutBack(lines, outcomes)[i] == lines[i]
    decreases |outcomes|
  {
    hide Rebuilt;
    if outcomes != [] {
      var n := |outcomes| - 1;
      assert forall k :: 0 <= k < n ==> outcomes[..n][k] == outcomes[k];
      EachLineOnce(lines, outcomes[..n]);
    }
  }

  lemma {:induction false} PutBackConcat(lines: seq<string>, a: seq<Outcome>, b: seq<Outcome>)
    requires forall k :: 0 <= k < |a| ==> a[k].entry.line < |lines|
    requires forall k :: 0 <= k < |b| ==> b[k].entry.line < |lines|
    ensures PutBack(lines, a + b) == PutBack(PutBack(lines, a), b)
    ensures Changed(a + b, lines) == Changed(a, lines) + Changed(b, lines)
    ensures Fallbacks(a + b) == Fallbacks(a) + Fallbacks(b)
    decreases |b|
  {
    hide Rebuilt;
    if b == [] {
      assert a + b == a;
    } else {
      var n := |b| - 1;
      assert (a + b)[..|a| + n] == a + b[..n];
      PutBackConcat(lines, a, b[..n]);
    }
  }

  method Reassemble(lines: seq<string>, resolved: seq<seq<Outcome>>) returns (r: seq<string>, changed: nat, fallback: nat)
    requires InOrder(Flat(resolved), |lines|)
    ensures r == PutBack(lines, Flat(resolved))
    ensures changed == Changed(Flat(resolved), lines) && fallback == Fallbacks(Flat(resolved))
  {
    hide PutBack, Changed, Fallbacks;
    r, changed, fallback := lines, 0, 0;
    PutNothing(lines);
    for g := 0 to |resolved|
      invariant |r| == |lines| && InOrder(Flat(resolved[..g]), |lines|)
      invariant r == PutBack(lines, Flat(resolved[..g]))
      invariant changed == Changed(Flat(resolved[..g]), lines) && fallback == Fallbacks(Flat(resolved[..g]))
    {
      assert resolved[..g + 1] == resolved[..g] + [resolved[g]];
      SnocFlat(resolved[..g], resolved[g]);
      FlatPrefix(resolved, g + 1);
      PrefixInOrder(Flat(resolved), Flat(resolved[..g + 1]), |lines|);
      ghost var before := Flat(resolved[..g]);
      forall k | 0 <= k < |resolved[g]| ensures resolved[g][k].entry.line < |lines| {
        assert Flat(resolved[..g + 1])[|before| + k] == resolved[g][k];
      }
      PutBackConcat(lines, before, resolved[g]);
      r, changed, fallback := PutGroupBack(r, lines, resolved[g], changed, fallback);
    }
    assert resolved[..|resolved|] == resolved;
  }

  lemma PutNothing(lines: seq<string>)
    ensures PutBack(lines, []) == lines && Changed([], lines) == 0 && Fallbacks([]) == 0
  {
  }

  lemma {:induction false} FlatPrefix(groups: seq<seq<Outcome>>, g: nat)
    requires g <= |groups|
    ensures Flat(groups[..g]) <= Flat(groups)
    decreases |groups|
  {
    if g > 0 {
      assert groups[..g][1..] == groups[1..][..g - 1];
      FlatPrefix(groups[1..], g - 1);
    }
  }

  lemma PrefixInOrder(all: seq<Outcome>, some: seq<Outcome>, count: nat)
    requires InOrder(all, count) && some <= all
    ensures InOrder(some, count)
  {
    assert forall k :: 0 <= k < |some| ==> some[k] == all[k];
  }
}
