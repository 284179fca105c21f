/**
 Clone detection over hashed line windows: a union-find with path compression,
 the clusters it builds, and the regions each cluster is cut into.
 */
module CloneClusters {

  // ---- connectivity ----

  type Links = seq<(nat, nat)>

  predicate Linked(links: Links, a: nat, b: nat) {
    (a, b) in links || (b, a) in links
  }

  /** A walk along links, in either direction. */
  ghost predicate IsWalk(links: Links, p: seq<nat>) {
    p != [] && forall i :: 0 <= i < |p| - 1 ==> Linked(links, p[i], p[i + 1])
  }

  /** The equivalence closure of the links. */
  ghost predicate Connected(links: Links, a: nat, b: nat) {
    exists p :: IsWalk(links, p) && p[0] == a && p[|p| - 1] == b
  }

  lemma ConnectedSelf(links: Links, a: nat)
    ensures Connected(links, a, a)
  {
    var p := [a];
    assert IsWalk(links, p) && p[0] == a && p[|p| - 1] == a;
  }

  lemma ConnectedStep(links: Links, a: nat, b: nat)
    requires Linked(links, a, b)
    ensures Connected(links, a, b)
  {
    var p := [a, b];
    assert IsWalk(links, p) && p[0] == a && p[|p| - 1] == b;
  }

  lemma ConnectedTransitive(links: Links, a: nat, b: nat, c: nat)
    requires Connected(links, a, b) && Connected(links, b, c)
    ensures Connected(links, a, c)
  {
    var p :| IsWalk(links, p) && p[0] == a && p[|p| - 1] == b;
    var q :| IsWalk(links, q) && q[0] == b && q[|q| - 1] == c;
    var r := p + q[1..];
    forall i | 0 <= i < |r| - 1 ensures Linked(links, r[i], r[i + 1]) {
      if i < |p| - 1 {
        assert Linked(links, p[i], p[i + 1]);
      } else {
        assert Linked(links, q[i - |p| + 1], q[i - |p| + 2]);
      }
    }
    assert IsWalk(links, r) && r[0] == a && r[|r| - 1] == c;
  }

  lemma ConnectedSymmetric(links: Links, a: nat, b: nat)
    requires Connected(links, a, b)
    ensures Connected(links, b, a)
  {
    var p :| IsWalk(links, p) && p[0] == a && p[|p| - 1] == b;
    var n := |p|;
    var q := seq(n, i requires 0 <= i < n => p[n - 1 - i]);
    forall i | 0 <= i < |q| - 1 ensures Linked(links, q[i], q[i + 1]) {
      assert Linked(links, p[n - 2 - i], p[n - 1 - i]);
    }
    assert IsWalk(links, q) && q[0] == b && q[|q| - 1] == a;
  }

  /** Links that are all connected by other links connect no more than those. */
  lemma {:induction false} WalkWithin(links: Links, more: Links, p: seq<nat>)
    requires IsWalk(links, p)
    requires forall x, y :: Linked(links, x, y) ==> Connected(more, x, y)
    ensures Connected(more, p[0], p[|p| - 1])
  {
    if |p| == 1 {
      ConnectedSelf(more, p[0]);
    } else {
      var rest := p[1..];
      forall i | 0 <= i < |rest| - 1 ensures Linked(links, rest[i], rest[i + 1]) {
        assert Linked(links, p[i + 1], p[i + 2]);
      }
      WalkWithin(links, more, rest);
      assert Linked(links, p[0], p[1]);
      ConnectedTransitive(more, p[0], p[1], p[|p| - 1]);
    }
  }

  lemma ConnectedWithin(links: Links, more: Links, a: nat, b: nat)
    requires Connected(links, a, b)
    requires forall x, y :: Linked(links, x, y) ==> Connected(more, x, y)
    ensures Connected(more, a, b)
  {
    var p :| IsWalk(links, p) && p[0] == a && p[|p| - 1] == b;
    WalkWithin(links, more, p);
  }

  lemma NothingConnected(a: nat, b: nat)
    ensures Connected([], a, b) <==> a == b
  {
    ConnectedSelf([], a);
    if Connected([], a, b) {
      var p :| IsWalk([], p) && p[0] == a && p[|p| - 1] == b;
      assert |p| >= 2 ==> Linked([], p[0], p[1]);
    }
  }

  // ---- union-find ----

  type Rep = nat -> nat

  function ParentOf(parent: map<nat, nat>, x: nat): nat {
    if x in parent then parent[x] else x
  }

  /** One step along the parents keeps the representative and lowers the height, until the representative. */
  ghost predicate Rooted(parent: map<nat, nat>, rep: Rep, height: Rep, x: nat) {
    var p := ParentOf(parent, x);
    && rep(rep(x)) == rep(x)
    && rep(p) == rep(x)
    && (p == x <==> rep(x) == x)
    && (p != x ==> height(p) < height(x))
  }

  /** The parent pointers lead from every element to its representative, along falling heights. */
  ghost predicate Forest(parent: map<nat, nat>, rep: Rep, height: Rep) {
    forall x: nat :: Rooted(parent, rep, height, x)
  }

  ghost predicate Agrees(rep: Rep, links: Links, x: nat, y: nat) {
    rep(x) == rep(y) <==> Connected(links, x, y)
  }

  /** Representatives agree exactly on connected elements. */
  ghost predicate Exact(rep: Rep, links: Links) {
    forall x: nat, y: nat :: Agrees(rep, links, x, y)
  }

  /** The height never rises on the way to the representative. */
  lemma {:induction false} RepIsLower(parent: map<nat, nat>, rep: Rep, height: Rep, x: nat)
    requires Forest(parent, rep, height)
    ensures height(rep(x)) <= height(x)
    ensures rep(x) != x ==> height(rep(x)) < height(x)
    decreases height(x)
  {
    assert Rooted(parent, rep, height, x);
    if ParentOf(parent, x) != x {
      RepIsLower(parent, rep, height, ParentOf(parent, x));
    }
  }

  /** Hanging an element directly below its representative changes no representative. */
  lemma CompressKeepsForest(parent: map<nat, nat>, rep: Rep, height: Rep, x: nat)
    requires Forest(parent, rep, height) && rep(x) != x
    ensures Forest(parent[x := rep(x)], rep, height)
  {
    RepIsLower(parent, rep, height, x);
    var after := parent[x := rep(x)];
    forall y: nat ensures Rooted(after, rep, height, y) {
      assert Rooted(parent, rep, height, y) && Rooted(parent, rep, height, x);
    }
  }

  /** The representative after a union of `a` and `b`. */
  ghost function Merged(rep: Rep, a: nat, b: nat, x: nat): nat {
    if rep(x) == rep(a) then rep(b) else rep(x)
  }

  ghost function MergedRep(rep: Rep, a: nat, b: nat): Rep {
    (x: nat) => Merged(rep, a, b, x)
  }

  /** The merged tree is lifted above the root it is hung below. */
  ghost function Lifted(rep: Rep, height: Rep, a: nat, b: nat): Rep {
    (x: nat) => if rep(x) == rep(a) then height(x) + height(rep(b)) + 1 else height(x)
  }

  lemma LinkKeepsForest(parent: map<nat, nat>, rep: Rep, height: Rep, a: nat, b: nat)
    requires Forest(parent, rep, height) && rep(a) != rep(b)
    ensures Forest(parent[rep(a) := rep(b)], MergedRep(rep, a, b), Lifted(rep, height, a, b))
  {
    var ra, rb := rep(a), rep(b);
    var after, rep', height' := parent[ra := rb], MergedRep(rep, a, b), Lifted(rep, height, a, b);
    forall x: nat ensures Rooted(after, rep', height', x) {
      assert Rooted(parent, rep, height, x) && Rooted(parent, rep, height, a) && Rooted(parent, rep, height, b);
      assert Rooted(parent, rep, height, ra) && Rooted(parent, rep, height, rb);
      if x != ra {
        assert ParentOf(after, x) == ParentOf(parent, x);
      }
    }
  }

  class UnionFind {
    var parent: map<nat, nat>
    ghost var rep: Rep
    ghost var height: Rep
    /** The unions made so far. */
    ghost var links: Links

    ghost predicate Valid()
      reads this
    {
      Forest(parent, rep, height) && Exact(rep, links)
    }

    constructor ()
      ensures Valid() && links == []
    {
      parent := map[];
      rep := (x: nat) => x;
      height := (x: nat) => 0;
      links := [];
      new;
      forall x: nat, y: nat ensures Agrees(rep, links, x, y) {
        NothingConnected(x, y);
      }
    }

    /** Follows the parents to the root and hangs everything passed directly below it. */
    method Find(x: nat) returns (r: nat)
      requires Valid()
      modifies `parent
      ensures Valid() && r == rep(x)
      decreases height(x)
    {
      r := if x in parent then parent[x] else x;
      assert r == ParentOf(parent, x) && Rooted(parent, rep, height, x);
      if r != x {
        r := Find(r);
        CompressKeepsForest(parent, rep, height, x);
        parent := parent[x := r];
      }
    }

    method Union(a: nat, b: nat)
      requires Valid()
      modifies this
      ensures Valid() && links == old(links) + [(a, b)]
    {
      var ra := Find(a);
      var rb := Find(b);
      MergedIsExact(rep, links, a, b);
      if ra != rb {
        LinkKeepsForest(parent, rep, height, a, b);
        parent := parent[ra := rb];
        height := Lifted(rep, height, a, b);
        rep := MergedRep(rep, a, b);
      }
      links := links + [(a, b)];
    }
  }

  lemma MergedIsExact(rep: Rep, links: Links, a: nat, b: nat)
    requires Exact(rep, links)
    ensures Exact(MergedRep(rep, a, b), links + [(a, b)])
    ensures rep(a) == rep(b) ==> Exact(rep, links + [(a, b)])
  {
    forall x: nat, y: nat
      ensures Agrees(MergedRep(rep, a, b), links + [(a, b)], x, y)
      ensures rep(a) == rep(b) ==> Agrees(rep, links + [(a, b)], x, y)
    {
      MergedIsConnected(rep, links, a, b, x, y);
    }
  }

  /** Joining two classes is what one more link does to the closure. */
  lemma MergedIsConnected(rep: Rep, links: Links, a: nat, b: nat, x: nat, y: nat)
    requires Exact(rep, links)
    ensures Merged(rep, a, b, x) == Merged(rep, a, b, y) <==> Connected(links + [(a, b)], x, y)
  {
    var more := links + [(a, b)];
    forall u, v | Linked(links, u, v) ensures Connected(more, u, v) {
      ConnectedStep(more, u, v);
    }
    assert Linked(more, a, b);
    ConnectedStep(more, a, b);
    assert Agrees(rep, links, x, y) && Agrees(rep, links, x, a) && Agrees(rep, links, y, b);
    assert Agrees(rep, links, b, y) && Agrees(rep, links, y, a) && Agrees(rep, links, b, x);
    if Merged(rep, a, b, x) == Merged(rep, a, b, y) {
      if rep(x) == rep(y) {
        ConnectedWithin(links, more, x, y);
      } else if rep(x) == rep(a) {
        assert rep(y) == rep(b);
        ConnectedWithin(links, more, x, a);
        ConnectedWithin(links, more, b, y);
        ConnectedTransitive(more, x, a, b);
        ConnectedTransitive(more, x, b, y);
      } else {
        assert rep(y) == rep(a) && rep(x) == rep(b);
        ConnectedWithin(links, more, y, a);
        ConnectedWithin(links, more, b, x);
        ConnectedTransitive(more, y, a, b);
        ConnectedTransitive(more, y, b, x);
        ConnectedSymmetric(more, y, x);
      }
    }
    if Connected(more, x, y) {
      var p :| IsWalk(more, p) && p[0] == x && p[|p| - 1] == y;
      MergedAlongWalk(rep, links, a, b, p);
    }
  }

  lemma {:induction false} MergedAlongWalk(rep: Rep, links: Links, a: nat, b: nat, p: seq<nat>)
    requires Exact(rep, links)
    requires IsWalk(links + [(a, b)], p)
    ensures Merged(rep, a, b, p[0]) == Merged(rep, a, b, p[|p| - 1])
  {
    if |p| > 1 {
      var more, rest := links + [(a, b)], p[1..];
      forall i | 0 <= i < |rest| - 1 ensures Linked(more, rest[i], rest[i + 1]) {
        assert Linked(more, p[i + 1], p[i + 2]);
      }
      MergedAlongWalk(rep, links, a, b, rest);
      assert Linked(more, p[0], p[1]);
      if Linked(links, p[0], p[1]) {
        ConnectedStep(links, p[0], p[1]);
        assert Agrees(rep, links, p[0], p[1]);
      }
    }
  }

  // ---- matched windows ----

  /** Positions are encoded as file index times 2^24 plus window index. */
  const POS: nat := 0x100_0000

  /** The hash of every window of every file. */
  type Hashes = seq<seq<Hash>>

  type Hash = nat

  /** Fewer than 2^24 windows a file, so that neighbours in the encoding are neighbours in a file. */
  ghost predicate Encodable(hashes: Hashes) {
    forall f :: 0 <= f < |hashes| ==> |hashes[f]| < POS
  }

  predicate IsWindow(hashes: Hashes, p: nat) {
    p / POS < |hashes| && p % POS < |hashes[p / POS]|
  }

  function HashAt(hashes: Hashes, p: nat): Hash
    requires IsWindow(hashes, p)
  {
    hashes[p / POS][p % POS]
  }

  /** The window occurs more than once, judged by its hash. */
  ghost predicate Matched(hashes: Hashes, p: nat) {
    IsWindow(hashes, p) && exists q: nat :: q != p && IsWindow(hashes, q) && HashAt(hashes, q) == HashAt(hashes, p)
  }

  /** Matched windows with one hash, or next to each other. */
  ghost predicate Related(hashes: Hashes, p: nat, q: nat) {
    Matched(hashes, p) && Matched(hashes, q) && (HashAt(hashes, p) == HashAt(hashes, q) || q == p + 1 || p == q + 1)
  }

  lemma EncodeDecode(f: nat, i: nat)
    requires i < POS
    ensures (f * POS + i) / POS == f && (f * POS + i) % POS == i
  {
  }

  /** Windows next to each other in the encoding lie in one file, in adjacent places. */
  lemma NeighboursShareFile(hashes: Hashes, p: nat)
    requires Encodable(hashes) && IsWindow(hashes, p) && IsWindow(hashes, p + 1)
    ensures (p + 1) / POS == p / POS && (p + 1) % POS == p % POS + 1
  {
    var f, i := p / POS, p % POS;
    assert p == f * POS + i;
    EncodeDecode(f, i + 1);
  }

  // ---- the index from hashes to positions ----

  type Index = map<Hash, seq<nat>>

  /** The index lists, in order, exactly the windows below `bound`. */
  ghost predicate Indexes(index: Index, hashes: Hashes, bound: nat) {
    && (forall h, k :: h in index && 0 <= k < |index[h]| ==>
          IsWindow(hashes, index[h][k]) && HashAt(hashes, index[h][k]) == h && index[h][k] < bound)
    && (forall h, j, k :: h in index && 0 <= j < k < |index[h]| ==> index[h][j] < index[h][k])
    && (forall p: nat :: IsWindow(hashes, p) && p < bound ==> HashAt(hashes, p) in index && p in index[HashAt(hashes, p)])
  }

  lemma IndexOne(index: Index, hashes: Hashes, f: nat, i: nat)
    requires Encodable(hashes) && f < |hashes| && i < |hashes[f]| && Indexes(index, hashes, f * POS + i)
    ensures var h := hashes[f][i];
      Indexes(index[h := (if h in index then index[h] else []) + [f * POS + i]], hashes, f * POS + i + 1)
  {
    var p, h := f * POS + i, hashes[f][i];
    EncodeDecode(f, i);
    var list := (if h in index then index[h] else []) + [p];
    var after := index[h := list];
    assert HashAt(hashes, p) == h;
    forall q: nat | IsWindow(hashes, q) && q < p + 1 ensures HashAt(hashes, q) in after && q in after[HashAt(hashes, q)] {
      if q == p {
        assert list[|list| - 1] == p;
      } else if HashAt(hashes, q) == h {
        var k :| 0 <= k < |index[h]| && index[h][k] == q;
        assert list[k] == q;
      }
    }
  }

  /** No window lies between the end of one file and the start of the next. */
  lemma NextFile(index: Index, hashes: Hashes, f: nat)
    requires Encodable(hashes) && f < |hashes| && Indexes(index, hashes, f * POS + |hashes[f]|)
    ensures Indexes(index, hashes, (f + 1) * POS)
  {
    forall p: nat | IsWindow(hashes, p) && p < (f + 1) * POS ensures p < f * POS + |hashes[f]| {
      assert p == (p / POS) * POS + p % POS;
    }
  }

  method BuildIndex(hashes: Hashes) returns (index: Index)
    requires Encodable(hashes)
    ensures Indexes(index, hashes, |hashes| * POS)
  {
    index := map[];
    for f := 0 to |hashes|
      invariant Indexes(index, hashes, f * POS)
    {
      for i := 0 to |hashes[f]|
        invariant Indexes(index, hashes, f * POS + i)
      {
        IndexOne(index, hashes, f, i);
        var h := hashes[f][i];
        index := index[h := (if h in index then index[h] else []) + [f * POS + i]];
      }
      NextFile(index, hashes, f);
    }
  }

  /** A full index has a list of two or more exactly for the hashes of matched windows. */
  lemma ListedTwice(index: Index, hashes: Hashes, p: nat)
    requires Indexes(index, hashes, |hashes| * POS)
    ensures Matched(hashes, p) <==> exists h :: h in index && |index[h]| >= 2 && p in index[h]
  {
    if Matched(hashes, p) {
      var q: nat :| q != p && IsWindow(hashes, q) && HashAt(hashes, q) == HashAt(hashes, p);
      var h := HashAt(hashes, p);
      assert p == (p / POS) * POS + p % POS && q == (q / POS) * POS + q % POS;
      assert p in index[h] && q in index[h];
      var i :| 0 <= i < |index[h]| && index[h][i] == p;
      var j :| 0 <= j < |index[h]| && index[h][j] == q;
    }
    if h :| h in index && |index[h]| >= 2 && p in index[h] {
      var i :| 0 <= i < |index[h]| && index[h][i] == p;
      var j := if i == 0 then 1 else 0;
      assert index[h][j] != p && IsWindow(hashes, index[h][j]);
    }
  }

  // ---- from the index to the classes ----

  /** A walk over matched windows, each related to the next. */
  ghost predicate IsKinWalk(hashes: Hashes, w: seq<nat>) {
    w != [] && Matched(hashes, w[0]) && forall i :: 0 <= i < |w| - 1 ==> Related(hashes, w[i], w[i + 1])
  }

  /** The closure of "same hash" and "adjacent" on matched windows. */
  ghost predicate Akin(hashes: Hashes, p: nat, q: nat) {
    exists w :: IsKinWalk(hashes, w) && w[0] == p && w[|w| - 1] == q
  }

  ghost predicate LinksSound(links: Links, hashes: Hashes) {
    forall a: nat, b: nat :: (a, b) in links ==> Related(hashes, a, b)
  }

  ghost predicate LinksComplete(links: Links, hashes: Hashes) {
    forall a: nat, b: nat :: Related(hashes, a, b) ==> Connected(links, a, b)
  }

  lemma ClosuresAgree(links: Links, hashes: Hashes, p: nat, q: nat)
    requires LinksSound(links, hashes) && LinksComplete(links, hashes) && Matched(hashes, p)
    ensures Connected(links, p, q) <==> Akin(hashes, p, q)
  {
    if Connected(links, p, q) {
      var w :| IsWalk(links, w) && w[0] == p && w[|w| - 1] == q;
      forall i | 0 <= i < |w| - 1 ensures Related(hashes, w[i], w[i + 1]) {
        assert Linked(links, w[i], w[i + 1]);
      }
      assert IsKinWalk(hashes, w);
    }
    if Akin(hashes, p, q) {
      var w :| IsKinWalk(hashes, w) && w[0] == p && w[|w| - 1] == q;
      KinAreConnected(links, hashes, w);
    }
  }

  lemma {:induction false} KinAreConnected(links: Links, hashes: Hashes, w: seq<nat>)
    requires LinksComplete(links, hashes) && IsKinWalk(hashes, w)
    ensures Connected(links, w[0], w[|w| - 1])
  {
    if |w| == 1 {
      ConnectedSelf(links, w[0]);
    } else {
      assert Related(hashes, w[0], w[1]);
      var rest := w[1..];
      forall i | 0 <= i < |rest| - 1 ensures Related(hashes, rest[i], rest[i + 1]) {
        assert Related(hashes, w[i + 1], w[i + 2]);
      }
      KinAreConnected(links, hashes, rest);
      ConnectedTransitive(links, w[0], w[1], w[|w| - 1]);
    }
  }

  /** The windows of the lists of two or more among the hashes in `done`. */
  ghost predicate InRepeatedList(index: Index, done: set<Hash>, p: nat) {
    exists h :: h in done && h in index && |index[h]| >= 2 && p in index[h]
  }

  /** Every such list is linked to its first window. */
  ghost predicate ListsLinked(index: Index, done: set<Hash>, links: Links) {
    forall h, k :: h in done && h in index && |index[h]| >= 2 && 0 <= k < |index[h]| ==> (index[h][0], index[h][k]) in links
  }

  lemma RelatedInList(index: Index, hashes: Hashes, h: Hash, j: nat, k: nat)
    requires Indexes(index, hashes, |hashes| * POS) && h in index && |index[h]| >= 2
    requires j < |index[h]| && k < |index[h]|
    ensures Related(hashes, index[h][j], index[h][k])
  {
    ListedTwice(index, hashes, index[h][j]);
    ListedTwice(index, hashes, index[h][k]);
  }

  /** Star links inside each list and links between neighbours generate the whole relation. */
  lemma LinksAreComplete(index: Index, hashes: Hashes, links: Links)
    requires Indexes(index, hashes, |hashes| * POS) && ListsLinked(index, index.Keys, links)
    requires forall p: nat :: Matched(hashes, p) && Matched(hashes, p + 1) ==> LinkedToNext(links, p)
    ensures LinksComplete(links, hashes)
  {
    forall a: nat, b: nat | Related(hashes, a, b) ensures Connected(links, a, b) {
      assert LinkedToNext(links, a) ==> Linked(links, a, a + 1);
      assert LinkedToNext(links, b) ==> Linked(links, b, b + 1);
      if HashAt(hashes, a) == HashAt(hashes, b) {
        SameHashConnected(index, hashes, links, a, b);
      } else {
        assert Linked(links, a, b);
        ConnectedStep(links, a, b);
      }
    }
  }

  lemma SameHashConnected(index: Index, hashes: Hashes, links: Links, a: nat, b: nat)
    requires Indexes(index, hashes, |hashes| * POS) && ListsLinked(index, index.Keys, links)
    requires Matched(hashes, a) && Matched(hashes, b) && HashAt(hashes, a) == HashAt(hashes, b)
    ensures Connected(links, a, b)
  {
    ListedTwice(index, hashes, a);
    ListedTwice(index, hashes, b);
    var h := HashAt(hashes, a);
    var i :| 0 <= i < |index[h]| && index[h][i] == a;
    var j :| 0 <= j < |index[h]| && index[h][j] == b;
    var first := index[h][0];
    assert Linked(links, a, first) && Linked(links, first, b);
    ConnectedStep(links, a, first);
    ConnectedStep(links, first, b);
    ConnectedTransitive(links, a, first, b);
  }

  /** Links the windows of one list to its first window and marks them as matched. */
  method UnionList(list: seq<nat>, matched: set<nat>, hashes: Hashes, uf: UnionFind) returns (marked: set<nat>)
    requires uf.Valid() && LinksSound(uf.links, hashes)
    requires forall k :: 0 <= k < |list| ==> Related(hashes, list[0], list[k])
    modifies uf
    ensures uf.Valid() && LinksSound(uf.links, hashes) && old(uf.links) <= uf.links
    ensures forall k :: 0 <= k < |list| ==> (list[0], list[k]) in uf.links
    ensures forall p: nat :: p in marked <==> p in matched || p in list
  {
    marked := matched;
    for k := 0 to |list|
      invariant uf.Valid() && LinksSound(uf.links, hashes) && old(uf.links) <= uf.links
      invariant forall j :: 0 <= j < k ==> (list[0], list[j]) in uf.links
      invariant forall p: nat :: p in marked <==> p in matched || p in list[..k]
    {
      assert Related(hashes, list[0], list[k]);
      assert list[..k + 1] == list[..k] + [list[k]];
      marked := marked + {list[k]};
      uf.Union(list[0], list[k]);
    }
    assert list[..|list|] == list;
  }

  lemma OneMoreList(index: Index, done: set<Hash>, h: Hash, p: nat)
    requires h in index
    ensures InRepeatedList(index, done + {h}, p) <==>
      InRepeatedList(index, done, p) || (|index[h]| >= 2 && p in index[h])
  {
    if InRepeatedList(index, done + {h}, p) {
      var g :| g in done + {h} && g in index && |index[g]| >= 2 && p in index[g];
      assert g == h || g in done;
    }
  }

  /** Links every repeated hash's windows; returns the windows concerned. */
  method UnionLists(index: Index, hashes: Hashes, uf: UnionFind) returns (matched: set<nat>)
    requires Indexes(index, hashes, |hashes| * POS)
    requires uf.Valid() && uf.links == []
    modifies uf
    ensures uf.Valid() && LinksSound(uf.links, hashes) && ListsLinked(index, index.Keys, uf.links)
    ensures forall p: nat :: p in matched <==> InRepeatedList(index, index.Keys, p)
  {
    matched := {};
    var todo: set<Hash> := index.Keys;
    ghost var done: set<Hash> := {};
    while todo != {}
      invariant uf.Valid() && LinksSound(uf.links, hashes)
      invariant todo <= index.Keys && done == index.Keys - todo && ListsLinked(index, done, uf.links)
      invariant forall p: nat :: p in matched <==> InRepeatedList(index, done, p)
      decreases todo
    {
      var h: Hash :| h in todo;
      forall p: nat ensures InRepeatedList(index, done + {h}, p) <==>
        InRepeatedList(index, done, p) || (|index[h]| >= 2 && p in index[h])
      {
        OneMoreList(index, done, h, p);
      }
      if |index[h]| >= 2 {
        forall k | 0 <= k < |index[h]| ensures Related(hashes, index[h][0], index[h][k]) {
          RelatedInList(index, hashes, h, 0, k);
        }
        matched := UnionList(index[h], matched, hashes, uf);
      }
      todo := todo - {h};
      done := done + {h};
    }
    assert done == index.Keys;
  }

  /** The link from a window to the next. */
  predicate LinkedToNext(links: Links, p: nat) {
    (p, p + 1) in links
  }

  /** Links every matched window to the next one when that is matched too. */
  method UnionNeighbours(matched: set<nat>, hashes: Hashes, uf: UnionFind)
    requires uf.Valid() && LinksSound(uf.links, hashes)
    requires forall p: nat :: p in matched <==> Matched(hashes, p)
    modifies uf
    ensures uf.Valid() && LinksSound(uf.links, hashes) && old(uf.links) <= uf.links
    ensures forall p: nat :: p in matched && p + 1 in matched ==> LinkedToNext(uf.links, p)
  {
    var todo := matched;
    while todo != {}
      invariant uf.Valid() && LinksSound(uf.links, hashes) && old(uf.links) <= uf.links
      invariant todo <= matched
      invariant forall p: nat :: p in matched && p !in todo && p + 1 in matched ==> LinkedToNext(uf.links, p)
      decreases todo
    {
      var p: nat :| p in todo;
      ghost var before := uf.links;
      if p + 1 in matched {
        assert Related(hashes, p, p + 1);
        uf.Union(p, p + 1);
        assert forall q: nat :: LinkedToNext(before, q) ==> LinkedToNext(uf.links, q);
        assert uf.links[|before|] == (p, p + 1);
      }
      todo := todo - {p};
    }
  }

  /**
   The classes of the union-find on matched windows are exactly the classes of
   the closure of "same hash" and "adjacent".
   */
  method BuildClasses(hashes: Hashes) returns (uf: UnionFind, matched: set<nat>)
    requires Encodable(hashes)
    ensures fresh(uf) && uf.Valid()
    ensures forall p: nat :: p in matched <==> Matched(hashes, p)
    ensures forall p: nat, q: nat :: p in matched && q in matched ==> (uf.rep(p) == uf.rep(q) <==> Akin(hashes, p, q))
  {
    var index := BuildIndex(hashes);
    uf := new UnionFind();
    matched := UnionLists(index, hashes, uf);
    forall p: nat ensures p in matched <==> Matched(hashes, p) {
      ListedTwice(index, hashes, p);
    }
    UnionNeighbours(matched, hashes, uf);
    LinksAreComplete(index, hashes, uf.links);
    forall p: nat, q: nat | p in matched && q in matched ensures uf.rep(p) == uf.rep(q) <==> Akin(hashes, p, q) {
      assert Agrees(uf.rep, uf.links, p, q);
      ClosuresAgree(uf.links, hashes, p, q);
    }
  }

  /** The matched windows in `done`, each in the list of its representative and nowhere else. */
  ghost predicate Grouped(clusters: map<nat, seq<nat>>, rep: Rep, done: set<nat>) {
    && (forall r, k :: r in clusters && 0 <= k < |clusters[r]| ==> clusters[r][k] in done && rep(clusters[r][k]) == r)
    && (forall p: nat :: p in done ==> rep(p) in clusters && p in clusters[rep(p)])
    && (forall r, k, l :: r in clusters && 0 <= k < l < |clusters[r]| ==> clusters[r][k] != clusters[r][l])
  }

  lemma GroupOne(clusters: map<nat, seq<nat>>, rep: Rep, done: set<nat>, p: nat)
    requires Grouped(clusters, rep, done) && p !in done
    ensures Grouped(clusters[rep(p) := (if rep(p) in clusters then clusters[rep(p)] else []) + [p]], rep, done + {p})
  {
    var root := rep(p);
    var list := if root in clusters then clusters[root] else [];
    var after := clusters[root := list + [p]];
    forall q: nat | q in done + {p} ensures rep(q) in after && q in after[rep(q)] {
      if q == p {
        assert after[root][|list|] == p;
      } else if rep(q) == root {
        var k :| 0 <= k < |list| && list[k] == q;
        assert after[root][k] == q;
      }
    }
  }

  /** The clusters hold every matched window once, and two of them together exactly when they are akin. */
  ghost predicate IsClustering(clusters: map<nat, seq<nat>>, hashes: Hashes) {
    && (forall r, k :: r in clusters && 0 <= k < |clusters[r]| ==> Matched(hashes, clusters[r][k]))
    && (forall p: nat :: Matched(hashes, p) ==> exists r :: r in clusters && p in clusters[r])
    && (forall r, k, l :: r in clusters && 0 <= k < l < |clusters[r]| ==> clusters[r][k] != clusters[r][l])
    && (forall r, t, k, l :: r in clusters && t in clusters && 0 <= k < |clusters[r]| && 0 <= l < |clusters[t]| ==>
          (r == t <==> Akin(hashes, clusters[r][k], clusters[t][l])))
  }

  /** Groups the matched windows by root, as the clusters of the result. */
  method Clusters(hashes: Hashes) returns (clusters: map<nat, seq<nat>>)
    requires Encodable(hashes)
    ensures IsClustering(clusters, hashes)
  {
    var uf, matched := BuildClasses(hashes);
    clusters := map[];
    var todo := matched;
    ghost var rep, done := uf.rep, {};
    while todo != {}
      invariant uf.Valid() && uf.rep == rep && todo <= matched && done == matched - todo
      invariant Grouped(clusters, rep, done)
      decreases todo
    {
      var p: nat :| p in todo;
      var root := uf.Find(p);
      GroupOne(clusters, rep, done, p);
      clusters := clusters[root := (if root in clusters then clusters[root] else []) + [p]];
      todo := todo - {p};
      done := done + {p};
    }
    assert done == matched;
  }
}
