/** Chain contraction (main.py:350-387): frequent stop pairs with the same
    signature that share an endpoint are merged into one polyline. */
module Chains {
  import opened Wrappers
  import opened Signatures

  /** An entry `(a, b, key, tags, lst)` of the pool `frequent_hash`: the
      stop ids of a frequent pair, its signature, its tags and a polyline
      list (empty while in the pool). */
  datatype Segment = Segment(left: string, right: string, key: string, tags: seq<Tag>, polyline: seq<string>)

  /** What `extend` returns, `(left, right, routes, key, lst)`: the tags
      now come before the signature. */
  datatype Chain = Chain(left: string, right: string, tags: seq<Tag>, key: string, polyline: seq<string>)

  predicate Touches(e: Segment, point: string) {
    point == e.left || point == e.right
  }

  /** What `find` looks for: same signature, `point` as an endpoint. */
  predicate Matches(e: Segment, point: string, key: string) {
    Touches(e, point) && e.key == key
  }

  /** `find(point)`: the first entry of the pool, in pool order, with
      signature `key` and `point` as one of its endpoints. */
  function Find(pool: seq<Segment>, point: string, key: string): Option<Segment> {
    if pool == [] then None
    else if Matches(pool[0], point, key) then Some(pool[0])
    else Find(pool[1..], point, key)
  }

  /** `find` answers None exactly when no entry matches, and otherwise
      the entry at the first matching position. */
  lemma {:induction false} FindSpec(pool: seq<Segment>, point: string, key: string)
    ensures Find(pool, point, key).None? <==> forall i :: 0 <= i < |pool| ==> !Matches(pool[i], point, key)
    ensures Find(pool, point, key).Some? ==>
              exists i :: 0 <= i < |pool| && pool[i] == Find(pool, point, key).value && Matches(pool[i], point, key)
                          && forall j :: 0 <= j < i ==> !Matches(pool[j], point, key)
  {
    if pool != [] && !Matches(pool[0], point, key) {
      FindSpec(pool[1..], point, key);
      var r := Find(pool[1..], point, key);
      assert forall i :: 1 <= i < |pool| ==> pool[1..][i - 1] == pool[i];
      if r.Some? {
        var i :| 0 <= i < |pool| - 1 && pool[1..][i] == r.value && Matches(r.value, point, key)
                 && forall j :: 0 <= j < i ==> !Matches(pool[1..][j], point, key);
        assert pool[i + 1] == r.value;
        assert forall j :: 1 <= j < i + 1 ==> !Matches(pool[j], point, key);
      }
    }
  }

  /** What `extend` uses of `find`: a found entry is in the pool and
      matches; none is found exactly when no entry of signature `key`
      touches `point`. */
  lemma FindFound(pool: seq<Segment>, point: string, key: string)
    ensures Find(pool, point, key).Some? ==> Find(pool, point, key).value in pool && Matches(Find(pool, point, key).value, point, key)
    ensures Find(pool, point, key).None? <==> forall e :: e in pool && e.key == key ==> !Touches(e, point)
  {
    FindSpec(pool, point, key);
    if Find(pool, point, key).Some? {
      var i :| 0 <= i < |pool| && pool[i] == Find(pool, point, key).value && Matches(pool[i], point, key);
    }
  }

  /** `list.remove(x)`: drops the first entry equal to `x`. */
  function RemoveFirst(s: seq<Segment>, x: Segment): (r: seq<Segment>)
    requires x in s
    ensures multiset(r) == multiset(s) - multiset{x}
    ensures |r| == |s| - 1
  {
    assert s == [s[0]] + s[1..];
    if s[0] == x then s[1..] else [s[0]] + RemoveFirst(s[1..], x)
  }

  /** `list.remove` drops the entry at the first position holding `x`
      and keeps every other entry in its order. */
  lemma {:induction false} RemoveFirstSpec(s: seq<Segment>, x: Segment)
    requires x in s
    ensures exists i :: 0 <= i < |s| && s[i] == x && x !in s[..i] && RemoveFirst(s, x) == s[..i] + s[i + 1..]
  {
    if s[0] == x {
      assert s[..0] + s[1..] == s[1..];
    } else {
      var t := s[1..];
      RemoveFirstSpec(t, x);
      var i :| 0 <= i < |t| && t[i] == x && x !in t[..i] && RemoveFirst(t, x) == t[..i] + t[i + 1..];
      ConsSplit(s, i);
      assert RemoveFirst(s, x) == s[..i + 1] + s[i + 2..];
    }
  }

  /** Splitting `s` around position `i + 1` is splitting its tail around
      position `i`. */
  lemma ConsSplit<T>(s: seq<T>, i: nat)
    requires i + 1 < |s|
    ensures s[..i + 1] == [s[0]] + s[1..][..i] && s[i + 2..] == s[1..][i + 1..]
    ensures [s[0]] + (s[1..][..i] + s[1..][i + 1..]) == s[..i + 1] + s[i + 2..]
  {
  }

  /** What remains after a removal was in the pool before. */
  lemma RemoveFirstWithin(s: seq<Segment>, x: Segment)
    requires x in s
    ensures forall e :: e in RemoveFirst(s, x) ==> e in s
  {
    forall e | e in RemoveFirst(s, x) ensures e in s {
      assert e in multiset(RemoveFirst(s, x));
    }
  }

  /** The entries whose signature is not `key`, in pool order. */
  function WithoutKey(s: seq<Segment>, key: string): (r: seq<Segment>)
    ensures forall e :: e in r <==> e in s && e.key != key
  {
    if s == [] then []
    else (if s[0].key != key then [s[0]] else []) + WithoutKey(s[1..], key)
  }

  /** Removing an entry of signature `key` leaves the entries of every
      other signature where they were, in the same relative order. */
  lemma {:induction false} RemoveKeepsOthers(s: seq<Segment>, x: Segment, key: string)
    requires x in s && x.key == key
    ensures WithoutKey(RemoveFirst(s, x), key) == WithoutKey(s, key)
  {
    if s[0] != x {
      RemoveKeepsOthers(s[1..], x, key);
      assert ([s[0]] + RemoveFirst(s[1..], x))[1..] == RemoveFirst(s[1..], x);
    }
  }

  /** The endpoint of `e` that is not `point`. */
  function Other(e: Segment, point: string): string {
    if point == e.left then e.right else e.left
  }

  /** `e` connects `x` and `y`, in either direction. */
  predicate Joins(e: Segment, x: string, y: string) {
    (e.left == x && e.right == y) || (e.left == y && e.right == x)
  }

  /** `poly` walks along `edges`: edge `i` joins stop `i` and stop `i + 1`. */
  predicate Walk(poly: seq<string>, edges: seq<Segment>) {
    && |poly| == |edges| + 1
    && forall i :: 0 <= i < |edges| ==> Joins(edges[i], poly[i], poly[i + 1])
  }

  lemma OtherJoins(e: Segment, point: string)
    requires Touches(e, point)
    ensures Joins(e, Other(e, point), point) && Joins(e, point, Other(e, point))
  {
  }

  /** A walk extended by one edge at its front. */
  lemma WalkPrepend(poly: seq<string>, edges: seq<Segment>, e: Segment, p: string)
    requires Walk(poly, edges) && Joins(e, p, poly[0])
    ensures Walk([p] + poly, [e] + edges)
  {
    var poly', edges' := [p] + poly, [e] + edges;
    forall i | 0 <= i < |edges'| ensures Joins(edges'[i], poly'[i], poly'[i + 1]) {
      if i > 0 {
        assert edges'[i] == edges[i - 1] && poly'[i] == poly[i - 1] && poly'[i + 1] == poly[i];
      }
    }
  }

  /** A walk extended by one edge at its back. */
  lemma WalkAppend(poly: seq<string>, edges: seq<Segment>, e: Segment, p: string)
    requires Walk(poly, edges) && Joins(e, poly[|poly| - 1], p)
    ensures Walk(poly + [p], edges + [e])
  {
    var poly', edges' := poly + [p], edges + [e];
    forall i | 0 <= i < |edges'| ensures Joins(edges'[i], poly'[i], poly'[i + 1]) {
      if i < |edges| {
        assert edges'[i] == edges[i] && poly'[i] == poly[i] && poly'[i + 1] == poly[i + 1];
      }
    }
  }

  /** `pool` is `pool0` with the entries `edges`, all of signature
      `key`, taken out: what `extend` keeps true as it removes entries. */
  ghost predicate Taken(pool0: seq<Segment>, pool: seq<Segment>, edges: seq<Segment>, key: string) {
    && multiset(pool0) == multiset(pool) + multiset(edges)
    && |pool| + |edges| == |pool0|
    && WithoutKey(pool, key) == WithoutKey(pool0, key)
    && (forall e :: e in edges ==> e.key == key)
    && (forall e :: e in pool ==> e in pool0)
  }

  /** Taking one more entry of signature `key` out of the pool. */
  lemma TakeOne(pool0: seq<Segment>, pool: seq<Segment>, edges: seq<Segment>, key: string, q: Segment)
    requires Taken(pool0, pool, edges, key) && q in pool && q.key == key
    ensures Taken(pool0, RemoveFirst(pool, q), [q] + edges, key)
    ensures Taken(pool0, RemoveFirst(pool, q), edges + [q], key)
    ensures forall e :: e in RemoveFirst(pool, q) ==> e in pool
  {
    RemoveKeepsOthers(pool, q, key);
    RemoveFirstWithin(pool, q);
    assert multiset([q] + edges) == multiset{q} + multiset(edges);
    assert multiset(edges + [q]) == multiset(edges) + multiset{q};
  }

  /** Two takings one after the other are one taking. */
  lemma TakenJoin(pool0: seq<Segment>, pool1: seq<Segment>, pool: seq<Segment>,
                  xs: seq<Segment>, ys: seq<Segment>, key: string)
    requires Taken(pool0, pool1, xs, key) && Taken(pool1, pool, ys, key)
    ensures Taken(pool0, pool, xs + ys, key) && Taken(pool0, pool, ys + xs, key)
  {
    assert multiset(xs + ys) == multiset(xs) + multiset(ys);
    assert multiset(ys + xs) == multiset(ys) + multiset(xs);
  }

  /** The pool after `list.remove` of each entry of `xs`, the last one
      first, skipping an entry that is no longer there: `extend`'s left
      loop takes the edges of its chain in this order, as the chain grows
      at its front. */
  ghost function RemoveFront(s: seq<Segment>, xs: seq<Segment>): seq<Segment>
  {
    if xs == [] then s
    else
      var r := RemoveFront(s, xs[1..]);
      if xs[0] in r then RemoveFirst(r, xs[0]) else r
  }

  /** The same with the first entry of `xs` removed first: the order of
      the right loop, as the chain grows at its back. */
  ghost function RemoveBack(s: seq<Segment>, xs: seq<Segment>): seq<Segment>
  {
    if xs == [] then s
    else
      var r := RemoveBack(s, xs[..|xs| - 1]);
      if xs[|xs| - 1] in r then RemoveFirst(r, xs[|xs| - 1]) else r
  }

  /** The left loop taking one more entry. */
  lemma RemoveFrontCons(s: seq<Segment>, q: Segment, xs: seq<Segment>)
    requires q in RemoveFront(s, xs)
    ensures RemoveFront(s, [q] + xs) == RemoveFirst(RemoveFront(s, xs), q)
  {
    assert ([q] + xs)[1..] == xs;
  }

  /** The right loop taking one more entry. */
  lemma RemoveBackSnoc(s: seq<Segment>, xs: seq<Segment>, q: Segment)
    requires q in RemoveBack(s, xs)
    ensures RemoveBack(s, xs + [q]) == RemoveFirst(RemoveBack(s, xs), q)
  {
    assert (xs + [q])[..|xs|] == xs;
  }

  /** Each removal takes at most one entry. */
  lemma {:induction false} RemoveFrontSize(s: seq<Segment>, xs: seq<Segment>)
    ensures |s| - |xs| <= |RemoveFront(s, xs)| <= |s|
  {
    if xs != [] {
      RemoveFrontSize(s, xs[1..]);
    }
  }

  lemma {:induction false} RemoveBackSize(s: seq<Segment>, xs: seq<Segment>)
    ensures |s| - |xs| <= |RemoveBack(s, xs)| <= |s|
  {
    if xs != [] {
      RemoveBackSize(s, xs[..|xs| - 1]);
    }
  }

  /** When the pool shrank by one entry per removal, every removal found
      its entry: the entries of `xs` were taken out. */
  lemma {:induction false} RemoveFrontTaken(s: seq<Segment>, xs: seq<Segment>, key: string)
    requires |RemoveFront(s, xs)| + |xs| == |s|
    requires forall e :: e in xs ==> e.key == key
    ensures Taken(s, RemoveFront(s, xs), xs, key)
  {
    if xs != [] {
      var r := RemoveFront(s, xs[1..]);
      RemoveFrontSize(s, xs[1..]);
      assert xs[0] in r;
      assert xs == [xs[0]] + xs[1..];
      RemoveFrontTaken(s, xs[1..], key);
      TakeOne(s, r, xs[1..], key, xs[0]);
    }
  }

  lemma {:induction false} RemoveBackTaken(s: seq<Segment>, xs: seq<Segment>, key: string)
    requires |RemoveBack(s, xs)| + |xs| == |s|
    requires forall e :: e in xs ==> e.key == key
    ensures Taken(s, RemoveBack(s, xs), xs, key)
  {
    if xs != [] {
      var init := xs[..|xs| - 1];
      var r := RemoveBack(s, init);
      RemoveBackSize(s, init);
      assert xs[|xs| - 1] in r;
      assert xs == init + [xs[|xs| - 1]];
      RemoveBackTaken(s, init, key);
      TakeOne(s, r, init, key, xs[|xs| - 1]);
    }
  }

  /** What `extend` takes off the pool: `segment`, then the entries of
      the left loop, then those of the right loop, all of one signature. */
  lemma ExtendTaken(pool0: seq<Segment>, pool1: seq<Segment>, pool2: seq<Segment>, pool: seq<Segment>,
                    segment: Segment, lefts: seq<Segment>, rights: seq<Segment>)
    requires segment in pool0 && pool1 == RemoveFirst(pool0, segment)
    requires pool2 == RemoveFront(pool1, lefts) && |pool2| + |lefts| == |pool1|
    requires pool == RemoveBack(pool2, rights) && |pool| + |rights| == |pool2|
    requires forall e :: e in lefts + rights ==> e.key == segment.key
    ensures Taken(pool0, pool, lefts + [segment] + rights, segment.key)
  {
    var key := segment.key;
    assert Taken(pool0, pool0, [], key);
    TakeOne(pool0, pool0, [], key, segment);
    assert [segment] + [] == [segment];
    RemoveFrontTaken(pool1, lefts, key);
    TakenJoin(pool0, pool1, pool2, [segment], lefts, key);
    RemoveBackTaken(pool2, rights, key);
    TakenJoin(pool0, pool2, pool, lefts + [segment], rights, key);
  }

  /** One round of `extend`'s left loop: the chain, whose edges are
      `xs` and then `ys`, gains the entry `q` at its front. */
  lemma GrowLeft(poly: seq<string>, xs: seq<Segment>, ys: seq<Segment>, left: string, right: string, q: Segment)
    requires Walk(poly, xs + ys) && poly[0] == left && poly[|poly| - 1] == right
    requires Touches(q, left)
    ensures Walk([Other(q, left)] + poly, ([q] + xs) + ys) && ([Other(q, left)] + poly)[|poly|] == right
  {
    OtherJoins(q, left);
    WalkPrepend(poly, xs + ys, q, Other(q, left));
    assert [q] + (xs + ys) == ([q] + xs) + ys;
  }

  /** One round of `extend`'s right loop: the chain, whose edges are
      `xs` and then `ys`, gains the entry `q` at its back. */
  lemma GrowRight(poly: seq<string>, xs: seq<Segment>, ys: seq<Segment>, left: string, right: string, q: Segment)
    requires Walk(poly, xs + ys) && poly[0] == left && poly[|poly| - 1] == right
    requires Touches(q, right)
    ensures Walk(poly + [Other(q, right)], xs + (ys + [q])) && (poly + [Other(q, right)])[0] == left
  {
    OtherJoins(q, right);
    WalkAppend(poly, xs + ys, q, Other(q, right));
    assert xs + ys + [q] == xs + (ys + [q]);
  }

  /** Each entry `taken[i]` of the left loop was `find`'s answer at the
      left end `lst[i + 1]` it had then, in the pool from which the
      entries taken before it were removed. */
  ghost predicate LeftFinds(pool0: seq<Segment>, taken: seq<Segment>, lst: seq<string>, key: string)
    requires |taken| < |lst|
  {
    forall i :: 0 <= i < |taken| ==> Find(RemoveFront(pool0, taken[i + 1..]), lst[i + 1], key) == Some(taken[i])
  }

  /** Each entry `taken[i]` of the right loop was `find`'s answer at the
      right end `ends[i]` it had then, in the pool from which the entries
      taken before it were removed. */
  ghost predicate RightFinds(pool0: seq<Segment>, taken: seq<Segment>, ends: seq<string>, key: string)
    requires |taken| < |ends|
  {
    forall i :: 0 <= i < |taken| ==> Find(RemoveBack(pool0, taken[..i]), ends[i], key) == Some(taken[i])
  }

  /** The left loop taking `find`'s answer `q` at the left end `lst[0]`. */
  lemma LeftFindsCons(pool0: seq<Segment>, taken: seq<Segment>, lst: seq<string>, key: string, q: Segment, p: string)
    requires |taken| < |lst| && LeftFinds(pool0, taken, lst, key)
    requires Find(RemoveFront(pool0, taken), lst[0], key) == Some(q)
    ensures LeftFinds(pool0, [q] + taken, [p] + lst, key)
  {
    var taken', lst' := [q] + taken, [p] + lst;
    forall i | 0 <= i < |taken'|
      ensures Find(RemoveFront(pool0, taken'[i + 1..]), lst'[i + 1], key) == Some(taken'[i])
    {
      if i == 0 {
        assert taken'[1..] == taken;
      } else {
        assert taken'[i + 1..] == taken[i..] && lst'[i + 1] == lst[i] && taken'[i] == taken[i - 1];
      }
    }
  }

  /** The right loop taking `find`'s answer `q` at the right end, the last
      of `ends`. */
  lemma RightFindsSnoc(pool0: seq<Segment>, taken: seq<Segment>, ends: seq<string>, key: string, q: Segment, p: string)
    requires |taken| + 1 == |ends| && RightFinds(pool0, taken, ends, key)
    requires Find(RemoveBack(pool0, taken), ends[|ends| - 1], key) == Some(q)
    ensures RightFinds(pool0, taken + [q], ends + [p], key)
  {
    var taken', ends' := taken + [q], ends + [p];
    forall i | 0 <= i < |taken'|
      ensures Find(RemoveBack(pool0, taken'[..i]), ends'[i], key) == Some(taken'[i])
    {
      if i == |taken| {
        assert taken'[..i] == taken;
      } else {
        assert taken'[..i] == taken[..i];
      }
    }
  }

  /** Stops appended at the back leave the left loop's record as it is. */
  lemma LeftFindsAppend(pool0: seq<Segment>, taken: seq<Segment>, lst: seq<string>, more: seq<string>, key: string)
    requires |taken| < |lst| && LeftFinds(pool0, taken, lst, key)
    ensures LeftFinds(pool0, taken, lst + more, key)
  {
    forall i | 0 <= i < |taken|
      ensures Find(RemoveFront(pool0, taken[i + 1..]), (lst + more)[i + 1], key) == Some(taken[i])
    {
      assert (lst + more)[i + 1] == lst[i + 1];
    }
  }

  /** What `extend`'s left loop keeps true: the pool is the start pool
      with the entries `taken` removed, one each, all of signature `key`;
      the polyline walks along `taken` and then `edges0`, from `left` to
      `right`, and still ends in the start polyline `lst0`. */
  ghost predicate GrowingLeft(pool0: seq<Segment>, pool: seq<Segment>, taken: seq<Segment>, edges0: seq<Segment>,
                              lst0: seq<string>, lst: seq<string>, left: string, right: string, key: string) {
    && pool == RemoveFront(pool0, taken) && |pool| + |taken| == |pool0|
    && (forall e :: e in taken ==> e.key == key)
    && (forall e :: e in pool ==> e.polyline == [])
    && Walk(lst, taken + edges0) && lst[0] == left && lst[|lst| - 1] == right
    && LeftFinds(pool0, taken, lst, key)
    && |taken| <= |lst| && lst[|taken|..] == lst0
  }

  /** Putting `x` in front shifts every suffix by one. */
  lemma ConsSuffix<T>(x: T, s: seq<T>, n: nat)
    requires n <= |s|
    ensures ([x] + s)[n + 1..] == s[n..]
  {
  }

  /** One round of the left loop, for the entry `q` that `find` gave. */
  lemma StepLeft(pool0: seq<Segment>, pool: seq<Segment>, taken: seq<Segment>, edges0: seq<Segment>,
                 lst0: seq<string>, lst: seq<string>, left: string, right: string, key: string, q: Segment)
    requires GrowingLeft(pool0, pool, taken, edges0, lst0, lst, left, right, key)
    requires Find(pool, left, key) == Some(q) && q in pool && Matches(q, left, key)
    ensures GrowingLeft(pool0, RemoveFirst(pool, q), [q] + taken, edges0, lst0,
                        [Other(q, left)] + lst, Other(q, left), right, key)
  {
    ConsSuffix(Other(q, left), lst, |taken|);
    GrowLeft(lst, taken, edges0, left, right, q);
    LeftFindsCons(pool0, taken, lst, key, q, Other(q, left));
    RemoveFrontCons(pool0, q, taken);
    RemoveFirstWithin(pool, q);
  }

  /** The same for the right loop, whose polyline walks along `edges0`
      and then `taken`, and which keeps every entry of signature `key`
      off the left end. */
  ghost predicate GrowingRight(pool0: seq<Segment>, pool: seq<Segment>, edges0: seq<Segment>, taken: seq<Segment>,
                               lst: seq<string>, left: string, right: string, key: string) {
    && pool == RemoveBack(pool0, taken) && |pool| + |taken| == |pool0|
    && (forall e :: e in taken ==> e.key == key)
    && (forall e :: e in pool ==> e.polyline == [])
    && (forall e :: e in pool && e.key == key ==> !Touches(e, left))
    && Walk(lst, edges0 + taken) && lst[0] == left && lst[|lst| - 1] == right
    && RightFinds(pool0, taken, lst[|edges0|..], key)
  }

  lemma StepRight(pool0: seq<Segment>, pool: seq<Segment>, edges0: seq<Segment>, taken: seq<Segment>,
                  lst: seq<string>, left: string, right: string, key: string, q: Segment)
    requires GrowingRight(pool0, pool, edges0, taken, lst, left, right, key)
    requires Find(pool, right, key) == Some(q) && q in pool && Matches(q, right, key)
    ensures GrowingRight(pool0, RemoveFirst(pool, q), edges0, taken + [q],
                         lst + [Other(q, right)], left, Other(q, right), key)
  {
    GrowRight(lst, edges0, taken, left, right, q);
    assert (lst + [Other(q, right)])[|edges0|..] == lst[|edges0|..] + [Other(q, right)];
    RightFindsSnoc(pool0, taken, lst[|edges0|..], key, q, Other(q, right));
    RemoveBackSnoc(pool0, taken, q);
    RemoveFirstWithin(pool, q);
  }

  /** No pool entry of `c`'s signature has one of `c`'s endpoints: `c`
      cannot be extended from `pool`. */
  predicate Maximal(c: Chain, pool: seq<Segment>) {
    forall e :: e in pool && e.key == c.key ==> !Touches(e, c.left) && !Touches(e, c.right)
  }

  /** The chain's left and right ends are its polyline's first and last
      stops. */
  predicate Ends(c: Chain) {
    c.polyline != [] && c.left == c.polyline[0] && c.right == c.polyline[|c.polyline| - 1]
  }

  /** The edges of all chains, chain after chain. */
  function AllEdges(edges: seq<seq<Segment>>): seq<Segment> {
    if edges == [] then [] else AllEdges(edges[..|edges| - 1]) + edges[|edges| - 1]
  }

  /** The number of pair edges the chains cover: a polyline of `n` stops
      covers `n - 1` of them. */
  function EdgeCount(chains: seq<Chain>): int {
    if chains == [] then 0
    else EdgeCount(chains[..|chains| - 1]) + |chains[|chains| - 1].polyline| - 1
  }

  /** Chain `i` runs from its left end to its right end along the
      entries `edges[i]`, all of its signature, and carries the tags of
      one of them. */
  ghost predicate ChainsWalk(chains: seq<Chain>, edges: seq<seq<Segment>>) {
    && |chains| == |edges|
    && (forall i :: 0 <= i < |chains| ==> Walk(chains[i].polyline, edges[i]))
    && (forall i :: 0 <= i < |chains| ==> Ends(chains[i]))
    && (forall i :: 0 <= i < |chains| ==> exists e :: e in edges[i] && e.tags == chains[i].tags)
    && (forall i, e :: 0 <= i < |chains| && e in edges[i] ==> e.key == chains[i].key)
  }

  lemma ChainsWalkSnoc(chains: seq<Chain>, edges: seq<seq<Segment>>, c: Chain, es: seq<Segment>, s: Segment)
    requires ChainsWalk(chains, edges)
    requires Walk(c.polyline, es) && Ends(c) && s in es && s.tags == c.tags
    requires forall e :: e in es ==> e.key == c.key
    ensures ChainsWalk(chains + [c], edges + [es])
  {
    var chains', edges' := chains + [c], edges + [es];
    forall i | 0 <= i < |chains'|
      ensures Walk(chains'[i].polyline, edges'[i]) && Ends(chains'[i])
      ensures exists e: Segment :: e in edges'[i] && e.tags == chains'[i].tags
      ensures forall e: Segment :: e in edges'[i] ==> e.key == chains'[i].key
    {
      if i == |chains| {
        assert chains'[i] == c && edges'[i] == es;
      } else {
        assert chains'[i] == chains[i] && edges'[i] == edges[i];
      }
    }
  }

  /** What the collate loop of `index_segments` keeps true: chain `i`
      runs from its left end to its right end along the entries
      `edges[i]` it took, all of its signature, and carries the tags of one
      of them;
      the chains' entries and the pool together are the entries the pool
      started with; and no chain can be extended, neither from the pool
      that remains nor from the entries a later chain took. */
  ghost predicate Contracted(pool0: seq<Segment>, pool: seq<Segment>, chains: seq<Chain>, edges: seq<seq<Segment>>) {
    && ChainsWalk(chains, edges)
    && multiset(pool0) == multiset(pool) + multiset(AllEdges(edges))
    && (forall i :: 0 <= i < |chains| ==> Maximal(chains[i], pool))
    && (forall i, j :: 0 <= i < j < |chains| ==> Maximal(chains[i], edges[j]))
  }

  lemma AllEdgesSnoc(edges: seq<seq<Segment>>, es: seq<Segment>)
    ensures AllEdges(edges + [es]) == AllEdges(edges) + es
  {
    assert (edges + [es])[..|edges|] == edges;
  }

  /** One round of the collate loop: `extend` took the entries `es`, one
      of them `s` with the chain's tags, off the pool and returned the
      maximal chain `c` walking along them. */
  lemma ContractStep(pool0: seq<Segment>, pool: seq<Segment>, chains: seq<Chain>, edges: seq<seq<Segment>>,
                     pool': seq<Segment>, c: Chain, es: seq<Segment>, s: Segment)
    requires Contracted(pool0, pool, chains, edges)
    requires Taken(pool, pool', es, c.key) && Walk(c.polyline, es) && Ends(c) && Maximal(c, pool')
    requires s in es && s.tags == c.tags
    ensures Contracted(pool0, pool', chains + [c], edges + [es])
  {
    ChainsWalkSnoc(chains, edges, c, es, s);
    AllEdgesSnoc(edges, es);
    assert multiset(AllEdges(edges) + es) == multiset(AllEdges(edges)) + multiset(es);
    forall e | e in es ensures e in pool {
      assert e in multiset(es);
      assert e in multiset(pool);
    }
    var chains', edges' := chains + [c], edges + [es];
    forall i, j | 0 <= i < j < |chains'| ensures Maximal(chains'[i], edges'[j]) {
      if j == |chains| {
        assert Maximal(chains[i], pool);
      } else {
        assert chains'[i] == chains[i] && edges'[j] == edges[j];
      }
    }
    forall i | 0 <= i < |chains'| ensures Maximal(chains'[i], pool') {
      if i < |chains| {
        assert Maximal(chains[i], pool);
      }
    }
  }

  /** A chain of a walk over `n` edges has `n + 1` stops. */
  lemma {:induction false} EdgeCountAll(chains: seq<Chain>, edges: seq<seq<Segment>>)
    requires |chains| == |edges|
    requires forall i :: 0 <= i < |chains| ==> |chains[i].polyline| == |edges[i]| + 1
    ensures EdgeCount(chains) == |AllEdges(edges)|
  {
    if chains != [] {
      var n := |chains| - 1;
      EdgeCountAll(chains[..n], edges[..n]);
    }
  }

  /** Once the pool is empty, the polylines cover the entries the pool
      started with: their lengths less one add up to its size. */
  lemma ContractedCount(pool0: seq<Segment>, chains: seq<Chain>, edges: seq<seq<Segment>>)
    requires Contracted(pool0, [], chains, edges)
    ensures EdgeCount(chains) == |pool0|
  {
    EdgeCountAll(chains, edges);
    assert multiset(pool0) == multiset(AllEdges(edges));
    assert |pool0| == |multiset(pool0)| && |AllEdges(edges)| == |multiset(AllEdges(edges))|;
  }
}
