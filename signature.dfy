/** Route signatures (main.py:212-219): the string that names the set of
    (route, direction) tags of a stop pair, used as the key of the combined
    headway cache and as the merge key of chain contraction. */
module Signatures {
  import opened Sorting
  import opened Text

  /** A `direction_id` that a tag can carry: only trips of direction 0 and
      1 are ever indexed. */
  type Direction = d: int | d == 0 || d == 1

  /** A `(route_short_name, direction_id)` tag. */
  datatype Tag = Tag(route: string, direction: Direction)

  /** Python's `<=` on `str`: lexicographic by code point. */
  predicate LexLe(a: string, b: string)
    decreases |a|
  {
    if a == [] then true
    else if b == [] then false
    else if a[0] != b[0] then a[0] < b[0]
    else LexLe(a[1..], b[1..])
  }

  lemma {:induction false} LexLeTotal(a: string, b: string)
    ensures LexLe(a, b) || LexLe(b, a)
    decreases |a|
  {
    if a != [] && b != [] && a[0] == b[0] {
      LexLeTotal(a[1..], b[1..]);
    }
  }

  lemma {:induction false} LexLeTransitive(a: string, b: string, c: string)
    requires LexLe(a, b) && LexLe(b, c)
    ensures LexLe(a, c)
    decreases |a|
  {
    if a != [] && b != [] && c != [] && a[0] == b[0] && b[0] == c[0] {
      LexLeTransitive(a[1..], b[1..], c[1..]);
    }
  }

  lemma {:induction false} LexLeAntisymmetric(a: string, b: string)
    requires LexLe(a, b) && LexLe(b, a)
    ensures a == b
    decreases |a|
  {
    if a != [] {
      LexLeAntisymmetric(a[1..], b[1..]);
      assert a == [a[0]] + a[1..] && b == [b[0]] + b[1..];
    }
  }

  /** The key of `sorted(info_list, key=lambda q: q[0])`: the route name
      alone, in plain string order. */
  predicate RouteLe(x: Tag, y: Tag) {
    LexLe(x.route, y.route)
  }

  lemma RouteLeTotalPreorder()
    ensures TotalPreorder(RouteLe)
  {
    forall x: Tag, y: Tag ensures RouteLe(x, y) || RouteLe(y, x) {
      LexLeTotal(x.route, y.route);
    }
    forall x: Tag, y: Tag, z: Tag | RouteLe(x, y) && RouteLe(y, z) ensures RouteLe(x, z) {
      LexLeTransitive(x.route, y.route, z.route);
    }
  }

  lemma RouteEquiv(x: Tag, y: Tag)
    ensures Equiv(RouteLe, x, y) <==> x.route == y.route
  {
    if Equiv(RouteLe, x, y) {
      LexLeAntisymmetric(x.route, y.route);
    } else {
      LexLeTotal(x.route, x.route);
    }
  }

  /** `str(direction)`. */
  function DirText(d: Direction): string {
    if d == 0 then "0" else "1"
  }

  /** `route + "#" + str(direction) + "-"`. */
  function TagText(t: Tag): string {
    t.route + "#" + DirText(t.direction) + "-"
  }

  /** The texts of `ts` one after the other. */
  function TagsText(ts: seq<Tag>): string {
    if ts == [] then "" else TagsText(ts[..|ts| - 1]) + TagText(ts[|ts| - 1])
  }

  /** The signature of a tag list: its tags stably sorted by route name,
      written one after the other. */
  function Signature(tags: seq<Tag>): string {
    TagsText(SortBy(tags, RouteLe))
  }

  lemma AppendTagText(key: string, t: Tag)
    ensures key + t.route + "#" + DirText(t.direction) + "-" == key + TagText(t)
  {
  }

  /** `routes_to_key`. */
  method RoutesToKey(infoList: seq<Tag>) returns (key: string)
    ensures key == Signature(infoList)
  {
    key := "";
    var sorted := SortBy(infoList, RouteLe);
    for i := 0 to |sorted|
      invariant key == TagsText(sorted[..i])
    {
      var route, direction := sorted[i].route, sorted[i].direction;
      AppendTagText(key, sorted[i]);
      key := key + route + "#" + DirText(direction) + "-";
      assert sorted[..i + 1][..i] == sorted[..i];
    }
    assert sorted[..|sorted|] == sorted;
  }

  // ---------------------------------------------------------------------
  // What the signature identifies

  /** Reordering a tag list does not change its signature, as long as tags
      that share a route name are equal (for instance when the route names
      are pairwise distinct). */
  lemma SignaturePermutation(t1: seq<Tag>, t2: seq<Tag>)
    requires multiset(t1) == multiset(t2)
    requires forall x, y :: x in t1 && y in t1 && x.route == y.route ==> x == y
    ensures Signature(t1) == Signature(t2)
  {
    RouteLeTotalPreorder();
    var s1, s2 := SortBy(t1, RouteLe), SortBy(t2, RouteLe);
    SortBySorted(t1, RouteLe);
    SortBySorted(t2, RouteLe);
    forall x, y | x in s1 && y in s1 && Equiv(RouteLe, x, y) ensures x == y {
      assert x in multiset(s1) && y in multiset(s1);
      assert x in multiset(t1) && y in multiset(t1);
      RouteEquiv(x, y);
    }
    SortedUnique(s1, s2, RouteLe);
  }

  /** The tags of `ts` on route `name`, in order. */
  function OnRoute(ts: seq<Tag>, name: string): (r: seq<Tag>)
    ensures forall t :: t in r ==> t in ts && t.route == name
  {
    if ts == [] then []
    else (if ts[0].route == name then [ts[0]] else []) + OnRoute(ts[1..], name)
  }

  lemma {:induction false} OnRouteIsEquivalents(ts: seq<Tag>, y: Tag)
    ensures Equivalents(ts, y, RouteLe) == OnRoute(ts, y.route)
  {
    if ts != [] {
      RouteEquiv(y, ts[0]);
      OnRouteIsEquivalents(ts[1..], y);
    }
  }

  /** Tags that share a route name keep their input order in the
      signature. */
  lemma SignatureKeepsRouteOrder(tags: seq<Tag>, name: string)
    ensures OnRoute(SortBy(tags, RouteLe), name) == OnRoute(tags, name)
  {
    RouteLeTotalPreorder();
    var y := Tag(name, 0);
    SortByStable(tags, y, RouteLe);
    OnRouteIsEquivalents(tags, y);
    OnRouteIsEquivalents(SortBy(tags, RouteLe), y);
  }

  lemma {:induction false} TagsTextCons(t: Tag, ts: seq<Tag>)
    ensures TagsText([t] + ts) == TagText(t) + TagsText(ts)
    decreases |ts|
  {
    if ts != [] {
      var last := ts[|ts| - 1];
      var init := ts[..|ts| - 1];
      assert ([t] + ts)[..|ts|] == [t] + init;
      TagsTextCons(t, init);
    } else {
      assert [t] + ts == [t];
      assert TagsText([t]) == TagsText([]) + TagText(t);
    }
  }

  predicate HashFree(ts: seq<Tag>) {
    forall t :: t in ts ==> '#' !in t.route
  }

  /** One tag's text at the front decides the tag and the rest. */
  lemma TagTextPrefix(x: Tag, rx: string, y: Tag, ry: string)
    requires '#' !in x.route && '#' !in y.route
    requires TagText(x) + rx == TagText(y) + ry
    ensures x == y && rx == ry
  {
    var u := DirText(x.direction) + "-" + rx;
    var v := DirText(y.direction) + "-" + ry;
    assert TagText(x) + rx == x.route + "#" + u;
    assert TagText(y) + ry == y.route + "#" + v;
    SplitAtFirst(x.route, u, y.route, v, '#');
    assert u[0] == v[0];
    assert u[2..] == rx && v[2..] == ry;
  }

  lemma {:induction false} TagsTextInjective(a: seq<Tag>, b: seq<Tag>)
    requires HashFree(a) && HashFree(b)
    requires TagsText(a) == TagsText(b)
    ensures a == b
    decreases |a|
  {
    if a != [] {
      assert a == [a[0]] + a[1..];
      TagsTextCons(a[0], a[1..]);
    }
    if b != [] {
      assert b == [b[0]] + b[1..];
      TagsTextCons(b[0], b[1..]);
    }
    if a != [] && b != [] {
      TagTextPrefix(a[0], TagsText(a[1..]), b[0], TagsText(b[1..]));
      TagsTextInjective(a[1..], b[1..]);
    }
  }

  /** When no route name holds `#`, equal signatures mean the same tags
      the same number of times: the signature tells stop pairs with
      different route sets apart. */
  lemma SignatureInjective(t1: seq<Tag>, t2: seq<Tag>)
    requires HashFree(t1) && HashFree(t2)
    requires Signature(t1) == Signature(t2)
    ensures multiset(t1) == multiset(t2)
  {
    var s1, s2 := SortBy(t1, RouteLe), SortBy(t2, RouteLe);
    forall t | t in s1 ensures '#' !in t.route {
      assert t in multiset(s1);
      assert t in multiset(t1);
    }
    forall t | t in s2 ensures '#' !in t.route {
      assert t in multiset(s2);
      assert t in multiset(t2);
    }
    TagsTextInjective(s1, s2);
  }
}
