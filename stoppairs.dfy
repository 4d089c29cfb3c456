/** Stop-pair indexing (main.py:169-208): every pair of consecutive stops
    of the first trip in each direction of a route gets a
    `(route, direction)` tag, in a dictionary keyed `"a-b"`. */
module StopPairs {
  import opened Wrappers
  import opened Sorting
  import opened Text
  import opened Timetable
  import opened Signatures

  /** The key of the consecutive stops `a` then `b`. */
  function PairKey(a: string, b: string): string {
    a + "-" + b
  }

  /** `a, b = k.split("-")`: a key with exactly one `-` gives the texts
      before and after it; with any other number of `-` the unpacking
      raises ValueError, here None. */
  function SplitPair(k: string): (r: Option<(string, string)>)
  {
    var n := IndexOf(k, '-');
    if n == |k| || '-' in k[n + 1..] then None
    else Some((k[..n], k[n + 1..]))
  }

  /** The split succeeds exactly for keys with one `-`, and then gives
      the two dash-free texts the key joins. */
  lemma SplitPairSpec(k: string)
    ensures SplitPair(k).Some? <==> multiset(k)['-'] == 1
    ensures SplitPair(k).Some? ==> PairKey(SplitPair(k).value.0, SplitPair(k).value.1) == k && '-' !in SplitPair(k).value.0 && '-' !in SplitPair(k).value.1
  {
    var n := IndexOf(k, '-');
    if n == |k| {
      assert '-' !in multiset(k);
    } else {
      assert k == k[..n] + [k[n]] + k[n + 1..];
      assert '-' !in multiset(k[..n]);
      assert multiset(k)['-'] == 1 + multiset(k[n + 1..])['-'];
      assert '-' in k[n + 1..] <==> '-' in multiset(k[n + 1..]);
    }
  }

  /** Splitting the key of two stop ids without `-` gives them back. */
  lemma SplitPairKey(a: string, b: string)
    requires '-' !in a && '-' !in b
    ensures SplitPair(PairKey(a, b)) == Some((a, b))
  {
    var k := PairKey(a, b);
    IndexOfJoin(a, '-', b);
    assert k[..|a|] == a && k[|a| + 1..] == b;
  }

  /** The keys of the consecutive stop pairs of a schedule, in order. */
  function ConsecutiveKeys(ts: seq<StopTime>): (keys: seq<string>)
    ensures |keys| == if |ts| < 2 then 0 else |ts| - 1
    ensures forall i :: 0 <= i < |keys| ==> keys[i] == PairKey(ts[i].stopId, ts[i + 1].stopId)
  {
    if |ts| < 2 then []
    else seq(|ts| - 1, i requires 0 <= i < |ts| - 1 => PairKey(ts[i].stopId, ts[i + 1].stopId))
  }

  /** The consecutive stop pairs of a trip, in `stop_sequence` order. */
  function TripKeys(trip: Trip): seq<string> {
    ConsecutiveKeys(TripSched(trip))
  }

  /** `stop_pairs_list`: a dictionary from pair key to its tags, with the
      order in which Python iterates its keys (insertion order). */
  datatype PairIndex = PairIndex(pairs: map<string, seq<Tag>>, order: seq<string>)

  predicate Distinct<T(==)>(s: seq<T>) {
    forall i, j :: 0 <= i < j < |s| ==> s[i] != s[j]
  }

  /** The order lists every key of the dictionary exactly once. */
  ghost predicate Ordered(d: PairIndex) {
    && Distinct(d.order)
    && forall k :: k in d.pairs <==> k in d.order
  }

  /** The tags recorded for `k`, none when it is absent. */
  function Lookup(d: PairIndex, k: string): seq<Tag> {
    if k in d.pairs then d.pairs[k] else []
  }

  /** One `if stop_pair in stop_pairs_list: … += [tag] else: … = [tag]`. */
  function AddTag(d: PairIndex, k: string, tag: Tag): (r: PairIndex)
    ensures Lookup(r, k) == Lookup(d, k) + [tag]
    ensures forall k' :: k' != k ==> Lookup(r, k') == Lookup(d, k')
    ensures r.pairs.Keys == d.pairs.Keys + {k}
  {
    if k in d.pairs then PairIndex(d.pairs[k := d.pairs[k] + [tag]], d.order)
    else PairIndex(d.pairs[k := [tag]], d.order + [k])
  }

  /** Adding a tag keeps the dictionary order, appending a new key. */
  lemma AddTagOrdered(d: PairIndex, k: string, tag: Tag)
    requires Ordered(d)
    ensures Ordered(AddTag(d, k, tag)) && d.order <= AddTag(d, k, tag).order
  {
  }

  /** `tag` added for each of `keys` in turn. */
  function Register(d: PairIndex, keys: seq<string>, tag: Tag): PairIndex {
    if keys == [] then d
    else AddTag(Register(d, keys[..|keys| - 1], tag), keys[|keys| - 1], tag)
  }

  lemma RegisterSnoc(d: PairIndex, keys: seq<string>, i: nat, tag: Tag)
    requires i < |keys|
    ensures Register(d, keys[..i + 1], tag) == AddTag(Register(d, keys[..i], tag), keys[i], tag)
  {
    assert keys[..i + 1][..i] == keys[..i];
  }

  /** `n` copies of `tag`. */
  function Repeat(tag: Tag, n: nat): (r: seq<Tag>)
    ensures |r| == n && forall t :: t in r ==> t == tag
  {
    if n == 0 then [] else Repeat(tag, n - 1) + [tag]
  }

  /** Registering `keys` appends one copy of `tag` to the list of every
      key per occurrence in `keys`, and leaves every other list as it was. */
  lemma {:induction false} RegisterLookup(d: PairIndex, keys: seq<string>, tag: Tag, k: string)
    ensures Lookup(Register(d, keys, tag), k) == Lookup(d, k) + Repeat(tag, multiset(keys)[k])
  {
    if keys != [] {
      var init, last := keys[..|keys| - 1], keys[|keys| - 1];
      var before := Register(d, init, tag);
      RegisterLookup(d, init, tag, k);
      LastCount(keys, k);
      var n := multiset(init)[k];
      if last == k {
        calc {
          Lookup(Register(d, keys, tag), k);
          Lookup(before, k) + [tag];
          Lookup(d, k) + Repeat(tag, n) + [tag];
          { AppendAssoc(Lookup(d, k), Repeat(tag, n), [tag]); }
          Lookup(d, k) + Repeat(tag, n + 1);
        }
      } else {
        assert Lookup(Register(d, keys, tag), k) == Lookup(before, k);
      }
    }
  }

  /** The last key counts once more for itself. */
  lemma LastCount(keys: seq<string>, k: string)
    requires keys != []
    ensures multiset(keys)[k] == multiset(keys[..|keys| - 1])[k] + if keys[|keys| - 1] == k then 1 else 0
  {
    var init, last := keys[..|keys| - 1], keys[|keys| - 1];
    assert keys == init + [last];
    assert multiset(init + [last]) == multiset(init) + multiset{last};
  }

  /** Registering adds exactly the keys of `keys`. */
  lemma {:induction false} RegisterKeySet(d: PairIndex, keys: seq<string>, tag: Tag)
    ensures forall k :: k in Register(d, keys, tag).pairs <==> k in d.pairs || k in keys
  {
    if keys != [] {
      var init, last := keys[..|keys| - 1], keys[|keys| - 1];
      assert forall k :: k in keys <==> k in init || k == last;
      RegisterKeySet(d, init, tag);
    }
  }

  /** Registering keeps the dictionary order, appending new keys after
      the old ones. */
  lemma {:induction false} RegisterOrdered(d: PairIndex, keys: seq<string>, tag: Tag)
    requires Ordered(d)
    ensures Ordered(Register(d, keys, tag)) && d.order <= Register(d, keys, tag).order
  {
    if keys != [] {
      var init := keys[..|keys| - 1];
      RegisterOrdered(d, init, tag);
      AddTagOrdered(Register(d, init, tag), keys[|keys| - 1], tag);
    }
  }

  /** Registering adds exactly the keys of `keys` and keeps the dictionary
      order, appending new keys after the old ones. */
  lemma RegisterKeys(d: PairIndex, keys: seq<string>, tag: Tag)
    ensures forall k :: k in Register(d, keys, tag).pairs <==> k in d.pairs || k in keys
    ensures Ordered(d) ==> Ordered(Register(d, keys, tag)) && d.order <= Register(d, keys, tag).order
  {
    RegisterKeySet(d, keys, tag);
    if Ordered(d) {
      RegisterOrdered(d, keys, tag);
    }
  }

  /** Index of the first trip in direction `dir`. */
  function FirstWithDirection(trips: seq<Trip>, dir: int): (r: Option<nat>)
    ensures r.None? <==> forall i :: 0 <= i < |trips| ==> trips[i].direction != dir
    ensures r.Some? ==> r.value < |trips| && trips[r.value].direction == dir
                        && forall i :: 0 <= i < r.value ==> trips[i].direction != dir
  {
    if trips == [] then None
    else if trips[0].direction == dir then Some(0)
    else match FirstWithDirection(trips[1..], dir)
      case None => None
      case Some(i) => Some(i + 1)
  }

  /** `get_trips`: the first trip of direction 0 and the first of
      direction 1, or None when either direction has none. */
  function GetTrips(route: Route): (r: Option<(Trip, Trip)>)
    ensures r.None? <==> (forall i :: 0 <= i < |route.trips| ==> route.trips[i].direction != 0)
                         || (forall i :: 0 <= i < |route.trips| ==> route.trips[i].direction != 1)
    ensures r.Some? ==> exists i :: 0 <= i < |route.trips| && route.trips[i] == r.value.0 && r.value.0.direction == 0
                                    && forall j :: 0 <= j < i ==> route.trips[j].direction != 0
    ensures r.Some? ==> exists i :: 0 <= i < |route.trips| && route.trips[i] == r.value.1 && r.value.1.direction == 1
                                    && forall j :: 0 <= j < i ==> route.trips[j].direction != 1
  {
    match (FirstWithDirection(route.trips, 0), FirstWithDirection(route.trips, 1))
    case (Some(i), Some(j)) => Some((route.trips[i], route.trips[j]))
    case _ => None
  }

  /** `iterate_route`: nothing for a route with fewer than two trips or
      without a trip in one of the directions; otherwise the pairs of the
      direction-0 trip, then those of the direction-1 trip. */
  function IndexRoute(d: PairIndex, name: string, route: Route): PairIndex {
    if |route.trips| < 2 then d
    else match GetTrips(route)
      case None => d
      case Some((a, b)) => Register(Register(d, TripKeys(a), Tag(name, 0)), TripKeys(b), Tag(name, 1))
  }

  /** What `iterate_route` records for one key: a route it skips leaves
      everything as it was; otherwise every key gains one direction-0 tag
      per occurrence among the first direction-0 trip's pairs, then one
      direction-1 tag per occurrence among the first direction-1 trip's. */
  lemma IndexRouteLookup(d: PairIndex, name: string, route: Route, k: string)
    ensures |route.trips| < 2 || GetTrips(route).None? ==> IndexRoute(d, name, route) == d
    ensures |route.trips| >= 2 && GetTrips(route).Some? ==>
              Lookup(IndexRoute(d, name, route), k)
              == Lookup(d, k) + Repeat(Tag(name, 0), multiset(TripKeys(GetTrips(route).value.0))[k])
                              + Repeat(Tag(name, 1), multiset(TripKeys(GetTrips(route).value.1))[k])
  {
    if |route.trips| >= 2 && GetTrips(route).Some? {
      var (a, b) := GetTrips(route).value;
      var d1 := Register(d, TripKeys(a), Tag(name, 0));
      RegisterLookup(d, TripKeys(a), Tag(name, 0), k);
      RegisterLookup(d1, TripKeys(b), Tag(name, 1), k);
    }
  }

  /** `iterate_route` keeps the dictionary order and adds keys only. */
  lemma IndexRouteOrdered(d: PairIndex, name: string, route: Route)
    requires Ordered(d)
    ensures Ordered(IndexRoute(d, name, route))
    ensures d.order <= IndexRoute(d, name, route).order
    ensures d.pairs.Keys <= IndexRoute(d, name, route).pairs.Keys
  {
    if |route.trips| >= 2 && GetTrips(route).Some? {
      var (a, b) := GetTrips(route).value;
      var d1 := Register(d, TripKeys(a), Tag(name, 0));
      RegisterKeys(d, TripKeys(a), Tag(name, 0));
      RegisterKeys(d1, TripKeys(b), Tag(name, 1));
    }
  }

  /** No stop id of the trip holds `-`. */
  predicate DashFreeTrip(trip: Trip) {
    forall st :: st in trip.stopTimes ==> '-' !in st.stopId
  }

  /** Every key of the dictionary splits back into two stop ids. */
  predicate Splittable(d: PairIndex) {
    forall k :: k in d.pairs ==> SplitPair(k).Some?
  }

  /** Every tag of the dictionary names a route of `names`. */
  predicate TagsIn(d: PairIndex, names: set<string>) {
    forall k, t :: k in d.pairs && t in d.pairs[k] ==> t.route in names
  }

  /** The pair keys of a trip whose stop ids hold no `-` all split. */
  lemma TripKeysSplit(trip: Trip)
    requires DashFreeTrip(trip)
    ensures forall k :: k in TripKeys(trip) ==> SplitPair(k).Some?
  {
    var ts := TripSched(trip);
    forall i | 0 <= i < |ts| ensures '-' !in ts[i].stopId {
      assert ts[i] in multiset(trip.stopTimes);
    }
    forall k | k in TripKeys(trip) ensures SplitPair(k).Some? {
      var i :| 0 <= i < |TripKeys(trip)| && TripKeys(trip)[i] == k;
      SplitPairKey(ts[i].stopId, ts[i + 1].stopId);
    }
  }

  /** Registering the keys of a trip keeps every key splittable, and adds
      only tags of `tag`'s route. */
  lemma RegisterKeeps(d: PairIndex, trip: Trip, tag: Tag, names: set<string>)
    requires Splittable(d) && TagsIn(d, names) && DashFreeTrip(trip) && tag.route in names
    ensures Splittable(Register(d, TripKeys(trip), tag))
    ensures TagsIn(Register(d, TripKeys(trip), tag), names)
  {
    var r := Register(d, TripKeys(trip), tag);
    RegisterKeys(d, TripKeys(trip), tag);
    TripKeysSplit(trip);
    forall k, t | k in r.pairs && t in r.pairs[k] ensures t.route in names {
      RegisterLookup(d, TripKeys(trip), tag, k);
      assert t in Lookup(r, k);
    }
  }

  /** `iterate_route` on a route named in `names` whose trips' stop ids
      hold no `-` keeps every key splittable and every tag's route known. */
  lemma IndexRouteKeeps(d: PairIndex, name: string, route: Route, names: set<string>)
    requires Splittable(d) && TagsIn(d, names) && name in names
    requires forall i :: 0 <= i < |route.trips| ==> DashFreeTrip(route.trips[i])
    ensures Splittable(IndexRoute(d, name, route)) && TagsIn(IndexRoute(d, name, route), names)
  {
    if |route.trips| >= 2 && GetTrips(route).Some? {
      var (a, b) := GetTrips(route).value;
      RegisterKeeps(d, a, Tag(name, 0), names);
      RegisterKeeps(Register(d, TripKeys(a), Tag(name, 0)), b, Tag(name, 1), names);
    }
  }

  /** The routes in `names`, in that order. */
  function IndexRoutes(d: PairIndex, routes: map<string, Route>, names: seq<string>): PairIndex
    requires forall n :: n in names ==> n in routes
  {
    if names == [] then d
    else IndexRoute(IndexRoutes(d, routes, names[..|names| - 1]), names[|names| - 1], routes[names[|names| - 1]])
  }
}
