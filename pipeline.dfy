/** The pipeline of main.py as one object: the global dictionaries and
    lists it keeps (`routes`, `stop_pairs_list`, `route_headways`,
    `combined_frequencies`, `frequent_hash`, `frequent_pairs`) are the
    fields of `FrequentMap`, and each stage is a method that updates them
    in place. */
module Pipeline {
  import opened Wrappers
  import opened Sorting
  import opened Timetable
  import opened Headway
  import opened Signatures
  import opened StopPairs
  import opened Chains
  import opened Frequency

  /** The exception the indexing loop can raise. */
  datatype Error = ZeroDivisionError

  /** No stop id of the timetable holds `-`, so every pair key splits back
      into its two stops. */
  predicate DashFreeRoutes(routes: Routes) {
    forall name, i :: name in routes && 0 <= i < |routes[name].trips| ==> DashFreeTrip(routes[name].trips[i])
  }

  class FrequentMap {
    const routes: Routes
    var stopPairs: PairIndex
    var routeHeadways: map<string, Option<int>>
    var combinedFrequencies: map<string, Option<int>>
    var frequentHash: seq<Segment>
    var frequentPairs: map<string, seq<Tag>>

    ghost predicate Valid()
      reads this`stopPairs, this`frequentHash
    {
      && DashFreeRoutes(routes)
      && Ordered(stopPairs)
      && Indexed(routes, stopPairs)
      && (forall e :: e in frequentHash ==> e.polyline == [])
    }

    /** The two headway caches. */
    function CachesNow(): Caches
      reads this`routeHeadways, this`combinedFrequencies
    {
      Caches(routeHeadways, combinedFrequencies)
    }

    /** What the filter loop has built so far. */
    function FilterState(): Filtered
      reads this`routeHeadways, this`combinedFrequencies, this`frequentHash, this`frequentPairs
    {
      Filtered(CachesNow(), frequentHash, frequentPairs)
    }

    /** The state once `load_schedule` has loaded the schedule into
        `routes`: every other dictionary and list is still empty. */
    constructor (routes: Routes)
      requires DashFreeRoutes(routes)
      ensures Valid() && this.routes == routes
      ensures stopPairs == PairIndex(map[], []) && routeHeadways == map[] && combinedFrequencies == map[]
      ensures frequentHash == [] && frequentPairs == map[]
    {
      this.routes := routes;
      stopPairs := PairIndex(map[], []);
      routeHeadways := map[];
      combinedFrequencies := map[];
      frequentHash := [];
      frequentPairs := map[];
    }

    /** `iterate_trip`: one `(route_name, direction)` tag for each pair of
        consecutive stops of the trip, in `stop_sequence` order. */
    method IterateTrip(trip: Trip, routeName: string)
      requires Valid() && routeName in routes && DashFreeTrip(trip)
      requires trip.direction == 0 || trip.direction == 1
      modifies this`stopPairs
      ensures Valid()
      ensures stopPairs == Register(old(stopPairs), TripKeys(trip), Tag(routeName, trip.direction))
      ensures unchanged(this`routeHeadways, this`combinedFrequencies, this`frequentHash, this`frequentPairs)
    {
      var ts := TripSched(trip);
      ghost var keys := TripKeys(trip);
      var tag := Tag(routeName, trip.direction);
      var pairs := stopPairs;
      var i := 0;
      while i + 1 < |ts|
        invariant 0 <= i <= |keys|
        invariant pairs == Register(stopPairs, keys[..i], tag)
        modifies {}
      {
        var stopPair := ts[i].stopId + "-" + ts[i + 1].stopId;
        ghost var before := pairs;
        assert stopPair == keys[i];
        if stopPair in pairs.pairs {
          pairs := PairIndex(pairs.pairs[stopPair := pairs.pairs[stopPair] + [tag]], pairs.order);
        } else {
          pairs := PairIndex(pairs.pairs[stopPair := [tag]], pairs.order + [stopPair]);
        }
        assert pairs == AddTag(before, keys[i], tag);
        RegisterSnoc(stopPairs, keys, i, tag);
        i := i + 1;
      }
      assert keys[..i] == keys;
      RegisterKeys(stopPairs, keys, tag);
      RegisterKeeps(stopPairs, trip, tag, routes.Keys);
      stopPairs := pairs;
    }

    /** `iterate_route`: the first trip of each direction, unless the
        route has fewer than two trips or lacks a direction. */
    method IterateRoute(routeName: string)
      requires Valid() && routeName in routes
      modifies this`stopPairs
      ensures Valid()
      ensures stopPairs == IndexRoute(old(stopPairs), routeName, routes[routeName])
      ensures unchanged(this`routeHeadways, this`combinedFrequencies, this`frequentHash, this`frequentPairs)
    {
      var route := routes[routeName];
      if |route.trips| < 2 {
        return;
      }
      var ab := GetTrips(route);
      if ab.None? {
        return;
      }
      var (a, b) := ab.value;
      IterateTrip(a, routeName);
      IterateTrip(b, routeName);
    }

    /** `iterate_routes`: every route of `names`, in the natural order
        `natLe` of their names (stable, as `list.sort`). */
    method IterateRoutes(names: seq<string>, natLe: (string, string) -> bool)
      requires Valid() && forall n :: n in names ==> n in routes
      modifies this`stopPairs
      ensures Valid()
      ensures (forall n :: n in SortBy(names, natLe) ==> n in routes)
              && stopPairs == IndexRoutes(old(stopPairs), routes, SortBy(names, natLe))
      ensures unchanged(this`routeHeadways, this`combinedFrequencies, this`frequentHash, this`frequentPairs)
    {
      var sorted := SortBy(names, natLe);
      forall n | n in sorted ensures n in routes {
        SortByMembers(names, natLe, n);
      }
      for i := 0 to |sorted|
        invariant Valid()
        invariant stopPairs == IndexRoutes(old(stopPairs), routes, sorted[..i])
        invariant unchanged(this`routeHeadways, this`combinedFrequencies, this`frequentHash, this`frequentPairs)
      {
        IterateRoute(sorted[i]);
        assert sorted[..i + 1][..i] == sorted[..i];
      }
      assert sorted[..|sorted|] == sorted;
    }

    /** `get_stop_schedule`: the weekday times at the downstream stop `b`
        of every tag of the pair, tag after tag; on the way, each route not
        yet in `route_headways` gets its own midday headway at `b`. */
    method GetStopSchedule(stopPair: string) returns (times: seq<int>)
      requires Valid() && stopPair in stopPairs.pairs
      modifies this`routeHeadways
      ensures unchanged(this`stopPairs, this`combinedFrequencies, this`frequentHash, this`frequentPairs)
      ensures Valid() && Known(routes, stopPairs.pairs[stopPair])
      ensures times == StopTimesFor(routes, stopPairs.pairs[stopPair], Downstream(stopPairs, stopPair))
      ensures routeHeadways == RecordHeadways(old(routeHeadways), routes, stopPairs.pairs[stopPair], Downstream(stopPairs, stopPair))
    {
      var (a, b) := SplitPair(stopPair).value;
      var tags := stopPairs.pairs[stopPair];
      assert Known(routes, tags);
      times := [];
      for i := 0 to |tags|
        invariant Known(routes, tags[..i])
        invariant times == StopTimesFor(routes, tags[..i], b)
        invariant routeHeadways == RecordHeadways(old(routeHeadways), routes, tags[..i], b)
        modifies this`routeHeadways
      {
        var r, d := tags[i].route, tags[i].direction;
        var route := routes[r];
        var timeList := CollectRouteTimes(route.trips, d, b, IsWeekday);
        StopTimesStep(routes, tags, i, b);
        RecordHeadwaysStep(old(routeHeadways), routes, tags, i, b);
        times := times + timeList;
        if r !in routeHeadways {
          var middayTimes := SliceTimes(timeList, MiddayStart, MiddayEnd);
          var h := MaxHeadway(middayTimes);
          routeHeadways := routeHeadways[r := h];
        }
      }
      assert tags[..|tags|] == tags;
    }

    /** `midday_frequency`: the cached combined headway of the pair's
        signature, or else the largest midday gap of all its tags' times,
        which is then cached under the signature. */
    method MiddayFrequency(stopPair: string) returns (frequency: Option<int>)
      requires Valid() && stopPair in stopPairs.pairs
      modifies this`routeHeadways, this`combinedFrequencies
      ensures unchanged(this`stopPairs, this`frequentHash, this`frequentPairs)
      ensures Valid()
      ensures (frequency, CachesNow()) == Midday(routes, stopPairs, old(CachesNow()), stopPair)
    {
      var routeNames := RoutesToKey(stopPairs.pairs[stopPair]);
      if routeNames in combinedFrequencies {
        MiddayCached(routes, stopPairs, CachesNow(), stopPair);
        return combinedFrequencies[routeNames];
      }
      ghost var before := CachesNow();
      var times := GetStopSchedule(stopPair);
      ghost var all := times;
      times := SliceTimes(times, MiddayStart, MiddayEnd);
      frequency := MaxHeadway(times);
      MiddayUncached(routes, stopPairs, before, stopPair, all, frequency);
      combinedFrequencies := combinedFrequencies[routeNames := frequency];
    }

    /** The filter loop of `index_segments`: every key in insertion order
        gets its midday headway, and a frequent one goes into
        `frequent_pairs` and, as a segment, onto the pool. The progress
        report computes `i % (l // 20)`, which divides by zero when there
        are between 1 and 19 keys: the loop then stops with that error
        right after its first key. */
    method FilterFrequent() returns (crashed: bool)
      requires Valid()
      modifies this`routeHeadways, this`combinedFrequencies, this`frequentHash, this`frequentPairs
      ensures unchanged(this`stopPairs)
      ensures Valid()
      ensures crashed <==> 0 < |stopPairs.order| < 20
      ensures Ordered(stopPairs) && KeysOf(stopPairs, stopPairs.order)
      ensures FilterState() == FilterFold(routes, stopPairs, old(FilterState()),
                                          stopPairs.order[..if crashed then 1 else |stopPairs.order|])
    {
      var keys := stopPairs.order;
      var i := 0;
      var l := |keys|;
      for j := 0 to |keys|
        invariant unchanged(this`stopPairs) && Valid()
        invariant i == j && (j > 0 ==> l / 20 > 0)
        invariant KeysOf(stopPairs, keys[..j])
        invariant FilterState() == FilterFold(routes, stopPairs, old(FilterState()), keys[..j])
      {
        var k := keys[j];
        TakeSnoc(keys, j);
        OrderKeys(stopPairs, j + 1);
        FilterFoldSnoc(routes, stopPairs, old(FilterState()), keys, j);
        FilterKey(k);
        i := i + 1;
        if l / 20 == 0 {
          return true;
        }
      }
      assert keys[..|keys|] == keys;
      return false;
    }

    /** One round of the filter loop of `index_segments`, for key `k`. */
    method FilterKey(k: string)
      requires Valid() && k in stopPairs.pairs
      modifies this`routeHeadways, this`combinedFrequencies, this`frequentHash, this`frequentPairs
      ensures unchanged(this`stopPairs) && Valid()
      ensures FilterState() == FilterStep(routes, stopPairs, old(FilterState()), k)
    {
      ghost var prev := FilterState();
      var m := MiddayFrequency(k);
      ghost var c := CachesNow();
      if IsFrequent(m) {
        var segment := stopPairs.pairs[k];
        frequentPairs := frequentPairs[k := segment];
        var (a, b) := SplitPair(k).value;
        var key := RoutesToKey(segment);
        assert Segment(a, b, key, segment, []) == PairSegment(stopPairs, k);
        frequentHash := frequentHash + [Segment(a, b, key, segment, [])];
      }
      FilterStepState(routes, stopPairs, prev, k, m, c, frequentHash, frequentPairs);
    }

    /** The left loop of `extend`: while some pool entry of signature
        `key` touches the left end, the first one is taken off the pool
        and its other stop becomes the new left end. */
    method ExtendLeft(key: string, left0: string, right: string, lst0: seq<string>, ghost edges0: seq<Segment>)
      returns (left: string, lst: seq<string>, ghost taken: seq<Segment>)
      requires Walk(lst0, edges0) && lst0[0] == left0 && lst0[|lst0| - 1] == right
      requires forall e :: e in frequentHash ==> e.polyline == []
      modifies this`frequentHash
      ensures frequentHash == RemoveFront(old(frequentHash), taken) && |frequentHash| + |taken| == |old(frequentHash)|
      ensures forall e :: e in taken ==> e.key == key
      ensures forall e :: e in frequentHash ==> e.polyline == []
      ensures Walk(lst, taken + edges0) && lst[0] == left && lst[|lst| - 1] == right
      ensures LeftFinds(old(frequentHash), taken, lst, key)
      ensures |taken| <= |lst| && lst[|taken|..] == lst0
      ensures forall e :: e in frequentHash && e.key == key ==> !Touches(e, left)
    {
      ghost var pool0 := frequentHash;
      left, lst, taken := left0, lst0, [];
      assert taken + edges0 == edges0;
      var p := Find(frequentHash, left, key);
      FindFound(frequentHash, left, key);
      while p.Some?
        invariant GrowingLeft(pool0, frequentHash, taken, edges0, lst0, lst, left, right, key)
        invariant p == Find(frequentHash, left, key)
        invariant p.Some? ==> p.value in frequentHash && Matches(p.value, left, key)
        invariant p.None? ==> forall e :: e in frequentHash && e.key == key ==> !Touches(e, left)
        decreases |frequentHash|
      {
        var q := p.value;
        StepLeft(pool0, frequentHash, taken, edges0, lst0, lst, left, right, key, q);
        frequentHash := RemoveFirst(frequentHash, q);
        taken := [q] + taken;
        left := Other(q, left);
        p := Find(frequentHash, left, key);
        FindFound(frequentHash, left, key);
        lst := [left] + lst;
      }
    }

    /** The right loop of `extend`, the mirror image at the right end. */
    method ExtendRight(key: string, left: string, right0: string, lst0: seq<string>, ghost edges0: seq<Segment>)
      returns (right: string, lst: seq<string>, ghost taken: seq<Segment>)
      requires Walk(lst0, edges0) && lst0[0] == left && lst0[|lst0| - 1] == right0
      requires forall e :: e in frequentHash ==> e.polyline == []
      requires forall e :: e in frequentHash && e.key == key ==> !Touches(e, left)
      modifies this`frequentHash
      ensures frequentHash == RemoveBack(old(frequentHash), taken) && |frequentHash| + |taken| == |old(frequentHash)|
      ensures forall e :: e in taken ==> e.key == key
      ensures forall e :: e in frequentHash ==> e.polyline == []
      ensures Walk(lst, edges0 + taken) && lst[0] == left && lst[|lst| - 1] == right
      ensures |lst0| <= |lst| && lst[..|lst0|] == lst0
      ensures RightFinds(old(frequentHash), taken, lst[|lst0| - 1..], key)
      ensures forall e :: e in frequentHash && e.key == key ==> !Touches(e, left) && !Touches(e, right)
    {
      ghost var pool0 := frequentHash;
      right, lst, taken := right0, lst0, [];
      assert edges0 + taken == edges0;
      var p := Find(frequentHash, right, key);
      FindFound(frequentHash, right, key);
      while p.Some?
        invariant GrowingRight(pool0, frequentHash, edges0, taken, lst, left, right, key)
        invariant |lst0| <= |lst| && lst[..|lst0|] == lst0
        invariant p == Find(frequentHash, right, key)
        invariant p.Some? ==> p.value in frequentHash && Matches(p.value, right, key)
        invariant p.None? ==> forall e :: e in frequentHash && e.key == key ==> !Touches(e, right)
        decreases |frequentHash|
      {
        var q := p.value;
        StepRight(pool0, frequentHash, edges0, taken, lst, left, right, key, q);
        frequentHash := RemoveFirst(frequentHash, q);
        taken := taken + [q];
        right := Other(q, right);
        p := Find(frequentHash, right, key);
        FindFound(frequentHash, right, key);
        assert (lst + [right])[..|lst0|] == lst[..|lst0|];
        lst := lst + [right];
      }
    }

    /** `extend(segment)`: takes `segment` off the pool and grows its
        polyline at the left end, then at the right end, by the first pool
        entry of the same signature that touches the current end, until
        none does. The chain walks along the entries it took (`edges`):
        the entries `lefts` of the left loop, `segment`, then the entries
        `rights` of the right loop, each `find`'s first match at the end
        it grew, and the pool is what the removals leave. */
    method Extend(segment: Segment)
      returns (chain: Chain, ghost edges: seq<Segment>, ghost lefts: seq<Segment>, ghost rights: seq<Segment>)
      requires Valid() && segment in frequentHash
      modifies this`frequentHash
      ensures Valid()
      ensures chain.key == segment.key && chain.tags == segment.tags
      ensures chain.polyline != [] && chain.left == chain.polyline[0] && chain.right == chain.polyline[|chain.polyline| - 1]
      ensures Walk(chain.polyline, edges) && segment in edges
      ensures Taken(old(frequentHash), frequentHash, edges, segment.key)
      ensures Maximal(chain, frequentHash)
      ensures edges == lefts + [segment] + rights
      ensures frequentHash == RemoveBack(RemoveFront(RemoveFirst(old(frequentHash), segment), lefts), rights)
      ensures |lefts| + 1 < |chain.polyline| && chain.polyline[|lefts|] == segment.left && chain.polyline[|lefts| + 1] == segment.right
      ensures |lefts| < |chain.polyline| && LeftFinds(RemoveFirst(old(frequentHash), segment), lefts, chain.polyline, segment.key)
      ensures forall e :: e in RemoveFront(RemoveFirst(old(frequentHash), segment), lefts) && e.key == segment.key
                          ==> !Touches(e, chain.polyline[0])
      ensures |lefts| + |rights| + 2 == |chain.polyline|
              && RightFinds(RemoveFront(RemoveFirst(old(frequentHash), segment), lefts), rights,
                            chain.polyline[|lefts| + 1..], segment.key)
    {
      var left, right, key, tags, lst := segment.left, segment.right, segment.key, segment.tags, segment.polyline;
      lst := lst + [left, right];
      ghost var pool0 := frequentHash;
      RemoveFirstWithin(frequentHash, segment);
      frequentHash := RemoveFirst(frequentHash, segment);
      ghost var pool1 := frequentHash;
      left, lst, lefts := ExtendLeft(key, left, right, lst, [segment]);
      ghost var pool2 := frequentHash;
      ghost var lst2 := lst;
      assert lst2[|lefts|] == lst2[|lefts|..][0] == segment.left;
      assert lst2[|lefts| + 1] == lst2[|lefts|..][1] == segment.right;
      right, lst, rights := ExtendRight(key, left, right, lst, lefts + [segment]);
      assert lst == lst2 + lst[|lst2|..];
      LeftFindsAppend(pool1, lefts, lst2, lst[|lst2|..], key);
      edges := lefts + [segment] + rights;
      ExtendTaken(pool0, pool1, pool2, frequentHash, segment, lefts, rights);
      chain := Chain(left, right, tags, key, lst);
    }

    /** The collate loop of `index_segments`: `extend` on the head of the
        pool until the pool is empty. */
    method Collate() returns (newSegments: seq<Chain>, ghost edges: seq<seq<Segment>>)
      requires Valid()
      modifies this`frequentHash
      ensures Valid() && frequentHash == []
      ensures Contracted(old(frequentHash), [], newSegments, edges)
      ensures EdgeCount(newSegments) == |old(frequentHash)|
    {
      ghost var pool0 := frequentHash;
      newSegments, edges := [], [];
      assert multiset(AllEdges(edges)) == multiset{};
      while |frequentHash| > 0
        invariant Valid() && Contracted(pool0, frequentHash, newSegments, edges)
        decreases |frequentHash|
      {
        ghost var pool := frequentHash;
        var chain, es, lefts, rights := Extend(frequentHash[0]);
        ContractStep(pool0, pool, newSegments, edges, frequentHash, chain, es, pool[0]);
        newSegments := newSegments + [chain];
        edges := edges + [es];
      }
      ContractedCount(pool0, newSegments, edges);
    }

    /** `index_segments(stop_pairs_list)`: the filter loop, then the
        collate loop. The ZeroDivisionError of the progress report ends it
        before any chain is built. */
    method IndexSegments() returns (r: Result<seq<Chain>, Error>, ghost filtered: Filtered, ghost edges: seq<seq<Segment>>)
      requires Valid()
      modifies this`routeHeadways, this`combinedFrequencies, this`frequentHash, this`frequentPairs
      ensures unchanged(this`stopPairs) && Valid()
      ensures KeysOf(stopPairs, stopPairs.order)
      ensures r.Failure? <==> 0 < |stopPairs.order| < 20
      ensures filtered == FilterFold(routes, stopPairs, old(FilterState()),
                                     stopPairs.order[..if r.Failure? then 1 else |stopPairs.order|])
      ensures r.Failure? ==> FilterState() == filtered
      ensures r.Success? ==>
                && CachesNow() == filtered.caches && frequentPairs == filtered.frequent && frequentHash == []
                && Contracted(filtered.hash, [], r.value, edges)
                && EdgeCount(r.value) == |filtered.hash|
    {
      var crashed := FilterFrequent();
      filtered := FilterState();
      if crashed {
        return Failure(ZeroDivisionError), filtered, [];
      }
      var newSegments;
      newSegments, edges := Collate();
      r := Success(newSegments);
    }
  }

  /** `create_frequent_map` from the point where the schedule is loaded:
      the routes `names` (with `rlist` left out, the keys of `routes` in
      dictionary order) are indexed in the natural order `natLe`, then
      `index_segments` runs on the pairs found, with every cache empty. */
  method CreateFrequentMap(routes: Routes, names: seq<string>, natLe: (string, string) -> bool)
    returns (m: FrequentMap, r: Result<seq<Chain>, Error>, ghost filtered: Filtered, ghost edges: seq<seq<Segment>>)
    requires DashFreeRoutes(routes) && forall n :: n in names ==> n in routes
    ensures fresh(m) && m.routes == routes && m.Valid()
    ensures forall n :: n in SortBy(names, natLe) ==> n in routes
    ensures m.stopPairs == IndexRoutes(PairIndex(map[], []), routes, SortBy(names, natLe))
    ensures KeysOf(m.stopPairs, m.stopPairs.order)
    ensures r.Failure? <==> 0 < |m.stopPairs.order| < 20
    ensures filtered == FilterFold(routes, m.stopPairs, Filtered(Caches(map[], map[]), [], map[]),
                                   m.stopPairs.order[..if r.Failure? then 1 else |m.stopPairs.order|])
    ensures r.Success? ==>
              && m.CachesNow() == filtered.caches && m.frequentPairs == filtered.frequent && m.frequentHash == []
              && Contracted(filtered.hash, [], r.value, edges)
              && EdgeCount(r.value) == |filtered.hash|
  {
    m := new FrequentMap(routes);
    m.IterateRoutes(names, natLe);
    r, filtered, edges := m.IndexSegments();
  }
}
