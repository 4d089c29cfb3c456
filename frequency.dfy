/** Combined midday headways and the frequency filter (main.py:221-246,
    main.py:314-330): the headway of every indexed stop pair, memoised by
    signature, and the frequent pairs it lets through. */
module Frequency {
  import opened Wrappers
  import opened Sorting
  import opened Timetable
  import opened Headway
  import opened Signatures
  import opened StopPairs
  import opened Chains

  /** The route table `routes`, by `route_short_name`. */
  type Routes = map<string, Route>

  /** Every tag names a route of the table. */
  predicate Known(routes: Routes, tags: seq<Tag>) {
    forall t :: t in tags ==> t.route in routes
  }

  lemma KnownInit(routes: Routes, tags: seq<Tag>)
    requires Known(routes, tags) && tags != []
    ensures Known(routes, tags[..|tags| - 1])
  {
    forall t | t in tags[..|tags| - 1] ensures t.route in routes {
      var j :| 0 <= j < |tags| - 1 && tags[..|tags| - 1][j] == t;
      assert tags[j] == t;
    }
  }

  lemma KnownPrefix(routes: Routes, tags: seq<Tag>, n: nat)
    requires Known(routes, tags) && n <= |tags|
    ensures Known(routes, tags[..n])
  {
    forall t | t in tags[..n] ensures t.route in routes {
      var j :| 0 <= j < n && tags[..n][j] == t;
      assert tags[j] == t;
    }
  }

  /** What the pipeline needs of the pair dictionary: every key splits into
      two stops and every tag names a known route. */
  predicate Indexed(routes: Routes, d: PairIndex) {
    Splittable(d) && TagsIn(d, routes.Keys)
  }

  predicate KeysOf(d: PairIndex, keys: seq<string>) {
    forall k :: k in keys ==> k in d.pairs
  }

  /** Every prefix of the insertion order lists keys of the dictionary. */
  lemma OrderKeys(d: PairIndex, n: nat)
    requires Ordered(d) && n <= |d.order|
    ensures KeysOf(d, d.order[..n])
  {
    forall k | k in d.order[..n] ensures k in d.pairs {
      var j :| 0 <= j < n && d.order[..n][j] == k;
      assert d.order[j] == k;
    }
  }

  /** `weekday_route_times(route, d, stop)` for the route and direction of
      the tag `t`. */
  function TagTimes(routes: Routes, t: Tag, stop: string): seq<int>
    requires t.route in routes
  {
    WeekdayRouteTimes(routes[t.route], t.direction, stop)
  }

  /** The sequences of `ss` one after the other. */
  function Flatten(ss: seq<seq<int>>): (r: seq<int>)
    ensures forall x :: x in r <==> exists i :: 0 <= i < |ss| && x in ss[i]
  {
    if ss == [] then []
    else
      var init := ss[..|ss| - 1];
      assert forall i :: 0 <= i < |init| ==> init[i] == ss[i];
      Flatten(init) + ss[|ss| - 1]
  }

  /** The weekday times at `stop` of each tag, tag by tag. */
  function TimesPerTag(routes: Routes, tags: seq<Tag>, stop: string): (ss: seq<seq<int>>)
    requires Known(routes, tags)
    ensures |ss| == |tags| && forall i :: 0 <= i < |tags| ==> ss[i] == TagTimes(routes, tags[i], stop)
  {
    if tags == [] then []
    else
      var init := tags[..|tags| - 1];
      KnownInit(routes, tags);
      assert forall i :: 0 <= i < |init| ==> init[i] == tags[i];
      TimesPerTag(routes, init, stop) + [TagTimes(routes, tags[|tags| - 1], stop)]
  }

  /** The times `get_stop_schedule` returns: the weekday times at `stop`
      of every tag's route and direction, one tag after the other. */
  function StopTimesFor(routes: Routes, tags: seq<Tag>, stop: string): (times: seq<int>)
    requires Known(routes, tags)
    ensures forall x :: x in times <==> exists i :: 0 <= i < |tags| && x in TagTimes(routes, tags[i], stop)
  {
    Flatten(TimesPerTag(routes, tags, stop))
  }

  /** A route's own midday headway at a stop, what `route_headways` keeps. */
  function RouteHeadway(routes: Routes, t: Tag, stop: string): Option<int>
    requires t.route in routes
  {
    MaxGap(SliceTimes(TagTimes(routes, t, stop), MiddayStart, MiddayEnd))
  }

  /** The headway `midday_frequency` computes for a tag list whose
      downstream stop is `stop`: the largest gap of all the tags' midday
      times, merged and sorted. */
  function CombinedHeadway(routes: Routes, tags: seq<Tag>, stop: string): Option<int>
    requires Known(routes, tags)
  {
    MaxGap(SliceTimes(StopTimesFor(routes, tags, stop), MiddayStart, MiddayEnd))
  }

  /** `m` after `if name not in m: m[name] = value` for each name and
      value in turn. */
  function FirstWrites(m: map<string, Option<int>>, names: seq<string>, values: seq<Option<int>>): map<string, Option<int>>
    requires |names| == |values|
  {
    if names == [] then m
    else
      var prev := FirstWrites(m, names[..|names| - 1], values[..|values| - 1]);
      var name := names[|names| - 1];
      if name in prev then prev else prev[name := values[|values| - 1]]
  }

  /** Writing only absent names keeps every old entry and adds exactly
      the names. */
  lemma {:induction false} FirstWritesKeys(m: map<string, Option<int>>, names: seq<string>, values: seq<Option<int>>)
    requires |names| == |values|
    ensures forall r :: r in m ==> r in FirstWrites(m, names, values) && FirstWrites(m, names, values)[r] == m[r]
    ensures forall r :: r in FirstWrites(m, names, values) <==> r in m || r in names
  {
    if names != [] {
      var init, vinit := names[..|names| - 1], values[..|values| - 1];
      assert forall r :: r in names <==> r in init || r == names[|names| - 1];
      FirstWritesKeys(m, init, vinit);
    }
  }

  /** A name absent before gets the value at its first occurrence. */
  lemma {:induction false} FirstWritesFirst(m: map<string, Option<int>>, names: seq<string>, values: seq<Option<int>>, i: nat)
    requires |names| == |values| && i < |names|
    requires names[i] !in m && names[i] !in names[..i]
    ensures names[i] in FirstWrites(m, names, values) && FirstWrites(m, names, values)[names[i]] == values[i]
  {
    var init, vinit := names[..|names| - 1], values[..|values| - 1];
    var prev := FirstWrites(m, init, vinit);
    if i == |names| - 1 {
      FirstWritesKeys(m, init, vinit);
      assert names[i] !in prev;
    } else {
      assert init[i] == names[i] && vinit[i] == values[i] && init[..i] == names[..i];
      FirstWritesFirst(m, init, vinit, i);
      FirstWritesKeys(m, init, vinit);
    }
  }

  /** Writing only absent names keeps every old entry, adds exactly the
      names, and gives a new name the value at its first occurrence. */
  lemma FirstWritesSpec(m: map<string, Option<int>>, names: seq<string>, values: seq<Option<int>>)
    requires |names| == |values|
    ensures forall r :: r in m ==> r in FirstWrites(m, names, values) && FirstWrites(m, names, values)[r] == m[r]
    ensures forall r :: r in FirstWrites(m, names, values) <==> r in m || r in names
    ensures forall i :: 0 <= i < |names| && names[i] !in m && names[i] !in names[..i]
              ==> FirstWrites(m, names, values)[names[i]] == values[i]
  {
    FirstWritesKeys(m, names, values);
    forall i | 0 <= i < |names| && names[i] !in m && names[i] !in names[..i]
      ensures FirstWrites(m, names, values)[names[i]] == values[i]
    {
      FirstWritesFirst(m, names, values, i);
    }
  }

  /** The route names of the tags, in order. */
  function RouteNames(tags: seq<Tag>): (names: seq<string>)
    ensures |names| == |tags| && forall i :: 0 <= i < |tags| ==> names[i] == tags[i].route
  {
    if tags == [] then [] else RouteNames(tags[..|tags| - 1]) + [tags[|tags| - 1].route]
  }

  /** Each tag's own midday headway at `stop`, tag by tag. */
  function HeadwaysPerTag(routes: Routes, tags: seq<Tag>, stop: string): (hs: seq<Option<int>>)
    requires Known(routes, tags)
    ensures |hs| == |tags| && forall i :: 0 <= i < |tags| ==> hs[i] == RouteHeadway(routes, tags[i], stop)
  {
    if tags == [] then []
    else
      var init := tags[..|tags| - 1];
      KnownInit(routes, tags);
      assert forall i :: 0 <= i < |init| ==> init[i] == tags[i];
      HeadwaysPerTag(routes, init, stop) + [RouteHeadway(routes, tags[|tags| - 1], stop)]
  }

  /** The `route_headways` cache after `get_stop_schedule` has gone
      through `tags`: a route still absent gets its own headway at `stop`. */
  function RecordHeadways(rh: map<string, Option<int>>, routes: Routes, tags: seq<Tag>, stop: string): map<string, Option<int>>
    requires Known(routes, tags)
  {
    FirstWrites(rh, RouteNames(tags), HeadwaysPerTag(routes, tags, stop))
  }

  /** `route_headways` is write-once: old entries stay as they were, the
      routes of `tags` are added, and a new route gets the headway of its
      first tag at this stop. */
  lemma RecordHeadwaysSpec(rh: map<string, Option<int>>, routes: Routes, tags: seq<Tag>, stop: string)
    requires Known(routes, tags)
    ensures forall r :: r in rh ==> r in RecordHeadways(rh, routes, tags, stop) && RecordHeadways(rh, routes, tags, stop)[r] == rh[r]
    ensures forall r :: r in RecordHeadways(rh, routes, tags, stop) <==> r in rh || exists i :: 0 <= i < |tags| && tags[i].route == r
    ensures forall i :: 0 <= i < |tags| && tags[i].route !in rh && (forall j :: 0 <= j < i ==> tags[j].route != tags[i].route)
              ==> RecordHeadways(rh, routes, tags, stop)[tags[i].route] == RouteHeadway(routes, tags[i], stop)
  {
    var names, hs := RouteNames(tags), HeadwaysPerTag(routes, tags, stop);
    FirstWritesSpec(rh, names, hs);
    RouteNamesMembers(tags);
    forall i | 0 <= i < |tags| && (forall j :: 0 <= j < i ==> tags[j].route != tags[i].route)
      ensures names[i] !in names[..i]
    {
      RouteNamesBefore(tags, i);
    }
  }

  lemma RouteNamesMembers(tags: seq<Tag>)
    ensures forall r :: r in RouteNames(tags) <==> exists i :: 0 <= i < |tags| && tags[i].route == r
  {
    var names := RouteNames(tags);
    forall r | r in names ensures exists i :: 0 <= i < |tags| && tags[i].route == r {
      var i :| 0 <= i < |names| && names[i] == r;
      assert tags[i].route == r;
    }
  }

  lemma RouteNamesBefore(tags: seq<Tag>, i: nat)
    requires i < |tags| && forall j :: 0 <= j < i ==> tags[j].route != tags[i].route
    ensures RouteNames(tags)[i] !in RouteNames(tags)[..i]
  {
    var names := RouteNames(tags);
    assert forall j :: 0 <= j < i ==> names[..i][j] == tags[j].route;
  }

  /** `get_stop_schedule`'s times after one more tag. */
  lemma StopTimesForSnoc(routes: Routes, tags: seq<Tag>, t: Tag, stop: string)
    requires Known(routes, tags + [t])
    ensures Known(routes, tags)
    ensures StopTimesFor(routes, tags + [t], stop) == StopTimesFor(routes, tags, stop) + TagTimes(routes, t, stop)
  {
    assert (tags + [t])[..|tags|] == tags;
    var ss := TimesPerTag(routes, tags + [t], stop);
    assert ss[..|ss| - 1] == TimesPerTag(routes, tags, stop);
  }

  /** `get_stop_schedule`'s `route_headways` after one more tag. */
  lemma RecordHeadwaysSnoc(rh: map<string, Option<int>>, routes: Routes, tags: seq<Tag>, t: Tag, stop: string)
    requires Known(routes, tags + [t])
    ensures Known(routes, tags)
    ensures RecordHeadways(rh, routes, tags + [t], stop)
            == var prev := RecordHeadways(rh, routes, tags, stop);
               if t.route in prev then prev else prev[t.route := RouteHeadway(routes, t, stop)]
  {
    assert (tags + [t])[..|tags|] == tags;
    var names, hs := RouteNames(tags + [t]), HeadwaysPerTag(routes, tags + [t], stop);
    assert names[..|names| - 1] == RouteNames(tags);
    assert hs[..|hs| - 1] == HeadwaysPerTag(routes, tags, stop);
  }

  /** `StopTimesForSnoc` for the prefixes of one tag list. */
  lemma StopTimesStep(routes: Routes, tags: seq<Tag>, i: nat, stop: string)
    requires Known(routes, tags) && i < |tags|
    ensures Known(routes, tags[..i]) && Known(routes, tags[..i + 1])
    ensures StopTimesFor(routes, tags[..i + 1], stop) == StopTimesFor(routes, tags[..i], stop) + TagTimes(routes, tags[i], stop)
  {
    TakeSnoc(tags, i);
    KnownPrefix(routes, tags, i + 1);
    StopTimesForSnoc(routes, tags[..i], tags[i], stop);
  }

  /** `RecordHeadwaysSnoc` for the prefixes of one tag list. */
  lemma RecordHeadwaysStep(rh: map<string, Option<int>>, routes: Routes, tags: seq<Tag>, i: nat, stop: string)
    requires Known(routes, tags) && i < |tags|
    ensures Known(routes, tags[..i]) && Known(routes, tags[..i + 1])
    ensures RecordHeadways(rh, routes, tags[..i + 1], stop)
            == var prev := RecordHeadways(rh, routes, tags[..i], stop);
               if tags[i].route in prev then prev else prev[tags[i].route := RouteHeadway(routes, tags[i], stop)]
  {
    TakeSnoc(tags, i);
    KnownPrefix(routes, tags, i + 1);
    RecordHeadwaysSnoc(rh, routes, tags[..i], tags[i], stop);
  }

  /** The two caches `midday_frequency` reads and writes. */
  datatype Caches = Caches(routeHeadways: map<string, Option<int>>, combined: map<string, Option<int>>)

  /** `c'` keeps every entry of `c`. */
  predicate Extends(c: Caches, c': Caches) {
    && (forall r :: r in c.routeHeadways ==> r in c'.routeHeadways && c'.routeHeadways[r] == c.routeHeadways[r])
    && (forall s :: s in c.combined ==> s in c'.combined && c'.combined[s] == c.combined[s])
  }

  /** The downstream stop `b` of the key `"a-b"`. */
  function Downstream(d: PairIndex, k: string): string
    requires Splittable(d) && k in d.pairs
  {
    SplitPair(k).value.1
  }

  /** `midday_frequency(k)`: the headway for the key and the caches after
      the call. */
  function Midday(routes: Routes, d: PairIndex, c: Caches, k: string): (r: (Option<int>, Caches))
    requires Indexed(routes, d) && k in d.pairs
    ensures Extends(c, r.1)
    ensures Signature(d.pairs[k]) in r.1.combined && r.1.combined[Signature(d.pairs[k])] == r.0
    ensures Signature(d.pairs[k]) in c.combined ==> r.1 == c
    ensures Signature(d.pairs[k]) !in c.combined ==> r.0 == CombinedHeadway(routes, d.pairs[k], Downstream(d, k))
    ensures forall s :: s in r.1.combined <==> s in c.combined || s == Signature(d.pairs[k])
  {
    var tags := d.pairs[k];
    var key := Signature(tags);
    if key in c.combined then (c.combined[key], c)
    else
      var b := Downstream(d, k);
      RecordHeadwaysSpec(c.routeHeadways, routes, tags, b);
      var f := CombinedHeadway(routes, tags, b);
      (f, Caches(RecordHeadways(c.routeHeadways, routes, tags, b), c.combined[key := f]))
  }

  /** `midday_frequency` on a signature already cached. */
  lemma MiddayCached(routes: Routes, d: PairIndex, c: Caches, k: string)
    requires Indexed(routes, d) && k in d.pairs && Signature(d.pairs[k]) in c.combined
    ensures Midday(routes, d, c, k) == (c.combined[Signature(d.pairs[k])], c)
  {
  }

  /** `midday_frequency` on a signature not yet cached. */
  lemma MiddayUncached(routes: Routes, d: PairIndex, c: Caches, k: string, times: seq<int>, f: Option<int>)
    requires Indexed(routes, d) && k in d.pairs && Signature(d.pairs[k]) !in c.combined
    requires Known(routes, d.pairs[k])
    requires times == StopTimesFor(routes, d.pairs[k], Downstream(d, k))
    requires f == MaxGap(SliceTimes(times, MiddayStart, MiddayEnd))
    ensures Midday(routes, d, c, k)
            == (f, Caches(RecordHeadways(c.routeHeadways, routes, d.pairs[k], Downstream(d, k)), c.combined[Signature(d.pairs[k]) := f]))
  {
  }

  /** The threshold `timedelta(0, 15, 1)` of the local helper: 15 minutes
      and 1 second. */
  const FrequentThreshold: int := Timedelta(0, 15, 1)

  /** `m and m <= timedelta(0, 15, 1)`: a headway that exists, is not the
      falsy zero duration and is at most the threshold. */
  predicate IsFrequent(m: Option<int>) {
    m.Some? && m.value != 0 && m.value <= FrequentThreshold
  }

  /** The pool entry `(a, b, routes_to_key(tags), tags, [])` of key `"a-b"`. */
  function PairSegment(d: PairIndex, k: string): (e: Segment)
    requires Splittable(d) && k in d.pairs
    ensures PairKey(e.left, e.right) == k && e.key == Signature(d.pairs[k]) && e.tags == d.pairs[k] && e.polyline == []
  {
    SplitPairSpec(k);
    var (a, b) := SplitPair(k).value;
    Segment(a, b, Signature(d.pairs[k]), d.pairs[k], [])
  }

  /** The segments of the keys whose cached headway is frequent, in key
      order. */
  function FrequentSegments(d: PairIndex, combined: map<string, Option<int>>, keys: seq<string>): (r: seq<Segment>)
    requires Splittable(d) && KeysOf(d, keys)
    requires forall k :: k in keys ==> Signature(d.pairs[k]) in combined
    ensures |r| <= |keys|
  {
    if keys == [] then []
    else
      var init, last := keys[..|keys| - 1], keys[|keys| - 1];
      FrequentSegments(d, combined, init)
      + if IsFrequent(combined[Signature(d.pairs[last])]) then [PairSegment(d, last)] else []
  }

  /** The segments are those of exactly the keys whose cached headway is
      frequent. */
  lemma {:induction false} FrequentSegmentsMembers(d: PairIndex, combined: map<string, Option<int>>, keys: seq<string>, e: Segment)
    requires Splittable(d) && KeysOf(d, keys)
    requires forall k :: k in keys ==> Signature(d.pairs[k]) in combined
    ensures e in FrequentSegments(d, combined, keys) <==>
              exists k :: k in keys && IsFrequent(combined[Signature(d.pairs[k])]) && e == PairSegment(d, k)
  {
    if keys != [] {
      var init, last := keys[..|keys| - 1], keys[|keys| - 1];
      assert forall k :: k in keys <==> k in init || k == last;
      FrequentSegmentsMembers(d, combined, init, e);
    }
  }

  /** What the filter loop of `index_segments` has built: the caches, the
      pool `frequent_hash` and the dictionary `frequent_pairs`. */
  datatype Filtered = Filtered(caches: Caches, hash: seq<Segment>, frequent: map<string, seq<Tag>>)

  /** One round of the filter loop, for key `k`. */
  function FilterStep(routes: Routes, d: PairIndex, st: Filtered, k: string): Filtered
    requires Indexed(routes, d) && k in d.pairs
  {
    var r := Midday(routes, d, st.caches, k);
    var frequent := IsFrequent(r.0);
    Filtered(r.1,
             st.hash + if frequent then [PairSegment(d, k)] else [],
             if frequent then st.frequent[k := d.pairs[k]] else st.frequent)
  }

  /** The state after one round of the filter loop, field by field. */
  lemma FilterStepState(routes: Routes, d: PairIndex, prev: Filtered, k: string, m: Option<int>,
                        c: Caches, hash: seq<Segment>, frequent: map<string, seq<Tag>>)
    requires Indexed(routes, d) && k in d.pairs
    requires m == Midday(routes, d, prev.caches, k).0 && c == Midday(routes, d, prev.caches, k).1
    requires IsFrequent(m) ==> hash == prev.hash + [PairSegment(d, k)] && frequent == prev.frequent[k := d.pairs[k]]
    requires !IsFrequent(m) ==> hash == prev.hash && frequent == prev.frequent
    ensures FilterStep(routes, d, prev, k) == Filtered(c, hash, frequent)
  {
  }

  /** The filter loop over `keys`, in order. */
  function FilterFold(routes: Routes, d: PairIndex, st: Filtered, keys: seq<string>): Filtered
    requires Indexed(routes, d) && KeysOf(d, keys)
  {
    if keys == [] then st
    else FilterStep(routes, d, FilterFold(routes, d, st, keys[..|keys| - 1]), keys[|keys| - 1])
  }

  /** The filter loop over a prefix one key longer. */
  lemma FilterFoldSnoc(routes: Routes, d: PairIndex, st: Filtered, keys: seq<string>, j: nat)
    requires Indexed(routes, d) && j < |keys| && KeysOf(d, keys[..j + 1])
    ensures KeysOf(d, keys[..j]) && keys[j] in d.pairs
    ensures FilterFold(routes, d, st, keys[..j + 1]) == FilterStep(routes, d, FilterFold(routes, d, st, keys[..j]), keys[j])
  {
    assert keys[..j + 1][..j] == keys[..j];
    assert keys[j] in keys[..j + 1];
  }

  /** The filter only adds to the caches, and afterwards the signature of
      every key it went through is cached. */
  lemma {:induction false} FilterFoldCaches(routes: Routes, d: PairIndex, st: Filtered, keys: seq<string>)
    requires Indexed(routes, d) && KeysOf(d, keys)
    ensures Extends(st.caches, FilterFold(routes, d, st, keys).caches)
    ensures forall s :: s in FilterFold(routes, d, st, keys).caches.combined
              <==> s in st.caches.combined || exists k :: k in keys && Signature(d.pairs[k]) == s
  {
    if keys != [] {
      var init, last := keys[..|keys| - 1], keys[|keys| - 1];
      assert forall k :: k in keys <==> k in init || k == last;
      FilterFoldCaches(routes, d, st, init);
    }
  }

  /** A cached value that extends to a bigger cache selects the same
      segments. */
  lemma {:induction false} FrequentSegmentsExtend(d: PairIndex, c: map<string, Option<int>>, c': map<string, Option<int>>, keys: seq<string>)
    requires Splittable(d) && KeysOf(d, keys)
    requires forall k :: k in keys ==> Signature(d.pairs[k]) in c
    requires forall s :: s in c ==> s in c' && c'[s] == c[s]
    ensures FrequentSegments(d, c, keys) == FrequentSegments(d, c', keys)
  {
    if keys != [] {
      FrequentSegmentsExtend(d, c, c', keys[..|keys| - 1]);
    }
  }

  /** The filter appends to the pool, in key order, the segment of exactly
      the keys whose cached headway is frequent. */
  lemma {:induction false} FilterFoldHash(routes: Routes, d: PairIndex, st: Filtered, keys: seq<string>)
    requires Indexed(routes, d) && KeysOf(d, keys)
    ensures forall k :: k in keys ==> Signature(d.pairs[k]) in FilterFold(routes, d, st, keys).caches.combined
    ensures FilterFold(routes, d, st, keys).hash
            == st.hash + FrequentSegments(d, FilterFold(routes, d, st, keys).caches.combined, keys)
  {
    FilterFoldCaches(routes, d, st, keys);
    if keys != [] {
      var init, last := keys[..|keys| - 1], keys[|keys| - 1];
      var prev := FilterFold(routes, d, st, init);
      FilterFoldHash(routes, d, st, init);
      var r := Midday(routes, d, prev.caches, last);
      var c := r.1.combined;
      FrequentSegmentsExtend(d, prev.caches.combined, c, init);
      var tail := if IsFrequent(c[Signature(d.pairs[last])]) then [PairSegment(d, last)] else [];
      assert FilterFold(routes, d, st, keys).hash == prev.hash + tail;
      assert FrequentSegments(d, c, keys) == FrequentSegments(d, c, init) + tail;
      assert prev.hash == st.hash + FrequentSegments(d, c, init);
      assert FilterFold(routes, d, st, keys).caches.combined == c;
      AppendAssoc(st.hash, FrequentSegments(d, c, init), tail);
    } else {
      assert st.hash + [] == st.hash;
    }
  }

  /** The filter records in `frequent_pairs` exactly the keys whose cached
      headway is frequent. */
  lemma {:induction false} FilterFoldFrequent(routes: Routes, d: PairIndex, st: Filtered, keys: seq<string>)
    requires Indexed(routes, d) && KeysOf(d, keys)
    ensures forall k :: k in keys ==> Signature(d.pairs[k]) in FilterFold(routes, d, st, keys).caches.combined
    ensures forall k :: k in FilterFold(routes, d, st, keys).frequent <==>
              k in st.frequent || (k in keys && IsFrequent(FilterFold(routes, d, st, keys).caches.combined[Signature(d.pairs[k])]))
  {
    if keys != [] {
      var init, last := keys[..|keys| - 1], keys[|keys| - 1];
      var prev := FilterFold(routes, d, st, init);
      var next := FilterStep(routes, d, prev, last);
      assert FilterFold(routes, d, st, keys) == next;
      FilterFoldFrequent(routes, d, st, init);
      StepFrequent(routes, d, prev, last);
      forall k | k in keys
        ensures Signature(d.pairs[k]) in next.caches.combined
        ensures k in init ==> next.caches.combined[Signature(d.pairs[k])] == prev.caches.combined[Signature(d.pairs[k])]
      {
        if k != last {
          assert k in init;
        }
      }
      assert forall k :: k in keys <==> k in init || k == last;
    }
  }

  lemma StepFrequent(routes: Routes, d: PairIndex, prev: Filtered, k: string)
    requires Indexed(routes, d) && k in d.pairs
    ensures Extends(prev.caches, FilterStep(routes, d, prev, k).caches)
    ensures Signature(d.pairs[k]) in FilterStep(routes, d, prev, k).caches.combined
    ensures forall k' :: k' in FilterStep(routes, d, prev, k).frequent <==>
              k' in prev.frequent || (k' == k && IsFrequent(FilterStep(routes, d, prev, k).caches.combined[Signature(d.pairs[k])]))
  {
    var r := Midday(routes, d, prev.caches, k);
    assert FilterStep(routes, d, prev, k).caches == r.1;
  }

  /** Every entry of `frequent_pairs` is the pair's own tag list, before
      the filter and after it. */
  lemma {:induction false} FilterFoldFrequentTags(routes: Routes, d: PairIndex, st: Filtered, keys: seq<string>)
    requires Indexed(routes, d) && KeysOf(d, keys)
    requires forall k :: k in st.frequent ==> k in d.pairs && st.frequent[k] == d.pairs[k]
    ensures forall k :: k in FilterFold(routes, d, st, keys).frequent ==>
              k in d.pairs && FilterFold(routes, d, st, keys).frequent[k] == d.pairs[k]
  {
    if keys != [] {
      var init, last := keys[..|keys| - 1], keys[|keys| - 1];
      FilterFoldFrequentTags(routes, d, st, init);
      StepFrequentTags(routes, d, FilterFold(routes, d, st, init), last);
    }
  }

  lemma StepFrequentTags(routes: Routes, d: PairIndex, prev: Filtered, k: string)
    requires Indexed(routes, d) && k in d.pairs
    requires forall k :: k in prev.frequent ==> k in d.pairs && prev.frequent[k] == d.pairs[k]
    ensures forall k' :: k' in FilterStep(routes, d, prev, k).frequent ==>
              k' in d.pairs && FilterStep(routes, d, prev, k).frequent[k'] == d.pairs[k']
  {
  }

  /** A round of the filter keeps every cached headway. */
  lemma StepKeeps(routes: Routes, d: PairIndex, prev: Filtered, k: string, sig: string)
    requires Indexed(routes, d) && k in d.pairs && sig in prev.caches.combined
    ensures sig in FilterStep(routes, d, prev, k).caches.combined
    ensures FilterStep(routes, d, prev, k).caches.combined[sig] == prev.caches.combined[sig]
  {
    var r := Midday(routes, d, prev.caches, k);
    assert FilterStep(routes, d, prev, k).caches == r.1;
  }

  /** A round for a key whose signature is not cached yet caches the
      combined headway at that key's downstream stop. */
  lemma StepCaches(routes: Routes, d: PairIndex, prev: Filtered, k: string)
    requires Indexed(routes, d) && k in d.pairs && Signature(d.pairs[k]) !in prev.caches.combined
    ensures Signature(d.pairs[k]) in FilterStep(routes, d, prev, k).caches.combined
    ensures FilterStep(routes, d, prev, k).caches.combined[Signature(d.pairs[k])]
            == CombinedHeadway(routes, d.pairs[k], Downstream(d, k))
  {
    var r := Midday(routes, d, prev.caches, k);
    assert FilterStep(routes, d, prev, k).caches == r.1;
  }

  /** A signature that no key of `keys` has stays out of the cache. */
  lemma NotCachedBefore(routes: Routes, d: PairIndex, st: Filtered, keys: seq<string>, sig: string)
    requires Indexed(routes, d) && KeysOf(d, keys) && sig !in st.caches.combined
    requires forall j :: 0 <= j < |keys| ==> Signature(d.pairs[keys[j]]) != sig
    ensures sig !in FilterFold(routes, d, st, keys).caches.combined
  {
    FilterFoldCaches(routes, d, st, keys);
    forall k | k in keys ensures Signature(d.pairs[k]) != sig {
      var j :| 0 <= j < |keys| && keys[j] == k;
    }
  }

  /** The memoisation tie-break: the first key of a signature that is not
      yet cached fixes the cached headway of every key with that
      signature, computed at that first key's downstream stop. */
  lemma {:induction false} FilterFoldFirst(routes: Routes, d: PairIndex, st: Filtered, keys: seq<string>, i: nat)
    requires Indexed(routes, d) && KeysOf(d, keys) && i < |keys|
    requires Signature(d.pairs[keys[i]]) !in st.caches.combined
    requires forall j :: 0 <= j < i ==> Signature(d.pairs[keys[j]]) != Signature(d.pairs[keys[i]])
    ensures Signature(d.pairs[keys[i]]) in FilterFold(routes, d, st, keys).caches.combined
    ensures FilterFold(routes, d, st, keys).caches.combined[Signature(d.pairs[keys[i]])]
            == CombinedHeadway(routes, d.pairs[keys[i]], Downstream(d, keys[i]))
    decreases |keys|, 1
  {
    if i == |keys| - 1 {
      FirstAtEnd(routes, d, st, keys, i);
    } else {
      FirstBeforeEnd(routes, d, st, keys, i);
    }
  }

  lemma FirstAtEnd(routes: Routes, d: PairIndex, st: Filtered, keys: seq<string>, i: nat)
    requires Indexed(routes, d) && KeysOf(d, keys) && i == |keys| - 1
    requires Signature(d.pairs[keys[i]]) !in st.caches.combined
    requires forall j :: 0 <= j < i ==> Signature(d.pairs[keys[j]]) != Signature(d.pairs[keys[i]])
    ensures Signature(d.pairs[keys[i]]) in FilterFold(routes, d, st, keys).caches.combined
    ensures FilterFold(routes, d, st, keys).caches.combined[Signature(d.pairs[keys[i]])]
            == CombinedHeadway(routes, d.pairs[keys[i]], Downstream(d, keys[i]))
  {
    var init, last := keys[..i], keys[i];
    var prev := FilterFold(routes, d, st, init);
    NotCachedBefore(routes, d, st, init, Signature(d.pairs[last]));
    StepCaches(routes, d, prev, last);
  }

  lemma {:induction false} FirstBeforeEnd(routes: Routes, d: PairIndex, st: Filtered, keys: seq<string>, i: nat)
    requires Indexed(routes, d) && KeysOf(d, keys) && i < |keys| - 1
    requires Signature(d.pairs[keys[i]]) !in st.caches.combined
    requires forall j :: 0 <= j < i ==> Signature(d.pairs[keys[j]]) != Signature(d.pairs[keys[i]])
    ensures Signature(d.pairs[keys[i]]) in FilterFold(routes, d, st, keys).caches.combined
    ensures FilterFold(routes, d, st, keys).caches.combined[Signature(d.pairs[keys[i]])]
            == CombinedHeadway(routes, d.pairs[keys[i]], Downstream(d, keys[i]))
    decreases |keys|, 0
  {
    var init, last := keys[..|keys| - 1], keys[|keys| - 1];
    assert forall j :: 0 <= j <= i ==> init[j] == keys[j];
    FilterFoldFirst(routes, d, st, init, i);
    StepKeeps(routes, d, FilterFold(routes, d, st, init), last, Signature(d.pairs[keys[i]]));
  }
}
