# Frequent transit map: a Dafny model of its core

`main.py` turns a GTFS timetable into a map of the frequent transit
service. This project models, in Dafny, the four stages of that
pipeline:

1. **Headway arithmetic.** This covers the `timedelta` helper, the midday window (`slice_times`), the largest and average gap between arrival times (`max_headway`, `avg_headway`), the weekday predicate and calendar text (`isWeekday`, `str_service`), and arrival times at a stop (`fast_trip_time`, `fast_route_times`). Files: `timetable.dfy`, `headway.dfy`.
2. **Stop-pair indexing.** The first trip of each direction of every route, ordered by `stop_sequence`, adds one `(route, direction)` tag for each pair of consecutive stops. The tags go into `stop_pairs_list`, keyed `"a-b"` (`iterate_trip`, `get_trips`, `iterate_route`, `iterate_routes`). File: `stoppairs.dfy`.
3. **Route signatures and memoised combined headways.** This covers `routes_to_key`, and `get_stop_schedule` and `midday_frequency` with their two write-once caches `route_headways` and `combined_frequencies`. Files: `signature.dfy`, `frequency.dfy`.
4. **The frequency filter and chain contraction.** This is `index_segments` with its filter and collate loops, and `extend`. Files: `frequency.dfy`, `chains.dfy`.

The global dictionaries and lists of `main.py` are the fields of one class, `Pipeline.FrequentMap`. The stages are methods of that class, and they update the fields in place as the Python functions update the globals.

- Each method is proved against a value-level function that is its specification:
  - `IndexRoutes` for the indexing;
  - `Midday` for `midday_frequency`;
  - `FilterFold` for the filter loop;
  - `Taken`, `Walk` and `Maximal` for `extend`;
  - `Contracted` for the collate loop.
- Separate lemmas prove what those functions promise.
- `sorting.dfy` is a stable insertion sort (`SortBy`). It stands for Python's `sorted` and `list.sort` with a key, used four ways:
  - stop times by `stop_sequence`;
  - tags by route name;
  - arrival times;
  - route names in natural order.
- `text.dfy` has two facts about splitting a string at its first separator.

Modelling choices:

- **Times** are integer seconds. Python's `timedelta` on whole seconds is exact integer arithmetic. A missing arrival time is `None`.
- **Falsy times.** `fast_route_times` drops every falsy time (main.py:78), so an arrival of exactly 00:00:00 is discarded along with the missing ones.
- **Threshold.** The filter keeps a pair whose headway is truthy and at most `timedelta(0, 15, 1)`. Through the local helper at main.py:44-45 that is 0 h 15 min 1 s, that is 901 seconds (`Frequency.FrequentThreshold`). It is not `datetime.timedelta(0, 15, 1)`, which would be 15 seconds and 1 microsecond. The model follows the code.
- **Average headway.** `avg_headway` divides a `timedelta` by an int, which Python rounds to the nearest microsecond, ties to even. The model returns that average in microseconds (`DivideAndRound`).
- **Dictionary order.** `stop_pairs_list` is a map plus the sequence of its keys in insertion order (`StopPairs.PairIndex`). Python iterates a dict in that order. The order decides the order of `frequent_hash`, and so the tie-breaks of `extend`.
- **Progress report.** The filter loop computes `i % (l // 20)` after every key (main.py:329). With between 1 and 19 stop pairs that divides by zero after the first key. The model keeps this as the `ZeroDivisionError` result of `IndexSegments`.
- **Stop ids** are assumed to contain no `-` (`DashFreeRoutes`). Otherwise `k.split("-")` at main.py:222 and main.py:326 cannot unpack into two values.
- **The pool.** `frequent_hash` is a `seq<Segment>`. `list.remove` is `RemoveFirst`, which drops the first equal entry. The two loops of `extend` are the methods `ExtendLeft` and `ExtendRight`, and `index_segments` is `FilterFrequent` followed by `Collate`.

## Model

| member | source | states |
|---|---|---|
| Timetable.TimedeltaFields | main.py:44-45 | a `timedelta(h, m, s)` with minutes and seconds under 60 is read back as the same hours, minutes and seconds |
| Timetable.ParseServiceText | main.py:115-124 | the day-code text of a service determines the service: parsing it back gives the seven flags |
| Timetable.ServiceTextWeekday | main.py:103-104 | a service runs on every weekday exactly when its day-code text starts with `MTWThF` |
| Timetable.StrService | main.py:115-124 | the loop builds exactly the day-code text of the service |
| Timetable.TripSched | main.py:48-57 | the ordered schedule is a permutation of the trip's stop times, sorted by `stop_sequence` |
| Timetable.TripSchedStable | main.py:54 | stop times with equal `stop_sequence` keep their feed order |
| Timetable.FirstAtStop | main.py:66-70 | None exactly when no stop time is at the stop, otherwise the first index that is |
| Timetable.FastTripTime | main.py:65-70 | a stop the trip never visits gives None; otherwise the result is the arrival of the first stop time, in feed order, at that stop |
| Timetable.FastRouteTimes | main.py:73-79 | at most one time per trip, and no time is 0 or missing |
| Timetable.WeekdayRouteTimesMembers | main.py:127-129 | a time is among the weekday times exactly when a trip of the direction whose service runs Monday to Friday arrives at the stop at that nonzero time |
| Timetable.FastRouteTimesMembers | main.py:73-79 | a time is kept exactly when some trip of the direction passing the filter arrives at the stop at that nonzero time |
| Timetable.FastRouteTimesSnoc | main.py:76-78 | one more trip appends its time when it passes the filter, has the direction and has a truthy arrival |
| Timetable.CollectRouteTimes | main.py:73-79 | the loop gives exactly the times `FastRouteTimes` describes |
| Headway.WindowCount | main.py:133 | the window keeps each time strictly inside the interval as often as it occurs, and no other time |
| Headway.SliceTimesSpec | main.py:132-133 | the slice is sorted and, as a multiset, holds exactly the times strictly between the bounds |
| Headway.GapMax | main.py:145-149 | the running maximum is at least 0, bounds every gap seen, and a positive one is one of them |
| Headway.MaxGapSpec | main.py:143-150 | None exactly for fewer than two times; otherwise at least 0, no gap exceeds it, and a nonzero value is a gap |
| Headway.MaxHeadway | main.py:143-150 | the loop returns the headway `MaxGap` defines |
| Headway.DivideAndRound | main.py:141 | the quotient is the nearest integer, and a tie goes to the even one |
| Headway.AvgHeadway | main.py:136-141 | None exactly for fewer than two times; otherwise the span from first to last time over the number of gaps, in rounded microseconds |
| StopPairs.SplitPairSpec | main.py:222 | the split succeeds exactly when the key has one dash, and then gives back the two dash-free stop ids |
| StopPairs.SplitPairKey | main.py:172 | a key built from two dash-free stop ids splits back into them |
| StopPairs.ConsecutiveKeys | main.py:171-172 | one key `a-b` per pair of consecutive stops, none for a trip of fewer than two stops |
| StopPairs.AddTag | main.py:173-176 | the key's tag list gains the tag at its end, other keys keep theirs, and the key set gains the key |
| StopPairs.AddTagOrdered | main.py:173-176 | the insertion order stays duplicate-free and in step with the keys, and only grows |
| StopPairs.RegisterLookup | main.py:169-176 | after a trip, a key's list is its old list followed by the tag once for each time the key occurs in the trip |
| StopPairs.RegisterKeys | main.py:169-176 | the keys afterwards are the old keys and the trip's keys; the order is kept and grows |
| StopPairs.FirstWithDirection | main.py:182-183 | None exactly when no trip has the direction, otherwise the first that does |
| StopPairs.GetTrips | main.py:180-187 | None exactly when a direction is missing, otherwise the first trip of direction 0 and the first of direction 1 |
| StopPairs.IndexRouteLookup | main.py:189-195 | a route with fewer than two trips or a missing direction changes nothing; otherwise each key gains its tags from the two chosen trips, direction 0 first |
| StopPairs.IndexRouteOrdered | main.py:189-195 | indexing a route keeps the order consistent and only adds keys |
| StopPairs.IndexRouteKeeps | main.py:189-195 | indexing a route keeps every key splittable and every tag naming a known route |
| Signatures.LexLeTotal | main.py:214 | Python's string order is total |
| Signatures.LexLeTransitive | main.py:214 | Python's string order is transitive |
| Signatures.RouteLeTotalPreorder | main.py:214 | ordering tags by route name is a total preorder, as `sorted` needs |
| Signatures.RoutesToKey | main.py:212-219 | the loop builds the signature: `route#dir-` for each tag of the tags stably sorted by route name |
| Signatures.SignaturePermutation | main.py:212-219 | two orderings of a tag list whose same-name tags are equal give the same signature |
| Signatures.SignatureKeepsRouteOrder | main.py:214 | tags of the same route name keep their input order in the signature |
| Signatures.SignatureInjective | main.py:212-219 | when no route name holds `#`, equal signatures mean equal tag multisets |
| Sorting.SortBy | main.py:214 | sorting keeps the elements with their multiplicities |
| Sorting.SortBySorted | main.py:214 | sorting orders its result |
| Sorting.SortByStable | main.py:54 | sorting is stable: equivalent elements keep their input order |
| Sorting.SortedUnique | main.py:214 | two sorted arrangements of one multiset are equal when the order separates distinct elements |
| Frequency.Flatten | main.py:228 | a time is in the concatenation exactly when it is in one of the lists |
| Frequency.StopTimesFor | main.py:221-232 | a time is in the stop schedule exactly when some tag's weekday times at the downstream stop contain it |
| Frequency.FirstWritesSpec | main.py:229-231 | writing only absent names keeps old entries, adds exactly the names, and a new name gets its first value |
| Frequency.RecordHeadwaysSpec | main.py:229-231 | `route_headways` is write-once: old entries stay, the tags' routes are added, a new route gets the headway of its first tag |
| Frequency.Midday | main.py:236-246 | the caches only grow; afterwards the signature is cached with the returned value; a cached signature changes nothing; otherwise the value is the combined midday headway |
| Frequency.MiddayCached | main.py:239-240 | a cached signature returns its value and leaves both caches as they were |
| Frequency.PairSegment | main.py:324-327 | the pool entry of a key is its two stops, its signature, its tags and an empty polyline |
| Frequency.FrequentSegmentsMembers | main.py:321-327 | an entry is selected exactly when it is the entry of a key whose cached headway is truthy and at most 901 seconds |
| Frequency.FilterFoldCaches | main.py:321-322 | the filter only adds to the caches, and afterwards exactly the signatures of its keys are new |
| Frequency.FilterFoldHash | main.py:321-327 | the filter appends, in key order, exactly the entries of the frequent keys to the pool |
| Frequency.FilterFoldFrequent | main.py:321-325 | `frequent_pairs` gains exactly the frequent keys |
| Frequency.FilterFoldFrequentTags | main.py:324-325 | every entry of `frequent_pairs` is that pair's own tag list |
| Frequency.FilterFoldFirst | main.py:239-245 | the first key of a signature not yet cached fixes the headway cached for every key of that signature |
| Chains.FindSpec | main.py:358-361 | `find` gives None exactly when no entry matches, and otherwise the entry at the first matching position |
| Chains.FindFound | main.py:358-361 | a found entry is in the pool and matches; None exactly when no entry of the signature touches the point |
| Chains.RemoveFirstSpec | main.py:365 | `list.remove` drops the entry at the first position holding it and keeps every other entry in its order |
| Chains.RemoveKeepsOthers | main.py:369 | removing an entry of one signature keeps the entries of every other signature in their order |
| Chains.WalkPrepend | main.py:370-375 | a walk extended at its front by an edge from its first stop is a walk |
| Chains.WalkAppend | main.py:380-385 | a walk extended at its back by an edge from its last stop is a walk |
| Chains.RemoveFrontTaken | main.py:368-375 | when the pool shrank by one entry per removal, all the removed entries were taken out of it |
| Chains.RemoveBackTaken | main.py:378-385 | the same for the removals of the right loop |
| Chains.ExtendTaken | main.py:365-385 | `extend` takes out the start segment and each entry its loops removed, all of one signature, and keeps the other signatures in order |
| Chains.GrowLeft | main.py:370-375 | taking an entry at the left end extends the walk at its front and keeps its right end |
| Chains.GrowRight | main.py:380-385 | taking an entry at the right end extends the walk at its back and keeps its left end |
| Chains.ContractStep | main.py:336-337 | one more `extend` keeps the pool and the chains' edges equal to the initial pool; every chain runs from its left end to its right end along its own edges, carries the tags of one of them, and stays maximal, including against later chains' edges |
| Chains.EdgeCountAll | main.py:336-337 | the polylines' lengths less one add up to the number of edges the chains took |
| Chains.ContractedCount | main.py:336-337 | with the pool empty, the polylines' lengths less one add up to the number of frequent entries |
| Pipeline.FrequentMap.constructor | main.py:24-25 | `routes` is the loaded schedule; every other dictionary and list starts empty |
| Pipeline.FrequentMap.IterateTrip | main.py:169-176 | the pair index becomes the old one with the trip's tag registered for each pair of consecutive stops in `stop_sequence` order; nothing else changes |
| Pipeline.FrequentMap.IterateRoute | main.py:189-195 | the pair index becomes `IndexRoute` of the old one; nothing else changes |
| Pipeline.FrequentMap.IterateRoutes | main.py:197-208 | the routes are indexed one by one in the natural order of their names |
| Pipeline.FrequentMap.GetStopSchedule | main.py:221-232 | the returned times are the tags' weekday times at the downstream stop, tag after tag, and `route_headways` becomes `RecordHeadways` of the old one |
| Pipeline.FrequentMap.MiddayFrequency | main.py:236-246 | the result and the new caches are what `Midday` gives for the old caches |
| Pipeline.FrequentMap.FilterKey | main.py:322-327 | one round of the filter loop moves the state as `FilterStep` says |
| Pipeline.FrequentMap.FilterFrequent | main.py:317-330 | it stops with the division error exactly for 1 to 19 keys, after the first key; otherwise the state is the filter over every key in dictionary order |
| Pipeline.FrequentMap.ExtendLeft | main.py:367-375 | each entry the left loop removes is `find`'s first match, in pool order, at the left end of that moment; the pool loses exactly those entries in that order, the walk grows at its front and keeps the walk it was given as its tail, and the loop stops when no entry touches the left end |
| Pipeline.FrequentMap.ExtendRight | main.py:377-385 | each entry the right loop removes is `find`'s first match, in pool order, at the right end of that moment; the pool loses exactly those entries in that order, the walk grows at its back keeping its front, and the loop stops when no entry touches either end |
| Pipeline.FrequentMap.Extend | main.py:354-387 | the polyline begins at the final left end and ends at the final right end, and walks along the entries taken: the left loop's, the segment, then the right loop's, with the segment's own left and right ends at positions `|lefts|` and `|lefts| + 1`, in that order, each `find`'s first match at the end it grew; the left loop stopped because no entry of the signature left in the pool touched the final left end, and so did the right loop at the right end; the pool is exactly what those removals leave, so other entries keep their order; no entry left touches either end |
| Pipeline.FrequentMap.Collate | main.py:335-337 | the loop ends with the pool empty, with chains that run between their left and right ends along the entries they took, carry one of those entries' tags, are maximal and together cover the pool, and with the polylines' lengths less one adding up to the pool's size |
| Pipeline.FrequentMap.IndexSegments | main.py:314-345 | ZeroDivisionError exactly for 1 to 19 pairs; `filtered` is the filter run over the keys reached (only the first one when it fails); otherwise the caches and `frequent_pairs` are the filter's, and the chains contract the filter's pool completely |
| Pipeline.CreateFrequentMap | main.py:429-438 | from empty state: the routes indexed in natural order, then `index_segments` over the pairs found |

## Left out

- Loading the GTFS feed through pygtfs and SQLAlchemy (`load_schedule`, `stops_by_id`, `services_by_id`) is a foreign library. The schedule is a `Routes` value, and each trip carries its service record directly.
- `sort_nicely` lives in a module that is not part of this model. The natural sort order is the parameter `natLe` of `IterateRoutes` and `CreateFrequentMap`, and the sort itself is the stable `SortBy`.
- Rendering for the map library is string templating and float coordinate averaging, so it is left out: `write`, `produce_line`, `produce_line_segment`, `str_point`, `str_stop(s)`, `str_routes`, `str_label`, and the `LABELS` midpoints.
- The pickle cache, file output, argparse and logging are I/O. The progress report keeps only its division.
- The map location (`LOCATION`, `agency_locations`, and the exception when neither is set) is configuration with float coordinates. `CreateFrequentMap` starts after those checks and after the schedule is loaded.
- `slow_route_times`, `trip_time`, `route_times`, `midday_headway`, `get_sched`, `isSaturday` and `isSunday` are not used by the pipeline.
- `Pipeline.FrequentMap.IterateRoutes`: requires that every name is a route. The `KeyError` a foreign name would raise is not modelled, because `create_frequent_map` passes `routes.keys()` when `rlist` is not given.
- `Pipeline.CreateFrequentMap`: `names` stands for `routes.keys()` in dictionary order. A caller-supplied `rlist` is only modelled when it is non-empty and names routes. An empty `rlist` is falsy, so Python falls back to every route (main.py:429-430); the model's `names == []` instead indexes nothing, and a caller wanting that fallback passes the keys.
- `Pipeline.FrequentMap.IterateRoutes`: `natLe` is not constrained. `SortBy` gives a permutation for any `natLe`; its sortedness and stability lemmas apply when `natLe` is a total preorder, as the key order of `sort_nicely` is.
- `Pipeline.FrequentMap.Extend`: Python identity is not modelled. `lst += [left, right]` extends the list of the start segment's own tuple in place, which does not matter here because that tuple is the head of the pool and is removed next. `list.remove` also compares by value, so the model removes the first equal entry.
- Stop ids are assumed free of `-` (`DashFreeRoutes`). The `ValueError` of the two-value unpacking of `split("-")` is therefore not modelled as a pipeline outcome, though `StopPairs.SplitPair` models when unpacking fails.
- Python's `datetime` types are integers: seconds for times and headways, and microseconds for the average headway.
