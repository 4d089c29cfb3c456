/** The timetable as the pipeline reads it: routes, their trips, each trip's
    stop times and service calendar, and the time arithmetic of main.py.
    Times of day are whole seconds since the start of the service day
    (they may pass 24 hours); Python's `timedelta` on whole seconds is exact
    integer arithmetic. */
module Timetable {
  import opened Wrappers
  import opened Sorting

  /** The seven weekday flags of a service record. */
  datatype Service = Service(
    monday: bool, tuesday: bool, wednesday: bool, thursday: bool,
    friday: bool, saturday: bool, sunday: bool)

  /** One stop of a trip: the stop's id, its arrival time (None when the
      feed leaves it blank) and its `stop_sequence` number. */
  datatype StopTime = StopTime(stopId: string, arrival: Option<int>, stopSequence: int)

  /** A trip: `direction_id` (0 or 1 in practice; any other value stands
      for a missing one), its service calendar and its stop times in feed
      order. */
  datatype Trip = Trip(direction: int, service: Service, stopTimes: seq<StopTime>)

  datatype Route = Route(trips: seq<Trip>)

  /** A duration of `hours:minutes:seconds`, in seconds. */
  function Timedelta(hours: int, minutes: int := 0, seconds: int := 0): int {
    hours * 3600 + minutes * 60 + seconds
  }

  /** A time given in hours, minutes under 60 and seconds under 60 is read
      back as the same three numbers. */
  lemma TimedeltaFields(hours: nat, minutes: nat, seconds: nat)
    requires minutes < 60 && seconds < 60
    ensures Timedelta(hours, minutes, seconds) / 3600 == hours
    ensures Timedelta(hours, minutes, seconds) % 3600 / 60 == minutes
    ensures Timedelta(hours, minutes, seconds) % 60 == seconds
  {
    var t := Timedelta(hours, minutes, seconds);
    var r := minutes * 60 + seconds;
    assert 0 <= r < 3600;
    assert t == hours * 3600 + r;
    assert t / 3600 == hours && t % 3600 == r;
    assert t == (hours * 60 + minutes) * 60 + seconds;
    assert t % 60 == seconds;
  }

  // ---------------------------------------------------------------------
  // Service calendar

  /** Runs on every day from Monday to Friday. */
  predicate IsWeekday(service: Service) {
    service.monday && service.tuesday && service.wednesday && service.thursday && service.friday
  }

  predicate StartsWith(s: string, prefix: string) {
    |prefix| <= |s| && s[..|prefix|] == prefix
  }

  /** `code` when the day is active, nothing otherwise. */
  function DayText(active: bool, code: string): string {
    if active then code else ""
  }

  /** Consumes `code` from the front of `s` when it is there. */
  function Take(s: string, code: string): (r: (bool, string))
    ensures r.0 ==> s == code + r.1
    ensures !r.0 ==> r.1 == s
  {
    if StartsWith(s, code) then
      assert s == s[..|code|] + s[|code|..];
      (true, s[|code|..])
    else (false, s)
  }

  /** Reads the `MTWThFSaSu` format back into a service; a `T` followed by
      `h` is Thursday, not Tuesday. None when the text is not in that
      format. */
  function ParseService(s: string): Option<Service> {
    var mo := Take(s, "M");
    var tu := TakeTuesday(mo.1);
    var we := Take(tu.1, "W");
    var th := Take(we.1, "Th");
    var fr := Take(th.1, "F");
    var sa := Take(fr.1, "Sa");
    var su := Take(sa.1, "Su");
    if su.1 == [] then Some(Service(mo.0, tu.0, we.0, th.0, fr.0, sa.0, su.0)) else None
  }

  function TakeTuesday(s: string): (bool, string) {
    if StartsWith(s, "Th") then (false, s) else Take(s, "T")
  }

  /** The first character of `s`, or a space when `s` is empty. */
  function HeadOr(s: string): char {
    if s == [] then ' ' else s[0]
  }

  lemma DayHead(active: bool, code: string, rest: string)
    requires code != []
    ensures HeadOr(DayText(active, code) + rest) == if active then code[0] else HeadOr(rest)
  {
    if !active {
      assert DayText(active, code) + rest == rest;
    }
  }

  /** The text built from `active` and `rest` gives `active` and `rest`
      back when `rest` cannot be read as `code`. */
  lemma TakeBack(active: bool, code: string, rest: string)
    requires code != [] && code[0] != ' ' && (!active ==> HeadOr(rest) != code[0])
    ensures Take(DayText(active, code) + rest, code) == (active, rest)
  {
    var s := DayText(active, code) + rest;
    if active {
      assert s[..|code|] == code && s[|code|..] == rest;
    } else {
      assert s == rest;
      assert !StartsWith(s, code) by {
        if |code| <= |s| { assert s[..|code|][0] == s[0]; }
      }
    }
  }

  /** The `MTWThFSaSu` text of a service, day by day. */
  ghost function ServiceText(service: Service): string {
    DayText(service.monday, "M") + (DayText(service.tuesday, "T") + (DayText(service.wednesday, "W")
      + (DayText(service.thursday, "Th") + (DayText(service.friday, "F")
      + (DayText(service.saturday, "Sa") + DayText(service.sunday, "Su"))))))
  }

  /** The text of a service reads back as that service. */
  lemma ParseServiceText(service: Service)
    ensures ParseService(ServiceText(service)) == Some(service)
  {
    var r7 := DayText(service.sunday, "Su");
    var r6 := DayText(service.saturday, "Sa") + r7;
    var r5 := DayText(service.friday, "F") + r6;
    var r4 := DayText(service.thursday, "Th") + r5;
    var r3 := DayText(service.wednesday, "W") + r4;
    var r2 := DayText(service.tuesday, "T") + r3;
    var r1 := DayText(service.monday, "M") + r2;
    assert ServiceText(service) == r1;
    ParseSteps(service, r1, r2, r3, r4, r5, r6, r7);
  }

  /** Each step of `ParseService` on a service text takes back one day. */
  lemma ParseSteps(service: Service, r1: string, r2: string, r3: string, r4: string, r5: string, r6: string, r7: string)
    requires r7 == DayText(service.sunday, "Su")
    requires r6 == DayText(service.saturday, "Sa") + r7
    requires r5 == DayText(service.friday, "F") + r6
    requires r4 == DayText(service.thursday, "Th") + r5
    requires r3 == DayText(service.wednesday, "W") + r4
    requires r2 == DayText(service.tuesday, "T") + r3
    requires r1 == DayText(service.monday, "M") + r2
    ensures Take(r1, "M") == (service.monday, r2)
    ensures TakeTuesday(r2) == (service.tuesday, r3)
    ensures Take(r3, "W") == (service.wednesday, r4)
    ensures Take(r4, "Th") == (service.thursday, r5)
    ensures Take(r5, "F") == (service.friday, r6)
    ensures Take(r6, "Sa") == (service.saturday, r7)
    ensures Take(r7, "Su") == (service.sunday, [])
  {
    TailHeads(service, r2, r3, r4, r5, r6);
    assert r7 == r7 + [];
    TakeBack(service.monday, "M", r2);
    TuesdayBack(service, r3, r5);
    TakeBack(service.wednesday, "W", r4);
    TakeBack(service.thursday, "Th", r5);
    TakeBack(service.friday, "F", r6);
    SaturdayBack(service.saturday, r7);
    TakeBack(service.sunday, "Su", []);
  }

  lemma TuesdayBack(service: Service, r3: string, r5: string)
    requires r3 == DayText(service.wednesday, "W") + (DayText(service.thursday, "Th") + r5)
    requires HeadOr(r5) in {'F', 'S', ' '}
    ensures TakeTuesday(DayText(service.tuesday, "T") + r3) == (service.tuesday, r3)
  {
    var r4 := DayText(service.thursday, "Th") + r5;
    DayHead(service.thursday, "Th", r5);
    DayHead(service.wednesday, "W", r4);
    var r2 := DayText(service.tuesday, "T") + r3;
    if service.tuesday {
      assert r2 == "T" + r3;
      assert !StartsWith(r2, "Th") by { if |r2| >= 2 { assert r2[..2][1] == r3[0]; } }
      TakeBack(true, "T", r3);
    } else {
      assert r2 == r3;
      if !service.wednesday && service.thursday {
        assert r3 == "Th" + r5;
        assert r3[..2] == "Th";
      } else {
        TakeBack(false, "T", r3);
      }
    }
  }

  lemma SaturdayBack(saturday: bool, r7: string)
    requires r7 == "" || r7 == "Su"
    ensures Take(DayText(saturday, "Sa") + r7, "Sa") == (saturday, r7)
  {
    if saturday {
      TakeBack(true, "Sa", r7);
    } else {
      assert DayText(saturday, "Sa") + r7 == r7;
      assert !StartsWith(r7, "Sa") by {
        if |r7| >= 2 { assert r7[..2][1] == r7[1] == 'u'; }
      }
    }
  }

  /** A text built from `active` and `rest` that begins with `code + p`
      has `active` set, and `rest` begins with `p`. */
  lemma PrefixDay(active: bool, code: string, rest: string, p: string)
    requires code != [] && code[0] != ' ' && (!active ==> HeadOr(rest) != code[0])
    requires StartsWith(DayText(active, code) + rest, code + p)
    ensures active && StartsWith(rest, p)
  {
    var s := DayText(active, code) + rest;
    DayHead(active, code, rest);
    assert HeadOr(s) == code[0] by { assert s[..|code + p|][0] == s[0]; }
    if active {
      assert s == code + rest;
      assert rest[..|p|] == s[..|code + p|][|code|..];
    }
  }

  lemma NoTuesdayPrefix(service: Service, r3: string, r5: string)
    requires r3 == DayText(service.wednesday, "W") + (DayText(service.thursday, "Th") + r5)
    requires HeadOr(r5) in {'F', 'S', ' '}
    ensures !StartsWith(r3, "TWThF")
  {
    DayHead(service.thursday, "Th", r5);
    DayHead(service.wednesday, "W", DayText(service.thursday, "Th") + r5);
    if !service.wednesday && service.thursday {
      assert r3 == "Th" + r5;
      if |r3| >= 5 {
        assert r3[..5][1] == r3[1] == 'h';
      }
    } else if |r3| >= 5 {
      assert r3[..5][0] == HeadOr(r3);
    }
  }

  /** What each tail of a service text can begin with. */
  lemma TailHeads(service: Service, r2: string, r3: string, r4: string, r5: string, r6: string)
    requires r6 == DayText(service.saturday, "Sa") + DayText(service.sunday, "Su")
    requires r5 == DayText(service.friday, "F") + r6
    requires r4 == DayText(service.thursday, "Th") + r5
    requires r3 == DayText(service.wednesday, "W") + r4
    requires r2 == DayText(service.tuesday, "T") + r3
    ensures HeadOr(r6) in {'S', ' '}
    ensures HeadOr(r5) in {'F', 'S', ' '}
    ensures HeadOr(r4) in {'T', 'F', 'S', ' '}
    ensures HeadOr(r3) in {'W', 'T', 'F', 'S', ' '}
    ensures HeadOr(r2) in {'T', 'W', 'F', 'S', ' '}
  {
    DayHead(service.sunday, "Su", []);
    assert DayText(service.sunday, "Su") + [] == DayText(service.sunday, "Su");
    DayHead(service.saturday, "Sa", DayText(service.sunday, "Su"));
    DayHead(service.friday, "F", r6);
    DayHead(service.thursday, "Th", r5);
    DayHead(service.wednesday, "W", r4);
    DayHead(service.tuesday, "T", r3);
  }

  /** `MTWThF` taken apart day by day. */
  lemma WeekdayCodes()
    ensures "MTWThF" == "M" + "TWThF"
    ensures "TWThF" == "T" + "WThF"
    ensures "WThF" == "W" + "ThF"
    ensures "ThF" == "Th" + "F"
    ensures "F" == "F" + ""
  {
  }

  /** A service whose text begins with `MTWThF` runs on every weekday. */
  lemma WeekdayFromPrefix(service: Service, r2: string, r3: string, r4: string, r5: string, r6: string)
    requires r6 == DayText(service.saturday, "Sa") + DayText(service.sunday, "Su")
    requires r5 == DayText(service.friday, "F") + r6
    requires r4 == DayText(service.thursday, "Th") + r5
    requires r3 == DayText(service.wednesday, "W") + r4
    requires r2 == DayText(service.tuesday, "T") + r3
    requires StartsWith(DayText(service.monday, "M") + r2, "MTWThF")
    ensures IsWeekday(service)
  {
    TailHeads(service, r2, r3, r4, r5, r6);
    WeekdayCodes();
    PrefixDay(service.monday, "M", r2, "TWThF");
    if !service.tuesday {
      assert r2 == r3;
      NoTuesdayPrefix(service, r3, r5);
    } else {
      PrefixDay(service.tuesday, "T", r3, "WThF");
      PrefixDay(service.wednesday, "W", r4, "ThF");
      PrefixDay(service.thursday, "Th", r5, "F");
      PrefixDay(service.friday, "F", r6, "");
    }
  }

  /** The text of a service begins with `MTWThF` exactly when the service
      runs on every weekday. */
  lemma ServiceTextWeekday(service: Service)
    ensures IsWeekday(service) <==> StartsWith(ServiceText(service), "MTWThF")
  {
    var r6 := DayText(service.saturday, "Sa") + DayText(service.sunday, "Su");
    var r5 := DayText(service.friday, "F") + r6;
    var r4 := DayText(service.thursday, "Th") + r5;
    var r3 := DayText(service.wednesday, "W") + r4;
    var r2 := DayText(service.tuesday, "T") + r3;
    var s := DayText(service.monday, "M") + r2;
    assert ServiceText(service) == s;
    if IsWeekday(service) {
      assert s == "MTWThF" + r6;
      assert s[..6] == "MTWThF";
    }
    if StartsWith(s, "MTWThF") {
      WeekdayFromPrefix(service, r2, r3, r4, r5, r6);
    }
  }

  lemma EmptyPrefix(t: string)
    ensures "" + t == t
  {
  }

  lemma AppendDay(before: string, after: string, active: bool, code: string, rest: string, whole: string)
    requires after == if active then before + code else before
    requires before + (DayText(active, code) + rest) == whole
    ensures after + rest == whole
  {
    if !active {
      assert DayText(active, code) + rest == rest;
    }
  }

  lemma LastDay(before: string, after: string, active: bool, code: string, whole: string)
    requires after == if active then before + code else before
    requires before + DayText(active, code) == whole
    ensures after == whole
  {
    if !active {
      assert before + DayText(active, code) == before;
    }
  }

  /** `str_service`: the days of the service in `MTWThFSaSu` format. The
      result reads back as the same service, and it begins with `MTWThF`
      exactly when the service runs on every weekday. */
  method StrService(service: Service) returns (s: string)
    ensures s == ServiceText(service)
  {
    ghost var r7 := DayText(service.sunday, "Su");
    ghost var r6 := DayText(service.saturday, "Sa") + r7;
    ghost var r5 := DayText(service.friday, "F") + r6;
    ghost var r4 := DayText(service.thursday, "Th") + r5;
    ghost var r3 := DayText(service.wednesday, "W") + r4;
    ghost var r2 := DayText(service.tuesday, "T") + r3;
    ghost var w := ServiceText(service);
    s := "";
    EmptyPrefix(DayText(service.monday, "M") + r2);
    ghost var before := s;
    if service.monday { s := s + "M"; }
    AppendDay(before, s, service.monday, "M", r2, w);
    before := s;
    if service.tuesday { s := s + "T"; }
    AppendDay(before, s, service.tuesday, "T", r3, w);
    before := s;
    if service.wednesday { s := s + "W"; }
    AppendDay(before, s, service.wednesday, "W", r4, w);
    before := s;
    if service.thursday { s := s + "Th"; }
    AppendDay(before, s, service.thursday, "Th", r5, w);
    before := s;
    if service.friday { s := s + "F"; }
    AppendDay(before, s, service.friday, "F", r6, w);
    before := s;
    if service.saturday { s := s + "Sa"; }
    AppendDay(before, s, service.saturday, "Sa", r7, w);
    before := s;
    if service.sunday { s := s + "Su"; }
    LastDay(before, s, service.sunday, "Su", w);
  }

  // ---------------------------------------------------------------------
  // Stop times of a trip

  function BySequence(x: StopTime, y: StopTime): bool {
    x.stopSequence <= y.stopSequence
  }

  lemma BySequenceTotal()
    ensures TotalPreorder(BySequence)
  {
  }

  /** `trip_sched`: the trip's stop times, stably sorted by `stop_sequence`. */
  function TripSched(trip: Trip): (ts: seq<StopTime>)
    ensures multiset(ts) == multiset(trip.stopTimes)
    ensures SortedBy(ts, BySequence)
  {
    BySequenceTotal();
    SortBySorted(trip.stopTimes, BySequence);
    SortBy(trip.stopTimes, BySequence)
  }

  /** Stop times that share a `stop_sequence` keep their feed order. */
  lemma TripSchedStable(trip: Trip, x: StopTime)
    ensures Equivalents(TripSched(trip), x, BySequence) == Equivalents(trip.stopTimes, x, BySequence)
  {
    BySequenceTotal();
    SortByStable(trip.stopTimes, x, BySequence);
  }

  /** Index of the first stop time of `sts` at stop `stopId`. */
  function FirstAtStop(sts: seq<StopTime>, stopId: string): (r: Option<nat>)
    ensures r.None? <==> forall i :: 0 <= i < |sts| ==> sts[i].stopId != stopId
    ensures r.Some? ==> r.value < |sts| && sts[r.value].stopId == stopId
                        && forall i :: 0 <= i < r.value ==> sts[i].stopId != stopId
  {
    if sts == [] then None
    else if sts[0].stopId == stopId then Some(0)
    else match FirstAtStop(sts[1..], stopId)
      case None => None
      case Some(i) => Some(i + 1)
  }

  /** `fast_trip_time`: the arrival time recorded at the first stop time
      of the trip (in feed order) at `stopId`; None when the trip does not
      call there or leaves that arrival blank. */
  function FastTripTime(trip: Trip, stopId: string): (r: Option<int>)
    ensures r.Some? ==> exists i :: 0 <= i < |trip.stopTimes| && trip.stopTimes[i].stopId == stopId
                                    && trip.stopTimes[i].arrival == r
    ensures (forall i :: 0 <= i < |trip.stopTimes| ==> trip.stopTimes[i].stopId != stopId) ==> r.None?
    ensures forall i :: 0 <= i < |trip.stopTimes| && trip.stopTimes[i].stopId == stopId
                        && (forall j :: 0 <= j < i ==> trip.stopTimes[j].stopId != stopId)
                        ==> r == trip.stopTimes[i].arrival
  {
    match FirstAtStop(trip.stopTimes, stopId)
    case None => None
    case Some(i) => trip.stopTimes[i].arrival
  }

  /** A usable arrival: Python drops every falsy time, that is a blank one
      and also an arrival of exactly 00:00:00. */
  predicate Truthy(t: Option<int>) {
    t.Some? && t.value != 0
  }

  /** `fast_route_times`: the usable arrival times at `stopId` of the
      route's trips in direction `direction` whose service satisfies
      `filter`, in trip order. */
  function FastRouteTimes(trips: seq<Trip>, direction: int, stopId: string, filter: Service -> bool): (times: seq<int>)
    ensures |times| <= |trips|
    ensures forall x :: x in times ==> x != 0
  {
    if trips == [] then []
    else
      var t := trips[0];
      var here := FastTripTime(t, stopId);
      (if filter(t.service) && t.direction == direction && Truthy(here) then [here.value] else [])
      + FastRouteTimes(trips[1..], direction, stopId, filter)
  }

  /** A time is among the route's times exactly when some trip of that
      direction and service records it, nonzero, at the stop. */
  lemma {:induction false} FastRouteTimesMembers(trips: seq<Trip>, direction: int, stopId: string, filter: Service -> bool, x: int)
    ensures x in FastRouteTimes(trips, direction, stopId, filter) <==>
              exists i :: 0 <= i < |trips| && filter(trips[i].service) && trips[i].direction == direction
                          && FastTripTime(trips[i], stopId) == Some(x) && x != 0
  {
    if trips != [] {
      FastRouteTimesMembers(trips[1..], direction, stopId, filter, x);
      if exists i :: 1 <= i < |trips| && filter(trips[i].service) && trips[i].direction == direction
                     && FastTripTime(trips[i], stopId) == Some(x) && x != 0 {
        var i :| 1 <= i < |trips| && filter(trips[i].service) && trips[i].direction == direction
                 && FastTripTime(trips[i], stopId) == Some(x) && x != 0;
        assert trips[1..][i - 1] == trips[i];
      }
      if exists k :: 0 <= k < |trips[1..]| && filter(trips[1..][k].service) && trips[1..][k].direction == direction
                     && FastTripTime(trips[1..][k], stopId) == Some(x) && x != 0 {
        var k :| 0 <= k < |trips[1..]| && filter(trips[1..][k].service) && trips[1..][k].direction == direction
                 && FastTripTime(trips[1..][k], stopId) == Some(x) && x != 0;
        assert trips[k + 1] == trips[1..][k];
      }
    }
  }

  /** The route's times over `trips` and one more trip `t`. */
  lemma {:induction false} FastRouteTimesSnoc(trips: seq<Trip>, t: Trip, direction: int, stopId: string, filter: Service -> bool)
    ensures FastRouteTimes(trips + [t], direction, stopId, filter)
            == FastRouteTimes(trips, direction, stopId, filter)
               + if filter(t.service) && t.direction == direction && Truthy(FastTripTime(t, stopId))
                 then [FastTripTime(t, stopId).value] else []
  {
    if trips != [] {
      assert (trips + [t])[1..] == trips[1..] + [t];
      FastRouteTimesSnoc(trips[1..], t, direction, stopId, filter);
    } else {
      assert [t][1..] == [];
    }
  }

  /** `fast_route_times` as the loop it is: the arrival at `stopId` of
      each relevant trip, dropping the falsy ones. */
  method CollectRouteTimes(trips: seq<Trip>, direction: int, stopId: string, filter: Service -> bool) returns (times: seq<int>)
    ensures times == FastRouteTimes(trips, direction, stopId, filter)
  {
    times := [];
    for i := 0 to |trips|
      invariant times == FastRouteTimes(trips[..i], direction, stopId, filter)
    {
      var t := trips[i];
      if filter(t.service) && t.direction == direction {
        var here := FastTripTime(t, stopId);
        if here.Some? && here.value != 0 {
          times := times + [here.value];
        }
      }
      assert trips[..i + 1] == trips[..i] + [t];
      FastRouteTimesSnoc(trips[..i], t, direction, stopId, filter);
    }
    assert trips[..|trips|] == trips;
  }

  /** `weekday_route_times`: `fast_route_times` over services that run on
      every weekday. */
  function WeekdayRouteTimes(route: Route, direction: int, stopId: string): seq<int> {
    FastRouteTimes(route.trips, direction, stopId, IsWeekday)
  }

  /** A time is among the route's weekday times exactly when some trip
      of that direction whose service runs Monday to Friday records it,
      nonzero, at the stop. */
  lemma WeekdayRouteTimesMembers(route: Route, direction: int, stopId: string, x: int)
    ensures x in WeekdayRouteTimes(route, direction, stopId) <==>
              exists i :: 0 <= i < |route.trips| && IsWeekday(route.trips[i].service) && route.trips[i].direction == direction
                          && FastTripTime(route.trips[i], stopId) == Some(x) && x != 0
  {
    FastRouteTimesMembers(route.trips, direction, stopId, IsWeekday, x);
  }
}
