/**
  What the controller guarantees over any interleaving of events: at most one
  interval is ever live, it is the one `intervalId` holds, and while it lives
  the displayed time is the clock in its zone. Plus the outcome of each branch
  of `updateCurrentTime`, and concrete runs.
 */
module ClockProperties {
  import opened Wrappers
  import OffsetTable
  import opened HomeClock

  /**
    At most one live interval: the live intervals are exactly the one `intervalId` holds
    (none when it is null); every handle handed out so far is below `nextTimer`;
    and while an interval lives, the displayed time is the clock in its zone.
   */
  ghost predicate Inv(s: State) {
    && s.live.Keys == Elements(s.intervalId)
    && (forall id :: id in s.live ==> id < s.nextTimer)
    && (s.intervalId.Some? ==> s.currentTime == ClockIn(s.live[s.intervalId.value]))
  }

  /** What the page shows once the clock has been updated for a selection. */
  function DisplayFor(c: Option<Country>): TimeText {
    match Offsets(c)
    case None => NoTime
    case Some(tz) =>
      if |tz| > 0 && tz[0] in OffsetTable.Table then ClockIn(OffsetTable.Table[tz[0]]) else Unsupported
  }

  /** The zones the live intervals format in. */
  function LiveZones(s: State): set<string> {
    s.live.Values
  }

  lemma InitialInv()
    ensures Inv(Initial)
  {
  }

  /**
    `updateCurrentTime` restores the invariant from any state that has it: the
    previous interval is cleared before a new one may start. The page then shows
    exactly what the selection calls for, with an interval live exactly when it
    shows a clock, and in the same zone.
   */
  lemma UpdateKeepsInv(s: State)
    requires Inv(s)
    ensures var r := UpdateCurrentTime(s);
            && Inv(r)
            && r.currentTime == DisplayFor(s.selectedCountry)
            && (r.currentTime.ClockIn? <==> r.intervalId.Some?)
            && LiveZones(r) == (if r.currentTime.ClockIn? then {r.currentTime.zone} else {})
  {
    OffsetTable.ResolveHitsExactlyKeys();
    var c := ClearInterval(s);
    assert c.live == map[];
    var r := UpdateCurrentTime(s);
    if r.intervalId.Some? {
      assert r.live == map[s.nextTimer := r.currentTime.zone];
    }
  }

  /** With no selection, or a selection without offsets, the time becomes empty and no interval is live. */
  lemma UpdateWithoutOffsets(s: State)
    requires Inv(s)
    requires Offsets(s.selectedCountry).None?
    ensures var r := UpdateCurrentTime(s);
            r.currentTime == Text("") && r.intervalId == None && r.live == map[]
  {
    assert ClearInterval(s).live == map[];
  }

  /**
    With no first offset, or one the table does not hold, the time becomes
    the sentinel and no interval is live.
   */
  lemma UpdateUnsupported(s: State)
    requires Inv(s)
    requires Offsets(s.selectedCountry).Some?
    requires var tz := Offsets(s.selectedCountry).value; |tz| == 0 || tz[0] !in OffsetTable.Table
    ensures var r := UpdateCurrentTime(s);
            r.currentTime == Text("Timezone not supported") && r.intervalId == None && r.live == map[]
  {
    assert ClearInterval(s).live == map[];
  }

  /** With a first offset the table resolves to a zone, exactly one interval is live, bound to that zone. */
  lemma UpdateResolved(s: State)
    requires Inv(s)
    requires Offsets(s.selectedCountry).Some?
    requires var tz := Offsets(s.selectedCountry).value; |tz| > 0 && tz[0] in OffsetTable.Table
    ensures var r := UpdateCurrentTime(s);
            var zone := OffsetTable.Table[Offsets(s.selectedCountry).value[0]];
            && r.intervalId.Some?
            && r.live == map[r.intervalId.value := zone]
            && r.currentTime == ClockIn(zone)
  {
    OffsetTable.ResolveHitsExactlyKeys();
    assert ClearInterval(s).live == map[];
  }

  /** Offsets after the first never affect the outcome of `updateCurrentTime`. */
  lemma OnlyFirstOffsetMatters(s: State, tz1: seq<string>, tz2: seq<string>)
    requires |tz1| > 0 && |tz2| > 0 && tz1[0] == tz2[0]
    ensures var c1 := Some(Country(Some(tz1)));
            var c2 := Some(Country(Some(tz2)));
            UpdateCurrentTime(s.(selectedCountry := c1)) == UpdateCurrentTime(s.(selectedCountry := c2)).(selectedCountry := c1)
  {
  }

  /** Clearing twice is clearing once. */
  lemma ClearIntervalIdempotent(s: State)
    ensures ClearInterval(ClearInterval(s)) == ClearInterval(s)
  {
  }

  /** Teardown leaves no live interval, and no interval fires afterwards. */
  lemma DestroyStopsClock(s: State)
    requires Inv(s)
    ensures var r := OnDestroy(s);
            && Inv(r)
            && r.intervalId == None && r.live == map[]
            && forall id: TimerId :: OnTick(r, id) == r
  {
  }

  /** Every event preserves the invariant. */
  lemma StepKeepsInv(s: State, e: Event)
    requires Inv(s)
    ensures Inv(Step(s, e))
  {
    match e
    case Response(i, records) =>
      if i < |s.pending| {
        UpdateKeepsInv(s.(selectedCountry := FirstRecord(records), pending := RemoveAt(s.pending, i)));
      }
    case _ =>
  }

  /** Any sequence of events preserves the invariant. */
  lemma {:induction false} RunKeepsInv(s: State, events: seq<Event>)
    requires Inv(s)
    ensures Inv(Run(s, events))
    decreases |events|
  {
    if events != [] {
      StepKeepsInv(s, events[0]);
      RunKeepsInv(Step(s, events[0]), events[1..]);
    }
  }

  /** Delivering two batches of events one after the other is delivering their concatenation. */
  lemma {:induction false} RunConcat(s: State, a: seq<Event>, b: seq<Event>)
    ensures Run(s, a + b) == Run(Run(s, a), b)
    decreases |a|
  {
    if a == [] {
      assert a + b == b;
    } else {
      assert (a + b)[0] == a[0];
      assert (a + b)[1..] == a[1..] + b;
      RunConcat(Step(s, a[0]), a[1..], b);
    }
  }

  /**
    Over any sequence of selections, responses (in any order, stale ones
    included), failures, ticks and teardowns, at most one interval is live, and
    whenever `intervalId` is set it holds the only live handle.
   */
  lemma NoTimerLeak(events: seq<Event>)
    ensures var r := Run(Initial, events);
            && |r.live| <= 1
            && (r.intervalId.Some? ==> r.live.Keys == {r.intervalId.value})
            && (r.intervalId.None? ==> r.live == map[])
  {
    InitialInv();
    RunKeepsInv(Initial, events);
    var r := Run(Initial, events);
    assert |r.live| == |r.live.Keys|;
  }

  /**
    The empty code forgets the selection but neither cancels the interval nor
    clears the time: the clock of the deselected country keeps ticking.
   */
  lemma EmptySelectKeepsClock(s: State)
    requires Inv(s) && s.intervalId.Some?
    ensures var r := OnCountrySelect(s, "");
            && Inv(r)
            && r.selectedCountry == None
            && r.live == s.live && r.live != map[]
            && OnTick(r, s.intervalId.value).currentTime == ClockIn(s.live[s.intervalId.value])
  {
  }

  /** Selecting a non-empty code cancels nothing: the clock keeps ticking until the lookup answers. */
  lemma SelectKeepsClockUntilResponse(s: State, code: string)
    requires Inv(s) && code != ""
    ensures var r := OnCountrySelect(s, code);
            && Inv(r)
            && r.live == s.live && r.intervalId == s.intervalId && r.currentTime == s.currentTime
            && |r.pending| == |s.pending| + 1
  {
  }

  /**
    A response decides the page on its own: whatever the state it arrives in,
    the selection becomes its first record and the page shows what that record
    calls for, with at most the one interval that shows it.
   */
  lemma ResponseDecidesPage(s: State, request: nat, response: seq<Country>)
    requires Inv(s) && request < |s.pending|
    ensures var r := OnLookupResponse(s, request, response);
            && Inv(r)
            && r.selectedCountry == FirstRecord(response)
            && r.currentTime == DisplayFor(FirstRecord(response))
            && LiveZones(r) == (if r.currentTime.ClockIn? then {r.currentTime.zone} else {})
  {
    UpdateKeepsInv(s.(selectedCountry := FirstRecord(response), pending := RemoveAt(s.pending, request)));
  }

  /**
    Responses are not matched against the latest selection: of two responses,
    the one that arrives last decides the page, even when it answers the older
    selection.
   */
  lemma LastResponseWins(s: State, i: nat, a: seq<Country>, j: nat, b: seq<Country>)
    requires Inv(s) && i < |s.pending| && j < |s.pending| - 1
    ensures var r := OnLookupResponse(OnLookupResponse(s, i, a), j, b);
            && r.selectedCountry == FirstRecord(b)
            && r.currentTime == DisplayFor(FirstRecord(b))
            && |r.live| <= 1
  {
    ResponseDecidesPage(s, i, a);
    var m := OnLookupResponse(s, i, a);
    ResponseDecidesPage(m, j, b);
    var r := OnLookupResponse(m, j, b);
    assert |r.live| == |r.live.Keys|;
  }

  /**
    Teardown does not cancel lookups in flight: a response that arrives after
    `ngOnDestroy` and resolves a zone starts an interval again.
   */
  lemma ResponseAfterDestroyRestartsClock(s: State, request: nat, tz: seq<string>)
    requires Inv(s) && request < |s.pending|
    requires |tz| > 0 && tz[0] in OffsetTable.Table
    ensures var r := OnLookupResponse(OnDestroy(s), request, [Country(Some(tz))]);
            |r.live| == 1 && r.currentTime == ClockIn(OffsetTable.Table[tz[0]])
  {
    var d := OnDestroy(s);
    UpdateResolved(d.(selectedCountry := Some(Country(Some(tz))), pending := RemoveAt(d.pending, request)));
  }

  /** On page load the default country, India, shows the clock in `Asia/Kolkata` under the first handle. */
  lemma DefaultCountryScenario()
    ensures var india := Country(Some(["UTC+05:30"]));
            Run(Initial, [Init, Response(0, [india])])
              == State(Some(india), Some(1), ClockIn("Asia/Kolkata"), map[1 := "Asia/Kolkata"], 2, [])
  {
    OffsetTable.ResolveIndia();
    var india := Country(Some(["UTC+05:30"]));
    var events := [Init, Response(0, [india])];
    var s1 := Step(Initial, Init);
    assert Run(Initial, events) == Run(s1, [Response(0, [india])]);
    assert Run(s1, [Response(0, [india])]) == Run(Step(s1, Response(0, [india])), []);
  }

  /**
    A lookup answered after teardown starts an interval that nothing will clear:
    India's answer arriving after `ngOnDestroy` leaves its interval running.
   */
  lemma LeakAfterDestroyScenario()
    ensures var india := Country(Some(["UTC+05:30"]));
            Run(Initial, [Init, Destroy, Response(0, [india])]).live == map[1 := "Asia/Kolkata"]
  {
    OffsetTable.ResolveIndia();
    var india := Country(Some(["UTC+05:30"]));
    var s1 := Step(Initial, Init);
    var s2 := Step(s1, Destroy);
    assert Run(Initial, [Init, Destroy, Response(0, [india])]) == Run(s1, [Destroy, Response(0, [india])]);
    assert Run(s1, [Destroy, Response(0, [india])]) == Run(s2, [Response(0, [india])]);
    assert Run(s2, [Response(0, [india])]) == Run(Step(s2, Response(0, [india])), []);
  }

  /** A country whose offset the table does not hold shows the sentinel, and no interval starts. */
  lemma UnsupportedScenario()
    ensures var nowhere := Country(Some(["UTC+99:00"]));
            var r := Run(Initial, [Select("XX"), Response(0, [nowhere])]);
            r.currentTime == Text("Timezone not supported") && r.intervalId == None && r.live == map[]
  {
    OffsetTable.ResolveOutsideTable();
    var nowhere := Country(Some(["UTC+99:00"]));
    var s1 := Step(Initial, Select("XX"));
    assert Run(Initial, [Select("XX"), Response(0, [nowhere])]) == Run(s1, [Response(0, [nowhere])]);
    assert Run(s1, [Response(0, [nowhere])]) == Run(Step(s1, Response(0, [nowhere])), []);
  }

  /** Selecting `US` and then `JP` issues both lookups and changes nothing else. */
  lemma ReselectScenario()
    ensures Run(Initial, [Select("US"), Select("JP")]) == Initial.(pending := ["US", "JP"])
  {
    var s1 := Step(Initial, Select("US"));
    assert Run(Initial, [Select("US"), Select("JP")]) == Run(s1, [Select("JP")]);
    assert Run(s1, [Select("JP")]) == Run(Step(s1, Select("JP")), []);
  }

  /**
    `US` and `JP` selected one after the other, their answers arriving in order:
    the page shows Tokyo.
   */
  lemma InOrderScenario(us: Country, jp: Country)
    requires us.timezones == Some(["UTC-05:00", "UTC-06:00"])
    requires jp.timezones == Some(["UTC+09:00"])
    ensures var r := OnLookupResponse(OnLookupResponse(Initial.(pending := ["US", "JP"]), 0, [us]), 0, [jp]);
            r.selectedCountry == Some(jp) && r.currentTime == ClockIn("Asia/Tokyo") && |r.live| == 1
  {
    OffsetTable.ResolveNewYork();
    OffsetTable.ResolveTokyo();
    LastResponseWins(Initial.(pending := ["US", "JP"]), 0, [us], 0, [jp]);
  }

  /**
    The same two answers arriving out of order: the stale `US` answer arrives
    last and wins, so the page shows New York although `JP` was selected last.
   */
  lemma StaleResponseScenario(us: Country, jp: Country)
    requires us.timezones == Some(["UTC-05:00", "UTC-06:00"])
    requires jp.timezones == Some(["UTC+09:00"])
    ensures var r := OnLookupResponse(OnLookupResponse(Initial.(pending := ["US", "JP"]), 1, [jp]), 0, [us]);
            r.selectedCountry == Some(us) && r.currentTime == ClockIn("America/New_York") && |r.live| == 1
  {
    OffsetTable.ResolveNewYork();
    OffsetTable.ResolveTokyo();
    LastResponseWins(Initial.(pending := ["US", "JP"]), 1, [jp], 0, [us]);
  }
}
