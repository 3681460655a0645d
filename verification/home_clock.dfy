/**
  The home page's clock controller as a pure transition system: each event the
  component reacts to (initialisation, a selection, the arrival or failure of a
  country lookup, a timer tick, teardown) is a function from state to state.
 */
module HomeClock {
  import opened Wrappers
  import OffsetTable

  /**
    A country record as the lookup returns it, reduced to the one field the
    component reads; `None` when the record has no truthy `timezones` field.
   */
  datatype Country = Country(timezones: Option<seq<string>>)

  /** A handle returned by `setInterval`. */
  type TimerId = nat

  /**
    The value of `currentTime`: a literal text (the empty string or the
    unsupported-zone sentinel), or the wall-clock time formatted as
    `hh:mm:ss AM/PM` in a zone, which is kept abstract as that zone.
   */
  datatype TimeText = Text(text: string) | ClockIn(zone: string)

  const NoTime: TimeText := Text("")
  const Unsupported: TimeText := Text("Timezone not supported")
  const DefaultCountryCode: string := "IN"

  /**
    The component's fields, plus what the browser holds for it: the intervals not
    yet cleared (each with the zone its callback formats in), the handle the
    next `setInterval` returns, and the codes of lookups whose response has not
    arrived yet.
   */
  datatype State = State(
    selectedCountry: Option<Country>,
    intervalId: Option<TimerId>,
    currentTime: TimeText,
    live: map<TimerId, string>,
    nextTimer: TimerId,
    pending: seq<string>)

  /** The component as constructed: nothing selected, no interval, empty time. */
  const Initial: State := State(None, None, NoTime, map[], 1, [])

  /** The offsets of a selection, when both the selection and its `timezones` are truthy. */
  function Offsets(c: Option<Country>): Option<seq<string>> {
    if c.Some? then c.value.timezones else None
  }

  /** `timezones[0]`, which is `undefined` for an empty array. */
  function FirstOffset(tz: seq<string>): Option<string> {
    if |tz| > 0 then Some(tz[0]) else None
  }

  /** `response[0]`, which is `undefined` (so falsy) for an empty response. */
  function FirstRecord(response: seq<Country>): Option<Country> {
    if |response| > 0 then Some(response[0]) else None
  }

  function RemoveAt(q: seq<string>, i: nat): seq<string>
    requires i < |q|
  {
    q[..i] + q[i + 1..]
  }

  /**
    `clearInterval()`: cancels the stored interval, if there is one, and forgets
    its handle. Nothing but the handle and the cancelled interval changes.
   */
  function ClearInterval(s: State): (r: State)
    ensures r.intervalId == None
    ensures r.live.Keys == s.live.Keys - Elements(s.intervalId)
    ensures forall id :: id in r.live ==> r.live[id] == s.live[id]
    ensures r.selectedCountry == s.selectedCountry && r.currentTime == s.currentTime
    ensures r.nextTimer == s.nextTimer && r.pending == s.pending
  {
    match s.intervalId
    case None => s
    case Some(id) => s.(live := s.live - {id}, intervalId := None)
  }

  /**
    `updateCurrentTime()`: always cancels the previous interval first. Then, with
    no selection or no offsets, the time becomes empty; with a first offset the
    table does not hold (or no first offset at all), it becomes the sentinel;
    otherwise it shows the clock in the resolved zone at once and a new interval,
    under a fresh handle, keeps it ticking.
   */
  function UpdateCurrentTime(s: State): (r: State)
    ensures r.selectedCountry == s.selectedCountry && r.pending == s.pending
    ensures Offsets(s.selectedCountry).None? ==>
              && r.currentTime == NoTime
              && r.intervalId == None
              && r.live == ClearInterval(s).live
              && r.nextTimer == s.nextTimer
    ensures var tz := Offsets(s.selectedCountry);
            tz.Some? && OffsetTable.Resolve(FirstOffset(tz.value)).None? ==>
              && r.currentTime == Unsupported
              && r.intervalId == None
              && r.live == ClearInterval(s).live
              && r.nextTimer == s.nextTimer
    ensures var tz := Offsets(s.selectedCountry);
            tz.Some? && OffsetTable.Resolve(FirstOffset(tz.value)).Some? ==>
              var zone := OffsetTable.Resolve(FirstOffset(tz.value)).value;
              && r.currentTime == ClockIn(zone)
              && r.intervalId == Some(s.nextTimer)
              && r.live == ClearInterval(s).live[s.nextTimer := zone]
              && r.nextTimer == s.nextTimer + 1
  {
    var c := ClearInterval(s);
    if c.selectedCountry.Some? && c.selectedCountry.value.timezones.Some? then
      var zone := OffsetTable.Resolve(FirstOffset(c.selectedCountry.value.timezones.value));
      if zone.Some? then
        var id := c.nextTimer;
        c.(currentTime := ClockIn(zone.value), intervalId := Some(id),
           live := c.live[id := zone.value], nextTimer := id + 1)
      else
        c.(currentTime := Unsupported)
    else
      c.(currentTime := NoTime)
  }

  /** `ngOnInit()`: issues the lookup of the default country (the list request is not modelled). */
  function OnInit(s: State): (r: State)
    ensures r.pending == s.pending + [DefaultCountryCode]
    ensures r.(pending := s.pending) == s
  {
    s.(pending := s.pending + [DefaultCountryCode])
  }

  /**
    `onCountrySelect(event)`: a non-empty code only issues its lookup; the empty
    code only forgets the selection, leaving the interval and the displayed
    time as they were.
   */
  function OnCountrySelect(s: State, code: string): (r: State)
    ensures code != "" ==> r.pending == s.pending + [code] && r.(pending := s.pending) == s
    ensures code == "" ==> r.selectedCountry == None && r.(selectedCountry := s.selectedCountry) == s
  {
    if code != "" then s.(pending := s.pending + [code]) else s.(selectedCountry := None)
  }

  /**
    The `next` handler of a lookup: `selectedCountry = response[0]`, then
    `updateCurrentTime()`. Responses may arrive in any order, so `request` names
    any lookup still in flight.
   */
  function OnLookupResponse(s: State, request: nat, response: seq<Country>): (r: State)
    requires request < |s.pending|
    ensures r.selectedCountry == FirstRecord(response)
    ensures r.pending == RemoveAt(s.pending, request)
    ensures r.intervalId == None || r.intervalId == Some(s.nextTimer)
    ensures s.intervalId.Some? && s.intervalId.value < s.nextTimer ==> r.intervalId != s.intervalId
  {
    UpdateCurrentTime(s.(selectedCountry := FirstRecord(response), pending := RemoveAt(s.pending, request)))
  }

  /** The `error` handler of a lookup: the failure is logged and nothing else happens. */
  function OnLookupError(s: State, request: nat): (r: State)
    requires request < |s.pending|
    ensures r.pending == RemoveAt(s.pending, request)
    ensures r.(pending := s.pending) == s
  {
    s.(pending := RemoveAt(s.pending, request))
  }

  /**
    One run of an interval's callback: `formatTime` writes the time in the
    interval's zone. A cleared interval never fires again.
   */
  function OnTick(s: State, id: TimerId): (r: State)
    ensures id in s.live ==> r == s.(currentTime := ClockIn(s.live[id]))
    ensures id !in s.live ==> r == s
  {
    if id in s.live then s.(currentTime := ClockIn(s.live[id])) else s
  }

  /** `ngOnDestroy()`: clears the interval. */
  function OnDestroy(s: State): (r: State)
    ensures r.intervalId == None && r.live.Keys == s.live.Keys - Elements(s.intervalId)
    ensures forall id :: id in r.live ==> r.live[id] == s.live[id]
    ensures r.selectedCountry == s.selectedCountry && r.currentTime == s.currentTime
    ensures r.nextTimer == s.nextTimer && r.pending == s.pending
  {
    ClearInterval(s)
  }

  /** The events the component reacts to, in the order the event loop delivers them. */
  datatype Event =
    | Init
    | Select(code: string)
    | Response(request: nat, records: seq<Country>)
    | Failure(request: nat)
    | Tick(timer: TimerId)
    | Destroy

  /**
    One event. A response or failure for a lookup not in flight cannot arrive
    and changes nothing. Only a response may start an interval, and at most one.
   */
  function Step(s: State, e: Event): (r: State)
    ensures (e.Response? || e.Failure?) && e.request >= |s.pending| ==> r == s
    ensures e.Response? && e.request < |s.pending| ==>
              r.selectedCountry == FirstRecord(e.records) && r.pending == RemoveAt(s.pending, e.request)
    ensures e.Failure? && e.request < |s.pending| ==>
              r.pending == RemoveAt(s.pending, e.request) && r.(pending := s.pending) == s
    ensures e.Tick? ==> r.(currentTime := s.currentTime) == s
    ensures r.nextTimer == s.nextTimer || (e.Response? && r.nextTimer == s.nextTimer + 1)
    ensures !e.Response? ==> r.live.Keys <= s.live.Keys
  {
    match e
    case Init => OnInit(s)
    case Select(code) => OnCountrySelect(s, code)
    case Response(i, records) => if i < |s.pending| then OnLookupResponse(s, i, records) else s
    case Failure(i) => if i < |s.pending| then OnLookupError(s, i) else s
    case Tick(id) => OnTick(s, id)
    case Destroy => OnDestroy(s)
  }

  /**
    A sequence of events, delivered one after the other. Handles are never
    reused, and without a response no interval starts.
   */
  function Run(s: State, events: seq<Event>): (r: State)
    ensures r.nextTimer >= s.nextTimer
    ensures (forall i :: 0 <= i < |events| ==> !events[i].Response?) ==>
              r.nextTimer == s.nextTimer && r.live.Keys <= s.live.Keys
    decreases |events|
  {
    if events == [] then s
    else
      var r := Run(Step(s, events[0]), events[1..]);
      assert forall i :: 0 <= i < |events| - 1 ==> events[1..][i] == events[i + 1];
      r
  }
}
