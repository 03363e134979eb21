/** The two limits that keep the NF-e collector within the published quota of the service: eight concurrent
    requests, granted first come first served, and request starts at least 125 ms apart. */
module RequestLimits {

  const MAX_CONCURRENT_REQUESTS: nat := 8
  const REQUEST_START_GAP_MS: int := 125

  // Request slots. Callers are numbered in order of arrival.

  datatype Slots = Slots(active: int, waiters: seq<nat>, granted: seq<nat>, released: set<nat>) {

    /** Everyone who asked for a slot, in order of arrival. */
    function Arrivals(): seq<nat> {
      granted + waiters
    }
  }

  datatype SlotCall = Acquire | Release(caller: nat)

  function AcquireSlot(s: Slots, caller: nat): Slots {
    if s.active >= MAX_CONCURRENT_REQUESTS
    then s.(waiters := s.waiters + [caller])
    else s.(active := s.active + 1, granted := s.granted + [caller])
  }

  /** A caller's release function: it works once, and only exists once the slot was granted. */
  function ReleaseSlot(s: Slots, caller: nat): Slots {
    if caller !in s.granted || caller in s.released then s
    else
      var t := s.(released := s.released + {caller});
      if s.waiters != [] then t.(waiters := s.waiters[1..], granted := s.granted + [s.waiters[0]])
      else t.(active := if s.active > 0 then s.active - 1 else 0)
  }

  function SlotStep(s: Slots, c: SlotCall): Slots {
    match c
    case Acquire => AcquireSlot(s, |s.Arrivals()|)
    case Release(caller) => ReleaseSlot(s, caller)
  }

  function SlotRun(s: Slots, calls: seq<SlotCall>): Slots
    decreases |calls|
  {
    if calls == [] then s else SlotRun(SlotStep(s, calls[0]), calls[1..])
  }

  /** Callers are granted in order of arrival, the counter is the number of unreleased grants, and nobody waits while a
      slot is free. */
  ghost predicate GoodSlots(s: Slots) {
    && (forall i | 0 <= i < |s.Arrivals()| :: s.Arrivals()[i] == i)
    && (forall c | c in s.released :: c < |s.granted|)
    && s.active + |s.released| == |s.granted|
    && s.active <= MAX_CONCURRENT_REQUESTS
    && (s.waiters != [] ==> s.active == MAX_CONCURRENT_REQUESTS)
  }

  lemma AcquireKeepsGood(s: Slots)
    requires GoodSlots(s)
    ensures var t := AcquireSlot(s, |s.Arrivals()|);
            GoodSlots(t) && s.granted <= t.granted && s.Arrivals() <= t.Arrivals()
  {
    var t := AcquireSlot(s, |s.Arrivals()|);
    assert s.active < MAX_CONCURRENT_REQUESTS ==> s.waiters == [];
    assert t.Arrivals() == s.Arrivals() + [|s.Arrivals()|];
  }

  lemma ReleaseKeepsGood(s: Slots, caller: nat)
    requires GoodSlots(s)
    ensures var t := ReleaseSlot(s, caller);
            GoodSlots(t) && s.granted <= t.granted && s.Arrivals() <= t.Arrivals()
  {
    var t := ReleaseSlot(s, caller);
    if caller in s.granted && caller !in s.released {
      var i :| 0 <= i < |s.granted| && s.granted[i] == caller;
      assert s.Arrivals()[i] == i == caller;
      if s.waiters != [] {
        assert t.Arrivals() == s.Arrivals();
      } else {
        FewerReleasedThanGranted(s.released, caller, |s.granted|);
      }
    }
  }

  lemma SlotStepKeepsGood(s: Slots, c: SlotCall)
    requires GoodSlots(s)
    ensures GoodSlots(SlotStep(s, c))
    ensures s.granted <= SlotStep(s, c).granted && s.Arrivals() <= SlotStep(s, c).Arrivals()
  {
    hide GoodSlots, AcquireSlot, ReleaseSlot;
    match c
    case Acquire => AcquireKeepsGood(s);
    case Release(caller) => ReleaseKeepsGood(s, caller);
  }

  lemma {:induction false} BoundedSetIsSmall(xs: set<nat>, bound: nat)
    requires forall x | x in xs :: x < bound
    ensures |xs| <= bound
    decreases bound
  {
    if bound == 0 {
      assert xs == {};
    } else {
      BoundedSetIsSmall(xs - {bound - 1}, bound - 1);
    }
  }

  lemma FewerReleasedThanGranted(released: set<nat>, caller: nat, granted: nat)
    requires (forall c | c in released :: c < granted) && caller < granted && caller !in released
    ensures |released| < granted
  {
    BoundedSetIsSmall(released + {caller}, granted);
  }

  /** Over any sequence of acquires and releases, repeated releases included. */
  lemma {:induction false} SlotsStayGood(s: Slots, calls: seq<SlotCall>)
    requires GoodSlots(s)
    ensures GoodSlots(SlotRun(s, calls))
    ensures s.granted <= SlotRun(s, calls).granted
    decreases |calls|
  {
    if calls != [] {
      SlotStepKeepsGood(s, calls[0]);
      SlotsStayGood(SlotStep(s, calls[0]), calls[1..]);
    }
  }

  /** The lower clamp on the counter never takes effect: a first release with nobody waiting frees exactly one slot. */
  lemma ClampNeverActs(s: Slots, caller: nat)
    requires GoodSlots(s) && caller in s.granted && caller !in s.released && s.waiters == []
    ensures ReleaseSlot(s, caller).active == s.active - 1
  {
    var i :| 0 <= i < |s.granted| && s.granted[i] == caller;
    assert s.Arrivals()[i] == i;
    FewerReleasedThanGranted(s.released, caller, |s.granted|);
  }

  /** An acquire is granted at once exactly while fewer than eight grants are unreleased, and waits at the end
      otherwise; a first release hands the slot to the first who waits, or frees it if nobody does; any other release
      does nothing. */
  lemma SlotsMean(s: Slots, caller: nat)
    requires GoodSlots(s)
    ensures |s.granted| - |s.released| <= 8
    ensures var t, arrival := SlotStep(s, Acquire), |s.Arrivals()|;
            && t.released == s.released && t.Arrivals() == s.Arrivals() + [arrival]
            && (|s.granted| - |s.released| < 8 ==> t.granted == s.granted + [arrival] && t.waiters == [])
            && (|s.granted| - |s.released| == 8 ==> t.granted == s.granted && t.waiters == s.waiters + [arrival])
    ensures var t := SlotStep(s, Release(caller));
            if caller in s.granted && caller !in s.released
            then && t.released == s.released + {caller} && t.Arrivals() == s.Arrivals()
                 && (if s.waiters != []
                     then t.granted == s.granted + [s.waiters[0]] && t.active == s.active
                     else t.granted == s.granted && t.active == s.active - 1)
            else t == s
  {
    if s.waiters != [] {
      assert s.granted + [s.waiters[0]] + s.waiters[1..] == s.granted + s.waiters;
    } else if caller in s.granted && caller !in s.released {
      ClampNeverActs(s, caller);
    }
    assert s.active < 8 ==> s.granted + [|s.Arrivals()|] + [] == s.Arrivals() + [|s.Arrivals()|];
  }

  class RequestSlots {
    var activeRequests: int
    var waiters: seq<nat>
    var released: set<nat>
    ghost var granted: seq<nat>

    ghost function State(): Slots
      reads this
    {
      Slots(activeRequests, waiters, granted, released)
    }

    constructor ()
      ensures State() == Slots(0, [], [], {}) && GoodSlots(State())
    {
      activeRequests, waiters, released, granted := 0, [], {}, [];
    }

    method AcquireRequestSlot(caller: nat) returns (immediate: bool)
      requires GoodSlots(State()) && caller == |State().Arrivals()|
      modifies this
      ensures State() == AcquireSlot(old(State()), caller) && GoodSlots(State())
      ensures immediate <==> caller in granted
    {
      SlotStepKeepsGood(State(), Acquire);
      assert caller !in granted by {
        assert forall i | 0 <= i < |granted| :: State().Arrivals()[i] == granted[i];
      }
      if activeRequests >= MAX_CONCURRENT_REQUESTS {
        waiters := waiters + [caller];
        return false;
      }
      activeRequests := activeRequests + 1;
      granted := granted + [caller];
      immediate := true;
    }

    method ReleaseRequestSlot(caller: nat)
      requires GoodSlots(State()) && caller in granted
      modifies this
      ensures State() == ReleaseSlot(old(State()), caller) && GoodSlots(State())
    {
      SlotStepKeepsGood(State(), Release(caller));
      if caller in released {
        return;
      }
      released := released + {caller};
      if waiters != [] {
        granted := granted + [waiters[0]];
        waiters := waiters[1..];
      } else {
        activeRequests := if activeRequests > 0 then activeRequests - 1 else 0;
      }
    }
  }

  // Request starts

  /** `queue` holds the callers whose turn has not come; `started` those who started, with their start times. */
  datatype Starts = Starts(last: int, queue: seq<nat>, started: seq<nat>, times: seq<int>) {
    function Arrivals(): seq<nat> {
      started + queue
    }
  }

  /** A caller joins the queue, or the first one reads the clock at `now` and again after its timer, at `fired`. */
  datatype StartEvent = Join | Start(now: int, fired: int)

  function Wait(last: int, now: int): int {
    if REQUEST_START_GAP_MS - (now - last) > 0 then REQUEST_START_GAP_MS - (now - last) else 0
  }

  /** The wait ends 125 ms after the last start, or at once if that has passed. */
  lemma WaitMeans(last: int, now: int)
    ensures now + Wait(last, now) == if now < last + 125 then last + 125 else now
  {
  }

  /** Timers never fire early and the clock never goes back. */
  predicate StartPossible(s: Starts, e: StartEvent) {
    e.Start? ==> s.queue != [] && s.last <= e.now && e.now + Wait(s.last, e.now) <= e.fired
  }

  function StartStep(s: Starts, e: StartEvent): Starts
    requires StartPossible(s, e)
  {
    match e
    case Join => s.(queue := s.queue + [|s.Arrivals()|])
    case Start(now, fired) =>
      Starts(fired, s.queue[1..], s.started + [s.queue[0]], s.times + [fired])
  }

  ghost predicate StartRun(s: Starts, events: seq<StartEvent>, t: Starts)
    decreases |events|
  {
    if events == [] then s == t
    else StartPossible(s, events[0]) && StartRun(StartStep(s, events[0]), events[1..], t)
  }

  predicate Spaced(times: seq<int>) {
    forall i | 0 < i < |times| :: times[i] - times[i - 1] >= REQUEST_START_GAP_MS
  }

  ghost predicate GoodStarts(s: Starts) {
    && (forall i | 0 <= i < |s.Arrivals()| :: s.Arrivals()[i] == i)
    && |s.started| == |s.times|
    && Spaced(s.times)
    && (s.times != [] ==> s.last == s.times[|s.times| - 1])
  }

  lemma StartStepKeepsGood(s: Starts, e: StartEvent)
    requires GoodStarts(s) && StartPossible(s, e)
    ensures GoodStarts(StartStep(s, e))
  {
    var t := StartStep(s, e);
    match e
    case Join => assert t.Arrivals() == s.Arrivals() + [|s.Arrivals()|];
    case Start(_, _) => assert t.Arrivals() == s.Arrivals();
  }

  lemma {:induction false} StartsStayGood(s: Starts, events: seq<StartEvent>, t: Starts)
    requires GoodStarts(s) && StartRun(s, events, t)
    ensures GoodStarts(t)
    decreases |events|
  {
    if events != [] {
      StartStepKeepsGood(s, events[0]);
      StartsStayGood(StartStep(s, events[0]), events[1..], t);
    }
  }

  lemma {:induction false} SpacedFarApart(times: seq<int>, i: nat, j: nat)
    requires Spaced(times) && i <= j < |times|
    ensures times[j] - times[i] >= REQUEST_START_GAP_MS * (j - i)
    decreases j - i
  {
    if i < j {
      SpacedFarApart(times, i, j - 1);
    }
  }

  ghost function InWindow(times: seq<int>, from: int, width: nat): set<nat> {
    set i: nat | i < |times| && from <= times[i] < from + width
  }

  function CeilDiv(n: nat, d: nat): nat
    requires d > 0
  {
    (n + d - 1) / d
  }

  /** Any half-open window of `width` milliseconds contains at most ceil(width / 125) starts. */
  lemma WindowIsBounded(times: seq<int>, from: int, width: nat)
    requires Spaced(times)
    ensures |InWindow(times, from, width)| <= CeilDiv(width, REQUEST_START_GAP_MS)
  {
    var window := InWindow(times, from, width);
    if window != {} {
      var first := LeastIndex(window);
      var bound := CeilDiv(width, REQUEST_START_GAP_MS);
      forall i | i in window ensures first <= i < first + bound {
        SpacedFarApart(times, first, i);
        assert REQUEST_START_GAP_MS * (i - first) < width;
      }
      ShiftKeepsSize(window, first);
      BoundedSetIsSmall(Shifted(window, first), bound);
    }
  }

  lemma {:induction false} LeastIndex(xs: set<nat>) returns (m: nat)
    requires xs != {}
    ensures m in xs && forall x | x in xs :: m <= x
    decreases |xs|
  {
    m :| m in xs;
    if xs != {m} {
      assert xs == (xs - {m}) + {m};
      var least := LeastIndex(xs - {m});
      m := if least < m then least else m;
    }
  }

  ghost function Shifted(xs: set<nat>, offset: nat): set<nat>
    requires forall x | x in xs :: offset <= x
  {
    set x | x in xs :: x - offset
  }

  lemma {:induction false} ShiftKeepsSize(xs: set<nat>, offset: nat)
    requires forall x | x in xs :: offset <= x
    ensures |Shifted(xs, offset)| == |xs|
    decreases |xs|
  {
    if xs != {} {
      var x :| x in xs;
      var rest := xs - {x};
      ShiftKeepsSize(rest, offset);
      assert xs == rest + {x};
      assert Shifted(xs, offset) == Shifted(rest, offset) + {x - offset};
      assert x - offset !in Shifted(rest, offset);
    }
  }

  /** Over any run: service in order of arrival, starts at least 125 ms apart, at most eight in any second. */
  lemma StartRateIsBounded(s: Starts, events: seq<StartEvent>, t: Starts, from: int, width: nat)
    requires s == Starts(0, [], [], []) && StartRun(s, events, t)
    ensures forall i | 0 <= i < |t.started| :: t.started[i] == i
    ensures |t.times| == |t.started| && Spaced(t.times)
    ensures forall i | 0 < i < |t.times| :: t.times[i] - t.times[i - 1] >= 125
    ensures |InWindow(t.times, from, width)| <= CeilDiv(width, REQUEST_START_GAP_MS)
    ensures |InWindow(t.times, from, 1000)| <= 8
  {
    StartsStayGood(s, events, t);
    assert forall i | 0 <= i < |t.started| :: t.Arrivals()[i] == t.started[i];
    WindowIsBounded(t.times, from, width);
    WindowIsBounded(t.times, from, 1000);
  }

  class RequestStartQueue {
    var lastRequestStartedAt: int
    var queue: seq<nat>
    ghost var started: seq<nat>
    ghost var times: seq<int>

    ghost function State(): Starts
      reads this
    {
      Starts(lastRequestStartedAt, queue, started, times)
    }

    constructor ()
      ensures State() == Starts(0, [], [], [])
    {
      lastRequestStartedAt, queue, started, times := 0, [], [], [];
    }

    method Enqueue(caller: nat)
      requires GoodStarts(State()) && caller == |State().Arrivals()|
      modifies this
      ensures State() == StartStep(old(State()), Join) && GoodStarts(State())
    {
      StartStepKeepsGood(State(), Join);
      queue := queue + [caller];
    }

    /** The first caller in the queue starts; `fired` is the clock after the wait computed from `now`. */
    method StartFirst(now: int, fired: int) returns (caller: nat)
      requires GoodStarts(State()) && StartPossible(State(), Start(now, fired))
      modifies this
      ensures State() == StartStep(old(State()), Start(now, fired)) && GoodStarts(State())
      ensures caller == old(queue)[0]
      ensures (old(times) != [] ==> fired - old(lastRequestStartedAt) >= REQUEST_START_GAP_MS)
    {
      StartStepKeepsGood(State(), Start(now, fired));
      caller := queue[0];
      queue := queue[1..];
      lastRequestStartedAt := fired;
      started := started + [caller];
      times := times + [fired];
    }
  }
}
