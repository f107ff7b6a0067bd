/** The spark line over whole runs of stage frames and one-second ticks. */
module CockpitSpark {
  import opened Sequences
  import opened CockpitState

  datatype Event = Arrive(frame: Frame) | Tick

  /** The state after the frames of a run, and what `handled` was at each of its ticks. */
  function StateAfter(s: State, events: seq<Event>): State
    decreases |events|
  {
    if events == [] then s
    else StateAfter(match events[0] case Arrive(f) => Next(s, f) case Tick => s, events[1..])
  }

  function Readings(s: State, events: seq<Event>): seq<nat>
    decreases |events|
  {
    if events == [] then []
    else
      match events[0]
      case Arrive(f) => Readings(Next(s, f), events[1..])
      case Tick => [s.handled] + Readings(s, events[1..])
  }

  /** The k-th reading, counted from one; before the first tick nothing has been handled. */
  function At(readings: seq<nat>, k: nat): nat
    requires k <= |readings|
  {
    if k == 0 then 0 else readings[k - 1]
  }

  /** How many events were handled between one tick and the next. */
  function Differences(readings: seq<nat>): (r: seq<int>)
    ensures |r| == |readings|
  {
    seq(|readings|, k requires 0 <= k < |readings| => At(readings, k + 1) - At(readings, k))
  }

  function Sum(xs: seq<int>): int {
    if xs == [] then 0 else xs[0] + Sum(xs[1..])
  }

  lemma {:induction false} EventsSnoc(s: State, events: seq<Event>, e: Event)
    ensures StateAfter(s, events + [e]) == match e case Arrive(f) => Next(StateAfter(s, events), f) case Tick => StateAfter(s, events)
    ensures Readings(s, events + [e])
            == Readings(s, events) + match e case Arrive(_) => [] case Tick => [StateAfter(s, events).handled]
    decreases |events|
  {
    hide Next;
    if events == [] {
      assert [] + [e] == [e] && [e][1..] == [];
    } else {
      assert (events + [e])[0] == events[0] && (events + [e])[1..] == events[1..] + [e];
      EventsSnoc(match events[0] case Arrive(f) => Next(s, f) case Tick => s, events[1..], e);
      if events[0].Tick? {
        var rest := Readings(s, events[1..]);
        var last := match e case Arrive(_) => [] case Tick => [StateAfter(s, events).handled];
        assert ([s.handled] + rest) + last == [s.handled] + (rest + last);
      }
    }
  }

  lemma DifferencesSnoc(readings: seq<nat>, reading: nat)
    ensures Differences(readings + [reading]) == Differences(readings) + [reading - At(readings, |readings|)]
  {
    var longer := readings + [reading];
    forall k | 0 <= k <= |readings| ensures At(longer, k) == At(readings, k) {
    }
    assert At(longer, |longer|) == reading;
  }

  /** What the last readings differ by, all together, is what was handled since the one before them. */
  lemma {:induction false} WindowSum(readings: seq<nat>, from: nat)
    requires from <= |readings|
    ensures Sum(Differences(readings)[from..]) == At(readings, |readings|) - At(readings, from)
    decreases |readings| - from
  {
    if from < |readings| {
      WindowSum(readings, from + 1);
      var rest := Differences(readings)[from..];
      assert rest[0] == At(readings, from + 1) - At(readings, from) && rest[1..] == Differences(readings)[from + 1..];
    }
  }

  /**
   After any run of frames and ticks the spark line is the last 60 differences between the
   readings at the ticks, and its bars add up to what was handled over that window.
   */
  method Drive(events: seq<Event>) returns (cockpit: Cockpit)
    ensures cockpit.Abstract() == StateAfter(Initial, events)
    ensures var readings := Readings(Initial, events);
            && cockpit.spark == LastN(Differences(readings), 60)
            && cockpit.handledAtLastTick == At(readings, |readings|)
            && Sum(cockpit.spark) == At(readings, |readings|) - At(readings, |readings| - |cockpit.spark|)
  {
    hide Next, StateAfter, Readings, Sum, Differences, Output;
    cockpit := new Cockpit();
    assert events[..0] == [];
    NothingYet();
    for k := 0 to |events|
      invariant fresh(cockpit)
      invariant cockpit.Abstract() == StateAfter(Initial, events[..k])
      invariant cockpit.spark == LastN(Differences(Readings(Initial, events[..k])), MAX_SPARK)
      invariant cockpit.handledAtLastTick == At(Readings(Initial, events[..k]), |Readings(Initial, events[..k])|)
    {
      ghost var readings := Readings(Initial, events[..k]);
      assert events[..k + 1] == events[..k] + [events[k]];
      EventsSnoc(Initial, events[..k], events[k]);
      match events[k]
      case Arrive(frame) =>
        assert readings + [] == readings;
        var item := cockpit.ReduceStageFrame(frame);
      case Tick =>
        DifferencesSnoc(readings, cockpit.handled);
        LastNPush(Differences(readings), cockpit.handled - cockpit.handledAtLastTick, MAX_SPARK);
        cockpit.SparkTick();
    }
    assert events[..|events|] == events;
    ghost var readings := Readings(Initial, events);
    WindowSum(readings, |readings| - |cockpit.spark|);
  }

  lemma NothingYet()
    ensures StateAfter(Initial, []) == Initial && Readings(Initial, []) == [] && Differences([]) == []
  {
  }
}
