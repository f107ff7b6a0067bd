/**
 The reducer over whole runs: the bounded completed set against exact deduplication, and
 the counters and the feed against everything that was ever accepted.
 */
module CockpitHistory {
  import opened Wrappers
  import opened Sequences
  import opened CockpitState

  /** The frame reports that a stage is done. */
  predicate Done(f: Frame, stage: string) {
    f.stage == stage && f.phase == "done"
  }

  function Run(s: State, frames: seq<Frame>): State
    decreases |frames|
  {
    if frames == [] then s else Run(Next(s, frames[0]), frames[1..])
  }

  /** The activities reported along a run. */
  function Outputs(s: State, frames: seq<Frame>): seq<Activity>
    decreases |frames|
  {
    if frames == [] then []
    else
      (match Output(s, frames[0]) case Some(a) => [a] case None => [])
      + Outputs(Next(s, frames[0]), frames[1..])
  }

  // ---------------------------------------------------------------- deduplication

  /**
   Acceptance by history alone: an audited event is accepted unless it is among the last
   4096 accepted ones.
   */
  function AcceptFrom(accepted: seq<string>, frames: seq<Frame>): seq<string>
    decreases |frames|
  {
    if frames == [] then accepted
    else
      var id := frames[0].eventId;
      AcceptFrom(
        if Done(frames[0], "audit") && id !in LastN(accepted, MAX_COMPLETED_EVENTS) then accepted + [id] else accepted,
        frames[1..])
  }

  /** The completed set is always the last 4096 accepted ids in order, and `handled` counts all of them. */
  lemma {:induction false} CompletedIsWindow(s: State, accepted: seq<string>, frames: seq<Frame>)
    requires s.completed == LastN(accepted, MAX_COMPLETED_EVENTS) && s.handled == |accepted|
    ensures Run(s, frames).completed == LastN(AcceptFrom(accepted, frames), MAX_COMPLETED_EVENTS)
    ensures Run(s, frames).handled == |AcceptFrom(accepted, frames)|
    decreases |frames|
  {
    if frames != [] {
      var f := frames[0];
      LastNPush(accepted, f.eventId, MAX_COMPLETED_EVENTS);
      CompletedIsWindow(
        Next(s, f),
        if Done(f, "audit") && f.eventId !in LastN(accepted, MAX_COMPLETED_EVENTS) then accepted + [f.eventId] else accepted,
        frames[1..]);
    }
  }

  /** Two acceptances of one id have at least 4096 others between them. */
  ghost predicate WellSpaced(accepted: seq<string>) {
    forall i, j :: 0 <= i < j < |accepted| && accepted[i] == accepted[j] ==> j - i > MAX_COMPLETED_EVENTS
  }

  lemma {:induction false} AcceptancesAreSpaced(accepted: seq<string>, frames: seq<Frame>)
    requires WellSpaced(accepted)
    ensures WellSpaced(AcceptFrom(accepted, frames))
    decreases |frames|
  {
    if frames != [] {
      var id := frames[0].eventId;
      var longer := if Done(frames[0], "audit") && id !in LastN(accepted, MAX_COMPLETED_EVENTS) then accepted + [id] else accepted;
      var window := LastN(accepted, MAX_COMPLETED_EVENTS);
      forall i | 0 <= i < |accepted| && i >= |accepted| - MAX_COMPLETED_EVENTS ensures accepted[i] in window {
        assert window[i - (|accepted| - |window|)] == accepted[i];
      }
      assert WellSpaced(longer);
      AcceptancesAreSpaced(longer, frames[1..]);
    }
  }

  ghost function AuditedIds(frames: seq<Frame>): set<string> {
    set f | f in frames && Done(f, "audit") :: f.eventId
  }

  /** Every audited id is accepted at least once, and nothing else is. */
  lemma {:induction false} AcceptedAreAudited(accepted: seq<string>, frames: seq<Frame>)
    ensures Elements(AcceptFrom(accepted, frames)) == Elements(accepted) + AuditedIds(frames)
    decreases |frames|
  {
    if frames == [] {
      assert AuditedIds(frames) == {};
    } else {
      var f, rest := frames[0], frames[1..];
      var longer := if Done(f, "audit") && f.eventId !in LastN(accepted, MAX_COMPLETED_EVENTS) then accepted + [f.eventId] else accepted;
      AcceptedAreAudited(longer, rest);
      assert AuditedIds(frames) == AuditedIds(rest) + if Done(f, "audit") then {f.eventId} else {};
      assert Elements(accepted + [f.eventId]) == Elements(accepted) + {f.eventId};
    }
  }

  /** A spaced sequence that repeats an element has more than 4096 distinct ones. */
  lemma RepeatNeedsManyIds(accepted: seq<string>, i: nat, j: nat)
    requires WellSpaced(accepted) && i < j < |accepted| && accepted[i] == accepted[j]
    ensures |Elements(accepted)| > MAX_COMPLETED_EVENTS
  {
    var window := accepted[i..i + MAX_COMPLETED_EVENTS + 1];
    assert Distinct(window);
    DistinctSize(window);
    SubsetSize(Elements(window), Elements(accepted));
  }

  /** With at most 4096 distinct audited ids, `handled` is exactly their number, however often each is audited. */
  lemma {:induction false} ExactWithinWindow(frames: seq<Frame>)
    requires |AuditedIds(frames)| <= 4096
    ensures Run(Initial, frames).handled == |AuditedIds(frames)|
  {
    var accepted := AcceptFrom([], frames);
    CompletedIsWindow(Initial, [], frames);
    AcceptancesAreSpaced([], frames);
    AcceptedAreAudited([], frames);
    assert Elements<string>([]) == {};
    forall i, j | 0 <= i < j < |accepted| ensures accepted[i] != accepted[j] {
      if accepted[i] == accepted[j] {
        RepeatNeedsManyIds(accepted, i, j);
      }
    }
    DistinctSize(accepted);
  }

  function AuditFrame(id: string): Frame {
    Frame(id, "audit", "done", "abstain", "", None, "", "")
  }

  function AuditFrames(ids: seq<string>): seq<Frame> {
    if ids == [] then [] else [AuditFrame(ids[0])] + AuditFrames(ids[1..])
  }

  lemma NextIsFresh(accepted: seq<string>, ids: seq<string>)
    requires Distinct(accepted + ids) && ids != []
    ensures ids[0] !in LastN(accepted, MAX_COMPLETED_EVENTS)
  {
    forall k | 0 <= k < |accepted| ensures accepted[k] != ids[0] {
      assert (accepted + ids)[k] != (accepted + ids)[|accepted|];
    }
  }

  lemma Moved(accepted: seq<string>, id: string, rest: seq<string>, ids: seq<string>)
    requires ids == [id] + rest
    ensures (accepted + [id]) + rest == accepted + ids
  {
  }

  lemma AcceptsFresh(accepted: seq<string>, frames: seq<Frame>, id: string)
    requires frames != [] && frames[0] == AuditFrame(id) && id !in LastN(accepted, MAX_COMPLETED_EVENTS)
    ensures AcceptFrom(accepted, frames) == AcceptFrom(accepted + [id], frames[1..])
  {
  }

  lemma AuditFramesStep(ids: seq<string>, more: seq<Frame>)
    requires ids != []
    ensures var frames := AuditFrames(ids) + more;
            frames[0] == AuditFrame(ids[0]) && frames[1..] == AuditFrames(ids[1..]) + more
  {
    hide AuditFrame;
    Grouped(AuditFrame(ids[0]), AuditFrames(ids[1..]), more);
  }

  lemma Grouped<T>(x: T, a: seq<T>, b: seq<T>)
    ensures ([x] + a + b)[0] == x && ([x] + a + b)[1..] == a + b
  {
    assert [x] + a + b == [x] + (a + b);
  }

  lemma {:induction false} FreshAuditsAccepted(accepted: seq<string>, ids: seq<string>, more: seq<Frame>)
    requires Distinct(accepted + ids)
    ensures AcceptFrom(accepted, AuditFrames(ids) + more) == AcceptFrom(accepted + ids, more)
    decreases |ids|
  {
    hide LastN, AcceptFrom, Distinct, AuditFrame;
    if ids == [] {
      assert AuditFrames(ids) + more == more && accepted + ids == accepted;
    } else {
      hide AuditFrames;
      var id, rest := ids[0], ids[1..];
      AuditFramesStep(ids, more);
      Moved(accepted, id, rest, ids);
      NextIsFresh(accepted, ids);
      AcceptsFresh(accepted, AuditFrames(ids) + more, id);
      FreshAuditsAccepted(accepted + [id], rest, more);
    }
  }

  /** The bound is tight: after 4097 distinct audits, auditing the first id again counts it twice. */
  lemma {:induction false} WindowIsTight(ids: seq<string>)
    requires Distinct(ids) && |ids| == 4097
    ensures var frames := AuditFrames(ids) + [AuditFrame(ids[0])];
            && AuditedIds(frames) == Elements(ids)
            && Run(Initial, frames).handled == |Elements(ids)| + 1
  {
    hide Next;
    var again := [AuditFrame(ids[0])];
    var frames := AuditFrames(ids) + again;
    assert [] + ids == ids;
    FreshAuditsAccepted([], ids, again);
    CompletedIsWindow(Initial, [], frames);
    AcceptedAreAudited([], frames);
    assert again[1..] == [];
    var window := LastN(ids, MAX_COMPLETED_EVENTS);
    assert window == ids[1..];
    forall k | 0 <= k < |window| ensures window[k] != ids[0] {
      assert ids[k + 1] != ids[0];
    }
    assert AcceptFrom(ids, again) == ids + [ids[0]];
    DistinctSize(ids);
    assert Elements(ids + [ids[0]]) == Elements(ids);
    assert Elements<string>([]) == {};
  }
}
