/**
 What the cockpit makes of audits: which it counts as applied and which as awaiting, in
 terms of their decisions and outcomes, over whole runs.
 */
module CockpitVerdicts {
  import opened JsText
  import opened Sequences
  import opened CockpitState
  import opened CockpitHistory

  // ---------------------------------------------------------------- one audit

  ghost predicate Contains(text: string, part: string) {
    exists before, after :: text == before + part + after
  }

  predicate Applied(f: Frame) {
    f.decision == "auto" || f.outcome == "executed"
  }

  ghost predicate AwaitsYou(f: Frame) {
    !Applied(f) && (f.decision == "hil" || Contains(f.outcome, "hil"))
  }

  /** What the feed says of an audit. */
  ghost predicate KindIs(kind: Kind, f: Frame) {
    && (kind.AutoApplied? <==> Applied(f))
    && (kind.Awaiting? <==> AwaitsYou(f))
    && (!Applied(f) && !AwaitsYou(f) ==>
          if "abstained" <= f.outcome then kind.SteppedBack? && (kind.atRouting <==> Contains(f.outcome, "routing"))
          else kind == Shown(f.outcome))
  }

  lemma {:induction false} IncludesAt(before: string, part: string, after: string)
    ensures Includes(before + part + after, part)
  {
    var text := before + part + after;
    assert text == before + (part + after);
    if before == "" {
      assert text[..|part|] == part;
    } else {
      IncludesAt(before[1..], part, after);
      assert text[1..] == before[1..] + part + after;
    }
  }

  lemma {:induction false} PartsOf(text: string, part: string) returns (before: string, after: string)
    requires Includes(text, part)
    ensures text == before + part + after
  {
    if StartsWith(text, part) {
      before, after := "", text[|part|..];
    } else {
      before, after := PartsOf(text[1..], part);
      before := [text[0]] + before;
      assert text == [text[0]] + text[1..];
    }
  }

  lemma IncludesIff(text: string, part: string)
    ensures Includes(text, part) <==> Contains(text, part)
  {
    hide Includes;
    if Includes(text, part) {
      var before, after := PartsOf(text, part);
    }
    forall before, after | text == before + part + after ensures Includes(text, part) {
      IncludesAt(before, part, after);
    }
  }

  lemma KindOfIs(f: Frame)
    ensures KindIs(KindOf(f), f)
  {
    hide Includes, Contains;
    IncludesIff(f.outcome, "hil");
    IncludesIff(f.outcome, "routing");
  }

  // ---------------------------------------------------------------- over a run

  /** The audits that are accepted: of an event that is not among the last 4096 accepted before. */
  function AcceptedAudits(accepted: seq<string>, frames: seq<Frame>): seq<Frame>
    decreases |frames|
  {
    if frames == [] then []
    else
      var f := frames[0];
      if Done(f, "audit") && f.eventId !in LastN(accepted, MAX_COMPLETED_EVENTS)
      then [f] + AcceptedAudits(accepted + [f.eventId], frames[1..])
      else AcceptedAudits(accepted, frames[1..])
  }

  function CountAppliedAudits(audits: seq<Frame>): nat {
    if audits == [] then 0 else (if Applied(audits[0]) then 1 else 0) + CountAppliedAudits(audits[1..])
  }

  ghost function CountAwaitingAudits(audits: seq<Frame>): nat {
    if audits == [] then 0 else (if AwaitsYou(audits[0]) then 1 else 0) + CountAwaitingAudits(audits[1..])
  }

  /** One frame: an accepted audit is counted and reported as what it is, any other frame changes neither. */
  lemma OneFrame(s: State, f: Frame)
    ensures var accepts, t := Done(f, "audit") && f.eventId !in s.completed, Next(s, f);
            && t.completed == (if accepts then LastN(s.completed + [f.eventId], MAX_COMPLETED_EVENTS) else s.completed)
            && t.handled == s.handled + (if accepts then 1 else 0)
            && t.autoApplied == s.autoApplied + (if accepts && Applied(f) then 1 else 0)
            && t.awaitingYou == s.awaitingYou + (if accepts && AwaitsYou(f) then 1 else 0)
            && (Output(s, f).Some? <==> accepts)
            && (accepts ==> KindIs(Output(s, f).value.kind, f))
  {
    hide KindOf, KindIs, AwaitsYou, Applied, Push, CountResource, TrimOldest;
    KindOfIs(f);
    KindCounts(f);
  }

  lemma KindCounts(f: Frame)
    ensures (KindOf(f).AutoApplied? <==> Applied(f)) && (KindOf(f).Awaiting? <==> AwaitsYou(f))
  {
    hide KindOf, Applied, AwaitsYou;
    KindOfIs(f);
  }

  lemma {:induction false} RunCounts(s: State, accepted: seq<string>, frames: seq<Frame>)
    requires s.completed == LastN(accepted, MAX_COMPLETED_EVENTS)
    ensures var t, audits, items := Run(s, frames), AcceptedAudits(accepted, frames), Outputs(s, frames);
            && t.handled == s.handled + |audits|
            && t.autoApplied == s.autoApplied + CountAppliedAudits(audits)
            && t.awaitingYou == s.awaitingYou + CountAwaitingAudits(audits)
            && |items| == |audits|
            && forall k | 0 <= k < |items| :: KindIs(items[k].kind, audits[k])
    decreases |frames|
  {
    hide Next, Output, KindIs, AwaitsYou, Applied, LastN;
    if frames != [] {
      var f, rest := frames[0], frames[1..];
      OneFrame(s, f);
      LastNPush(accepted, f.eventId, MAX_COMPLETED_EVENTS);
      var accepts := Done(f, "audit") && f.eventId !in s.completed;
      RunCounts(Next(s, f), if accepts then accepted + [f.eventId] else accepted, rest);
      if accepts {
        var audits := AcceptedAudits(accepted + [f.eventId], rest);
        assert AcceptedAudits(accepted, frames) == [f] + audits && ([f] + audits)[1..] == audits;
      }
    }
  }

  /**
   After any run: `handled`, `autoApplied` and `awaitingYou` are the numbers of accepted
   audits, of those decided or executed automatically, and of those left to a person; and
   each activity reported says of its audit what the audit's decision and outcome say.
   */
  lemma {:induction false} AuditsAreCounted(frames: seq<Frame>)
    ensures var t, audits, items := Run(Initial, frames), AcceptedAudits([], frames), Outputs(Initial, frames);
            && t.handled == |audits|
            && t.autoApplied == CountAppliedAudits(audits)
            && t.awaitingYou == CountAwaitingAudits(audits)
            && |items| == |audits|
            && forall k | 0 <= k < |items| :: KindIs(items[k].kind, audits[k])
  {
    RunCounts(Initial, [], frames);
  }

  lemma {:induction false} RunSnoc(s: State, frames: seq<Frame>, f: Frame)
    ensures Run(s, frames + [f]) == Next(Run(s, frames), f)
    decreases |frames|
  {
    hide Next;
    if frames == [] {
      assert [] + [f] == [f] && [f][1..] == [];
    } else {
      assert (frames + [f])[0] == frames[0] && (frames + [f])[1..] == frames[1..] + [f];
      RunSnoc(Next(s, frames[0]), frames[1..], f);
    }
  }

  /** The cockpit's own counters after any frames. */
  method Drive(frames: seq<Frame>) returns (cockpit: Cockpit)
    ensures cockpit.Abstract() == Run(Initial, frames)
    ensures var audits := AcceptedAudits([], frames);
            && cockpit.handled == |audits|
            && cockpit.autoApplied == CountAppliedAudits(audits)
            && cockpit.awaitingYou == CountAwaitingAudits(audits)
  {
    hide Next, Output;
    cockpit := new Cockpit();
    assert frames[..0] == [];
    for k := 0 to |frames|
      invariant fresh(cockpit)
      invariant cockpit.Abstract() == Run(Initial, frames[..k])
    {
      assert frames[..k + 1] == frames[..k] + [frames[k]];
      RunSnoc(Initial, frames[..k], frames[k]);
      var item := cockpit.ReduceStageFrame(frames[k]);
    }
    assert frames[..|frames|] == frames;
    AuditsAreCounted(frames);
  }
}
