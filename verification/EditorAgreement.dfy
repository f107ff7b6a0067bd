/** Both editors, fed the same keys and answers, are in the same state after each of them. */
module EditorAgreement {
  import opened LineEditor
  import opened EditorLaws
  import C = CockpitEditing
  import R = ReplEditing

  lemma RunNext(events: seq<Event>, k: nat)
    requires k < |events|
    ensures Run(Fresh, events[..k + 1]) == Step(Run(Fresh, events[..k]), events[k])
  {
    hide Step;
    assert events[..k + 1] == events[..k] + [events[k]];
    RunAppend(Fresh, events[..k], [events[k]]);
    assert [events[k]][1..] == [];
  }

  /** One loop drives both; what they hold at the end is the line editor's run, and safe. */
  method Drive(events: seq<Event>) returns (cockpit: C.CockpitEditor, repl: R.ReplEditor)
    ensures cockpit.Valid() && repl.Valid()
    ensures cockpit.Abstract() == repl.Abstract() == Run(Fresh, events)
    ensures Safe(cockpit.Abstract())
  {
    hide Step, Run, Safe;
    cockpit := new C.CockpitEditor();
    repl := new R.ReplEditor();
    assert Run(Fresh, events[..0]) == Fresh by { RunNothing(events); }
    for k := 0 to |events|
      invariant fresh(cockpit) && fresh(repl)
      invariant cockpit.Valid() && repl.Valid()
      invariant cockpit.Abstract() == repl.Abstract() == Run(Fresh, events[..k])
    {
      RunNext(events, k);
      match events[k]
      case Key(data) =>
        cockpit.OnData(data);
        repl.OnData(data);
      case Answered(reply) =>
        cockpit.OnAnswer(reply);
        repl.OnAnswer(reply);
    }
    assert events[..|events|] == events;
    FreshIsSafe();
    RunKeepsSafe(Fresh, events);
  }

  lemma RunNothing(events: seq<Event>)
    ensures Run(Fresh, events[..0]) == Fresh
  {
  }

  lemma FreshIsSafe()
    ensures Safe(Fresh)
  {
  }
}
