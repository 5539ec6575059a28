/**
 The cursor over macro stages: stages pass in order, each on a claim and on evidence gathered since the previous pass.
 Which paths exist is given with each claim.
 */
module StageCursors {
  import opened Wrappers
  import opened Text

  datatype CheckKind = NoCheck | PathExists | ToolResultContains

  datatype Stage = Stage(name: string, artifact: string, check: CheckKind, needle: string)

  /** The value of a cursor. */
  datatype Cursor = Cursor(stages: seq<Stage>, index: nat, evidence: string, finished: bool)

  ghost predicate Consistent(c: Cursor)
  {
    c.index <= |c.stages| && (c.finished <==> c.stages != [] && c.index == |c.stages|)
  }

  function Named(configs: seq<Stage>): seq<Stage>
  {
    if configs == [] then []
    else (if Blank(configs[0].name) then [] else [configs[0]]) + Named(configs[1..])
  }

  function Begin(configs: seq<Stage>): (c: Cursor)
    ensures Consistent(c)
  {
    Cursor(Named(configs), 0, "", false)
  }

  function AddOutput(evidence: string, output: string): string
  {
    if evidence == "" then output else evidence + "\n" + output
  }

  function NoteOutput(c: Cursor, output: string): (d: Cursor)
    requires Consistent(c)
    ensures Consistent(d) && d.stages == c.stages && d.index == c.index
  {
    if c.stages == [] || c.finished then c else c.(evidence := AddOutput(c.evidence, output))
  }

  // ---------------------------------------------------------------- claims

  function ClaimPrefix(): string
  {
    "stage_done:"
  }

  /** The lines of a text; a carriage return before the line feed stays, and trimming removes it with other white space. */
  function Lines(text: string): seq<string>
    decreases |text|
  {
    if text == "" then []
    else
      var end := FindFirst(text, "\n");
      if end.None? then [text] else [text[..end.value]] + Lines(text[end.value + 1..])
  }

  function ClaimOf(line: string): Option<string>
  {
    var t := Trim(line);
    if !(ClaimPrefix() <= t) then None
    else
      var name := Trim(t[|ClaimPrefix()|..]);
      if name == "" then None else Some(name)
  }

  function Claims(lines: seq<string>): seq<string>
  {
    if lines == [] then []
    else
      var name := ClaimOf(lines[0]);
      (if name.Some? then [name.value] else []) + Claims(lines[1..])
  }

  function ClaimedStageNames(text: string): seq<string>
  {
    Claims(Lines(text))
  }

  ghost predicate CheckHolds(stage: Stage, evidence: string, existing: set<string>)
  {
    match stage.check
    case NoCheck => true
    case PathExists => !Blank(stage.artifact) && Trim(stage.artifact) in existing
    case ToolResultContains => !Blank(stage.needle) && Contains(evidence, Trim(stage.needle))
  }

  /** Nothing when the check holds, else what to tell the assistant. */
  function StageCheckObservation(stage: Stage, evidence: string, existing: set<string>): (r: Option<string>)
    ensures r.None? <==> CheckHolds(stage, evidence, existing)
  {
    match stage.check
    case NoCheck => None
    case PathExists =>
      var path := Trim(stage.artifact);
      if path == "" || path !in existing then
        Some("Observation: stage '" + Trim(stage.name) + "' still needs the artifact path to exist: " + path + ".")
      else None
    case ToolResultContains =>
      var needle := Trim(stage.needle);
      if needle == "" || FindFirst(evidence, needle).None? then
        Some("Observation: stage '" + Trim(stage.name) + "' still needs the tool result to contain '" + needle + "'.")
      else None
  }

  function ClaimObservation(c: Cursor, name: string, existing: set<string>): Option<string>
  {
    if c.index >= |c.stages| then None
    else
      var stage := c.stages[c.index];
      if name != Trim(stage.name) then
        Some("Observation: stage claim '" + name + "' does not match the current stage '" + Trim(stage.name)
             + "'. Stay on this stage.")
      else StageCheckObservation(stage, c.evidence, existing)
  }

  function Claimed(c: Cursor, name: string, existing: set<string>): (d: Cursor)
    requires Consistent(c)
    ensures Consistent(d) && d.stages == c.stages && c.index <= d.index
  {
    if c.index >= |c.stages| || ClaimObservation(c, name, existing).Some? then c
    else c.(index := c.index + 1, evidence := "", finished := c.index + 1 >= |c.stages|)
  }

  lemma RefusedStays(c: Cursor, name: string, existing: set<string>)
    requires Consistent(c)
    ensures ClaimObservation(c, name, existing).Some? ==> Claimed(c, name, existing) == c
  {
  }

  /** Claims are applied in order up to the first one that is refused. */
  function ClaimedAll(c: Cursor, names: seq<string>, existing: set<string>): (r: (Cursor, Option<string>))
    requires Consistent(c)
    ensures Consistent(r.0) && r.0.stages == c.stages && c.index <= r.0.index
    decreases |names|
  {
    if names == [] then (c, None)
    else
      var observation := ClaimObservation(c, names[0], existing);
      if observation.Some? then (c, observation)
      else ClaimedAll(Claimed(c, names[0], existing), names[1..], existing)
  }

  function NoteClaim(c: Cursor, text: string, existing: set<string>): (r: (Cursor, Option<string>))
    requires Consistent(c)
    ensures Consistent(r.0) && r.0.stages == c.stages && c.index <= r.0.index
  {
    if c.stages == [] || c.finished then (c, None) else ClaimedAll(c, ClaimedStageNames(text), existing)
  }

  function PointerLines(stages: seq<Stage>): string
  {
    if stages == [] then ""
    else
      var last := stages[|stages| - 1];
      PointerLines(stages[..|stages| - 1]) + "\n- " + Trim(last.name) + ": " + Trim(last.artifact)
  }

  function Pointer(c: Cursor): Option<string>
  {
    if c.finished then Some("[Stage artifacts]" + PointerLines(c.stages)) else None
  }

  // ---------------------------------------------------------------- the cursor as an object

  class StageCursor {
    var stages: seq<Stage>
    var index: nat
    var evidence: string
    var finished: bool

    ghost function View(): Cursor
      reads this
    {
      Cursor(stages, index, evidence, finished)
    }

    ghost predicate Valid()
      reads this
    {
      Consistent(View())
    }

    constructor FromConfigs(configs: seq<Stage>)
      ensures Valid() && View() == Begin(configs)
    {
      stages, index, evidence, finished := Named(configs), 0, "", false;
    }

    method NoteToolOutput(output: string)
      requires Valid()
      modifies this
      ensures Valid()
      ensures View() == NoteOutput(old(View()), output)
      ensures stages == old(stages) && index == old(index) && finished == old(finished)
      ensures evidence == if old(stages) == [] || old(finished) then old(evidence)
                          else if old(evidence) == "" then output else old(evidence) + "\n" + output
    {
      if stages == [] || finished {
        return;
      }
      if evidence != "" {
        evidence := evidence + "\n";
      }
      evidence := evidence + output;
    }

    method ApplyClaim(name: string, existing: set<string>) returns (observation: Option<string>)
      requires Valid()
      modifies this
      ensures Valid()
      ensures View() == Claimed(old(View()), name, existing)
      ensures observation == ClaimObservation(old(View()), name, existing)
    {
      hide StageCheckObservation, Trim;
      if index >= |stages| {
        return None;
      }
      var stage := stages[index];
      if name != Trim(stage.name) {
        return Some("Observation: stage claim '" + name + "' does not match the current stage '" + Trim(stage.name)
                    + "'. Stay on this stage.");
      }
      observation := StageCheckObservation(stage, evidence, existing);
      if observation.Some? {
        return;
      }
      index := index + 1;
      evidence := "";
      finished := index >= |stages|;
    }

    method NoteAssistantClaim(text: string, existing: set<string>) returns (observation: Option<string>)
      requires Valid()
      modifies this
      ensures Valid()
      ensures (View(), observation) == NoteClaim(old(View()), text, existing)
    {
      hide Claimed, ClaimObservation, ClaimedStageNames;
      if stages == [] || finished {
        return None;
      }
      var names := ClaimedStageNames(text);
      assert names[0..] == names;
      for i := 0 to |names|
        invariant Valid() && ClaimedAll(View(), names[i..], existing) == ClaimedAll(old(View()), names, existing)
      {
        assert names[i..][0] == names[i] && names[i..][1..] == names[i + 1..];
        RefusedStays(View(), names[i], existing);
        observation := ApplyClaim(names[i], existing);
        if observation.Some? {
          return;
        }
      }
      return None;
    }

    method PointerSuffix() returns (r: Option<string>)
      ensures r == Pointer(View())
    {
      hide Trim;
      if !finished {
        return None;
      }
      var out := "[Stage artifacts]";
      for i := 0 to |stages|
        invariant out == "[Stage artifacts]" + PointerLines(stages[..i])
      {
        assert stages[..i + 1][..i] == stages[..i];
        out := out + "\n- ";
        out := out + Trim(stages[i].name);
        out := out + ": ";
        out := out + Trim(stages[i].artifact);
      }
      assert stages[..|stages|] == stages;
      return Some(out);
    }
  }

  // ---------------------------------------------------------------- whole runs

  datatype Event = Output(text: string) | Claim(text: string, existing: set<string>)

  function Next(c: Cursor, e: Event): (d: Cursor)
    requires Consistent(c)
    ensures Consistent(d) && d.stages == c.stages && c.index <= d.index
  {
    match e
    case Output(text) => NoteOutput(c, text)
    case Claim(text, existing) => NoteClaim(c, text, existing).0
  }

  function Run(configs: seq<Stage>, events: seq<Event>): (c: Cursor)
    ensures Consistent(c) && c.stages == Named(configs)
  {
    if events == [] then Begin(configs) else Next(Run(configs, events[..|events| - 1]), events[|events| - 1])
  }

  /** Stage `i` may pass: it was claimed by name, and its check holds. */
  ghost predicate Deserves(stage: Stage, names: seq<string>, evidence: string, existing: set<string>)
  {
    Trim(stage.name) in names && CheckHolds(stage, evidence, existing)
  }

  lemma ClaimedExact(c: Cursor, name: string, existing: set<string>)
    requires Consistent(c)
    ensures var d := Claimed(c, name, existing);
            && (d == c || d.index == c.index + 1)
            && (d.index == c.index + 1 <==> c.index < |c.stages| && Deserves(c.stages[c.index], [name], c.evidence, existing))
            && (d.index == c.index + 1 ==> d.evidence == "")
  {
    hide Trim, CheckHolds, StageCheckObservation;
  }

  /** Stages `lo` to `hi` pass in one message: only the first can use the evidence gathered before it. */
  ghost predicate PassedTogether(stages: seq<Stage>, lo: nat, hi: nat, names: seq<string>, evidence: string, existing: set<string>)
  {
    lo <= hi <= |stages|
    && forall i :: lo <= i < hi ==> Deserves(stages[i], names, if i == lo then evidence else "", existing)
  }

  lemma {:induction false} ClaimedAllExact(c: Cursor, names: seq<string>, existing: set<string>)
    requires Consistent(c)
    ensures var d := ClaimedAll(c, names, existing).0;
            && PassedTogether(c.stages, c.index, d.index, names, c.evidence, existing)
            && d.evidence == if d.index == c.index then c.evidence else ""
    decreases |names|
  {
    hide Deserves, Claimed, ClaimObservation;
    if names != [] && ClaimObservation(c, names[0], existing).None? {
      var d := Claimed(c, names[0], existing);
      ClaimedExact(c, names[0], existing);
      ClaimedAllExact(d, names[1..], existing);
      var e := ClaimedAll(c, names, existing).0;
      forall i | c.index <= i < e.index
        ensures Deserves(c.stages[i], names, if i == c.index then c.evidence else "", existing)
      {
        if d == c || i > c.index {
          MoreNames(c.stages[i], names[1..], names, if i == c.index then c.evidence else "", existing);
        } else {
          MoreNames(c.stages[i], [names[0]], names, c.evidence, existing);
        }
      }
    }
  }

  lemma MoreNames(stage: Stage, some: seq<string>, all: seq<string>, evidence: string, existing: set<string>)
    requires forall x :: x in some ==> x in all
    ensures Deserves(stage, some, evidence, existing) ==> Deserves(stage, all, evidence, existing)
  {
    hide CheckHolds;
  }

  /** The outputs noted from event `a` up to event `b`, one below the other. */
  function Outputs(events: seq<Event>, a: nat, b: nat): string
    requires b <= |events|
    decreases b
  {
    if b <= a then ""
    else if events[b - 1].Output? then AddOutput(Outputs(events, a, b - 1), events[b - 1].text)
    else Outputs(events, a, b - 1)
  }

  lemma {:induction false} OutputsOfPrefix(events: seq<Event>, n: nat, a: nat, b: nat)
    requires b <= n <= |events|
    ensures Outputs(events[..n], a, b) == Outputs(events, a, b)
    decreases b
  {
    if b > a {
      OutputsOfPrefix(events, n, a, b - 1);
    }
  }

  function Repeated(n: nat, times: nat): (r: seq<nat>)
    ensures |r| == times && forall i :: 0 <= i < times ==> r[i] == n
  {
    seq(times, _ => n)
  }

  /** At which event each stage passed. */
  ghost function PassLog(configs: seq<Stage>, events: seq<Event>): seq<nat>
  {
    if events == [] then []
    else
      var n := |events| - 1;
      PassLog(configs, events[..n]) + Repeated(n, Run(configs, events).index - Run(configs, events[..n]).index)
  }

  /** The event behind the pass before stage `i`. */
  ghost function Since(log: seq<nat>, i: nat): nat
    requires i <= |log|
  {
    if i == 0 then 0 else log[i - 1] + 1
  }

  /** Stage `i` passed on a claim of its name, with a check that held on what was noted since the previous pass. */
  ghost predicate Earned(stages: seq<Stage>, events: seq<Event>, log: seq<nat>, i: nat)
  {
    i < |log| && i < |stages| && log[i] < |events| && events[log[i]].Claim?
    && (i > 0 ==> log[i - 1] <= log[i])
    && Deserves(stages[i], ClaimedStageNames(events[log[i]].text), Outputs(events, Since(log, i), log[i]), events[log[i]].existing)
  }

  ghost predicate Faithful(configs: seq<Stage>, events: seq<Event>)
  {
    var c, log := Run(configs, events), PassLog(configs, events);
    && |log| == c.index
    && (forall i :: 0 <= i < |log| ==> log[i] < |events|)
    && (c.stages != [] && !c.finished ==> c.evidence == Outputs(events, Since(log, |log|), |events|))
    && forall i :: 0 <= i < |log| ==> Earned(Named(configs), events, log, i)
  }

  lemma EarnedLater(stages: seq<Stage>, events: seq<Event>, n: nat, log: seq<nat>, more: seq<nat>, i: nat)
    requires n <= |events| && Earned(stages, events[..n], log, i)
    ensures Earned(stages, events, log + more, i)
  {
    hide Deserves, Outputs, ClaimedStageNames;
    assert (log + more)[i] == log[i];
    assert i > 0 ==> (log + more)[i - 1] == log[i - 1];
    OutputsOfPrefix(events, n, Since(log, i), log[i]);
  }

  lemma NoOutputs(events: seq<Event>, a: nat, b: nat)
    requires b <= |events| && b <= a
    ensures Outputs(events, a, b) == ""
  {
  }

  /** The log and the evidence tell the truth after every run. */
  lemma {:induction false} RunFaithful(configs: seq<Stage>, events: seq<Event>)
    ensures Faithful(configs, events)
    decreases |events|
  {
    if events == [] {
      NoOutputs(events, 0, 0);
    } else {
      hide *;
      var n := |events| - 1;
      RunFaithful(configs, events[..n]);
      if events[n].Output? {
        OutputFaithful(configs, events);
      } else {
        ClaimFaithful(configs, events);
      }
    }
  }

  lemma LogStep(configs: seq<Stage>, events: seq<Event>)
    requires events != []
    ensures var n := |events| - 1;
            var c, d := Run(configs, events[..n]), Run(configs, events);
            d == Next(c, events[n]) && c.index <= d.index
            && PassLog(configs, events) == PassLog(configs, events[..n]) + Repeated(n, d.index - c.index)
  {
    hide Next, Consistent;
  }

  lemma OutputFaithful(configs: seq<Stage>, events: seq<Event>)
    requires events != [] && events[|events| - 1].Output?
    requires Faithful(configs, events[..|events| - 1])
    ensures Faithful(configs, events)
  {
    hide Earned, Named, PassLog, Outputs, AddOutput, Run;
    var n := |events| - 1;
    LogStep(configs, events);
    var log := PassLog(configs, events[..n]);
    assert log + [] == log;
    assert PassLog(configs, events) == log;
    var since := Since(log, |log|);
    OutputsGrow(events, since);
    forall i | 0 <= i < |log|
      ensures Earned(Named(configs), events, log, i)
    {
      EarnedLater(Named(configs), events, n, log, [], i);
    }
    if Run(configs, events).stages != [] && !Run(configs, events).finished {
      StillOpen(Run(configs, events[..n]), events[n].text);
    }
  }

  lemma OutputsGrow(events: seq<Event>, since: nat)
    requires events != [] && events[|events| - 1].Output? && since < |events|
    ensures Outputs(events, since, |events|)
            == AddOutput(Outputs(events[..|events| - 1], since, |events| - 1), events[|events| - 1].text)
  {
    hide AddOutput;
    OutputsOfPrefix(events, |events| - 1, since, |events| - 1);
  }

  lemma StillOpen(c: Cursor, text: string)
    requires Consistent(c) && !NoteOutput(c, text).finished && c.stages != []
    ensures !c.finished
    ensures NoteOutput(c, text).evidence == AddOutput(c.evidence, text)
  {
  }

  lemma ClaimFaithful(configs: seq<Stage>, events: seq<Event>)
    requires events != [] && events[|events| - 1].Claim?
    requires Faithful(configs, events[..|events| - 1])
    ensures Faithful(configs, events)
  {
    hide Earned, Named, PassLog, Outputs, Run, ClaimedAll, ClaimedStageNames, Consistent, Deserves, PassedTogether;
    var n := |events| - 1;
    var init, e := events[..n], events[n];
    LogStep(configs, events);
    var c, d := Run(configs, init), Run(configs, events);
    var log, all := PassLog(configs, init), PassLog(configs, events);
    var more := Repeated(n, d.index - c.index);
    forall i | 0 <= i < |log|
      ensures Earned(Named(configs), events, all, i)
    {
      EarnedLater(Named(configs), events, n, log, more, i);
    }
    if c.stages == [] || c.finished {
      assert d == c;
      assert log + more == log;
    } else {
      var names := ClaimedStageNames(e.text);
      ClaimedAllExact(c, names, e.existing);
      OutputsOfPrefix(events, n, Since(log, |log|), n);
      forall i | |log| <= i < |all|
        ensures Earned(Named(configs), events, all, i)
      {
        PassedAt(c.stages, c.index, d.index, names, c.evidence, e.existing, i);
        NewPassEarned(c, d, events, names, log, i);
      }
      EvidenceAfterClaim(c, d, events, log);
    }
  }

  lemma PassedAt(stages: seq<Stage>, lo: nat, hi: nat, names: seq<string>, evidence: string, existing: set<string>, i: nat)
    requires PassedTogether(stages, lo, hi, names, evidence, existing) && lo <= i < hi
    ensures i < |stages| && Deserves(stages[i], names, if i == lo then evidence else "", existing)
  {
    hide Deserves;
  }

  lemma NewPassEarned(c: Cursor, d: Cursor, events: seq<Event>, names: seq<string>, log: seq<nat>, i: nat)
    requires events != [] && events[|events| - 1].Claim? && names == ClaimedStageNames(events[|events| - 1].text)
    requires |log| == c.index <= i < d.index && forall k :: 0 <= k < |log| ==> log[k] < |events| - 1
    requires i < |c.stages|
             && Deserves(c.stages[i], names, if i == c.index then c.evidence else "", events[|events| - 1].existing)
    requires c.evidence == Outputs(events, Since(log, |log|), |events| - 1)
    ensures Earned(c.stages, events, log + Repeated(|events| - 1, d.index - c.index), i)
  {
    hide Outputs, ClaimedStageNames, Deserves, Repeated;
    var n := |events| - 1;
    var all := log + Repeated(n, d.index - c.index);
    assert all[i] == n;
    if i > c.index {
      assert all[i - 1] == n;
      NoOutputs(events, n + 1, n);
    } else {
      assert i > 0 ==> all[i - 1] == log[i - 1];
    }
  }

  lemma EvidenceAfterClaim(c: Cursor, d: Cursor, events: seq<Event>, log: seq<nat>)
    requires events != [] && events[|events| - 1].Claim?
    requires |log| == c.index <= d.index && d.evidence == if d.index == c.index then c.evidence else ""
    requires c.evidence == Outputs(events, Since(log, |log|), |events| - 1)
    ensures var all := log + Repeated(|events| - 1, d.index - c.index);
            d.evidence == Outputs(events, Since(all, |all|), |events|)
  {
    var all := log + Repeated(|events| - 1, d.index - c.index);
    if d.index == c.index {
      assert all == log;
    } else {
      NoOutputs(events, |events|, |events|);
    }
  }

  /** A stage that needs tool evidence has its needle in the outputs noted since the previous stage passed. */
  lemma NeedleWasNoted(configs: seq<Stage>, events: seq<Event>, i: nat)
    requires i < Run(configs, events).index && i < |Named(configs)| && Named(configs)[i].check == ToolResultContains
    ensures var log, needle := PassLog(configs, events), Trim(Named(configs)[i].needle);
            && i < |log| == Run(configs, events).index && log[i] < |events| && needle != ""
            && Contains(Outputs(events, Since(log, i), log[i]), needle)
            && ('\n' !in needle ==>
                  exists k :: Since(log, i) <= k < log[i] && events[k].Output? && Contains(events[k].text, needle))
  {
    hide Run, PassLog, Outputs, Named, Trim, Contains;
    RunFaithful(configs, events);
    var log, needle := PassLog(configs, events), Trim(Named(configs)[i].needle);
    assert Earned(Named(configs), events, log, i);
    if '\n' !in needle {
      NeedleInOneOutput(events, Since(log, i), log[i], needle);
    }
  }

  /** A needle without line breaks is inside a single output. */
  lemma {:induction false} NeedleInOneOutput(events: seq<Event>, a: nat, b: nat, needle: string)
    requires b <= |events| && needle != "" && '\n' !in needle && Contains(Outputs(events, a, b), needle)
    ensures exists k :: a <= k < b && events[k].Output? && Contains(events[k].text, needle)
    decreases b
  {
    hide Contains;
    if b > a {
      if events[b - 1].Output? {
        InOnePart(Outputs(events, a, b - 1), events[b - 1].text, needle);
        if Contains(Outputs(events, a, b - 1), needle) {
          NeedleInOneOutput(events, a, b - 1, needle);
        }
      } else {
        NeedleInOneOutput(events, a, b - 1, needle);
      }
    } else {
      NotInEmpty(needle);
    }
  }

  lemma NotInEmpty(needle: string)
    requires needle != ""
    ensures !Contains("", needle)
  {
  }

  lemma InOnePart(evidence: string, output: string, needle: string)
    requires needle != "" && '\n' !in needle && Contains(AddOutput(evidence, output), needle)
    ensures Contains(evidence, needle) || Contains(output, needle)
  {
    hide OccursAt;
    var all := AddOutput(evidence, output);
    var i :| OccursAt(all, needle, i);
    if evidence != "" {
      var front := evidence + "\n";
      assert all == front + output && all[|evidence|] == '\n';
      if i >= |front| {
        OccursInSuffix(front, output, needle, i);
      } else {
        EndsBeforeBreak(all, needle, i, |evidence|);
        assert all == evidence + ("\n" + output);
        OccursInPrefix(evidence, "\n" + output, needle, i);
      }
    }
  }

  lemma EndsBeforeBreak(s: string, needle: string, i: int, at: nat)
    requires at < |s| && s[at] == '\n' && '\n' !in needle && OccursAt(s, needle, i) && i <= at
    ensures i + |needle| <= at
  {
    if i + |needle| > at {
      OccursNotAcross(s, needle, i, at);
    }
  }

  /** The pointer block appears exactly when there are stages and all of them have passed. */
  lemma PointerExactly(configs: seq<Stage>, events: seq<Event>)
    ensures Pointer(Run(configs, events)).Some?
            <==> Named(configs) != [] && |PassLog(configs, events)| == |Named(configs)|
  {
    hide Run, PassLog, Named, Earned, Outputs;
    RunFaithful(configs, events);
  }

  /** Passes are never undone: a longer run only appends to the log, and the index never decreases. */
  lemma {:induction false} PassesOnlyGrow(configs: seq<Stage>, events: seq<Event>, k: nat)
    requires k <= |events|
    ensures PassLog(configs, events[..k]) <= PassLog(configs, events)
    ensures Run(configs, events[..k]).index <= Run(configs, events).index
    decreases |events|
  {
    hide Run, PassLog;
    if k == |events| {
      assert events[..k] == events;
    } else {
      var n := |events| - 1;
      assert events[..n][..k] == events[..k];
      PassesOnlyGrow(configs, events[..n], k);
      LogStep(configs, events);
    }
  }
}
