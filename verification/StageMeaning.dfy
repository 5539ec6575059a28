/** What a message does to the stage cursor, said over the lines of the text, the stages and their checks. */
module StageMeaning {
  import opened Wrappers
  import opened Text
  import opened StageCursors

  // ---------------------------------------------------------------- which names a text claims

  /** The line at `o` claims `name`: trimmed, it is the prefix with a name behind it. */
  ghost predicate ClaimAt(text: string, o: nat, name: string)
  {
    exists e: nat :: IsLine(text, o, e) && ClaimsName(Trim(text[o..e]), name)
  }

  predicate ClaimsName(line: string, name: string)
  {
    "stage_done:" <= line && Trim(line[|"stage_done:"|..]) == name && name != ""
  }

  lemma ClaimOfLine(line: string, more: string, name: string)
    requires AllWhite(more)
    ensures ClaimOf(line) == Some(name) <==> ClaimsName(Trim(line + more), name)
  {
    hide Trim, IsWhite;
    assert AllWhite("") by {
      EmptyIsWhite();
    }
    TrimOver("", line, more);
    assert "" + line + more == line + more;
  }

  /** `line` is the line from `o` to `e`, up to white space at its end. */
  ghost predicate LineFrom(text: string, o: nat, e: nat, line: string, more: string)
  {
    IsLine(text, o, e) && AllWhite(more) && text[o..e] == line + more && Lines(text[o..]) == [line] + Lines(text[e..])
  }

  lemma LineSplit(text: string, o: nat) returns (e: nat, line: string, more: string)
    requires o < |text| && (o == 0 || text[o - 1] == '\n')
    ensures LineFrom(text, o, e, line, more)
  {
    hide *;
    BreaksAre(text[o..]);
    LinesStep(text[o..]);
    var n := FindFirst(text[o..], "\n");
    if n.None? {
      e, line, more := |text|, text[o..], "";
      LastLine(text, o);
    } else {
      e, line, more := o + n.value + 1, text[o..][..n.value], "\n";
      NextLine(text, o, n.value);
    }
  }

  lemma LastLine(text: string, o: nat)
    requires o < |text| && (o == 0 || text[o - 1] == '\n') && Lines(text[o..]) == [text[o..]]
    requires forall i :: 0 <= i < |text[o..]| ==> text[o..][i] != '\n'
    ensures LineFrom(text, o, |text|, text[o..], "")
  {
    hide Lines, IsWhite;
    assert forall k :: o <= k < |text| ==> text[k] == text[o..][k - o];
    assert text[o..|text|] == text[o..] + "" && AllWhite("");
    LinesStep(text[|text|..]);
    assert [text[o..]] + [] == [text[o..]];
  }

  lemma NextLine(text: string, o: nat, n: nat)
    requires o < |text| && (o == 0 || text[o - 1] == '\n') && o + n < |text| && text[o..][n] == '\n'
    requires Lines(text[o..]) == [text[o..][..n]] + Lines(text[o..][n + 1..])
    requires forall i :: 0 <= i < n ==> text[o..][i] != '\n'
    ensures LineFrom(text, o, o + n + 1, text[o..][..n], "\n")
  {
    hide Lines, AllWhite;
    BreakIsWhite();
    assert forall k :: o <= k <= o + n ==> text[k] == text[o..][k - o];
    assert text[o..o + n + 1] == text[o..][..n] + "\n";
    assert text[o + n + 1..] == text[o..][n + 1..];
  }

  lemma BreakIsWhite()
    ensures AllWhite("\n")
  {
  }

  lemma LinesStep(s: string)
    ensures s == "" ==> Lines(s) == []
    ensures s != "" ==>
              var n := FindFirst(s, "\n");
              && (n.None? ==> Lines(s) == [s] && Lines("") == [] && [s] + [] == [s])
              && (n.Some? ==> n.value < |s| && Lines(s) == [s[..n.value]] + Lines(s[n.value + 1..]))
  {
    hide FindFirst;
  }

  lemma ClaimsStep(line: string, lines: seq<string>)
    ensures var name := ClaimOf(line);
            Claims([line] + lines) == (if name.Some? then [name.value] else []) + Claims(lines)
  {
    assert ([line] + lines)[1..] == lines;
  }

  /** The claims from `from` on: where they stand, in increasing order, and that there are no others. */
  ghost predicate ClaimsFrom(text: string, from: nat, at: seq<nat>, names: seq<string>)
  {
    && |at| == |names|
    && (forall i, j :: 0 <= i < j < |at| ==> at[i] < at[j])
    && (forall i :: 0 <= i < |at| ==> from <= at[i] && ClaimAt(text, at[i], names[i]))
    && (forall o: nat, name :: from <= o && ClaimAt(text, o, name) ==> o in at)
  }

  lemma {:induction false} NamesFrom(text: string, o: nat) returns (at: seq<nat>)
    requires o <= |text| && (o == 0 || o == |text| || text[o - 1] == '\n')
    ensures ClaimsFrom(text, o, at, Claims(Lines(text[o..])))
    decreases |text| - o
  {
    hide *;
    if o == |text| {
      at := [];
      NothingClaimed(text);
    } else {
      var e, line, more := LineSplit(text, o);
      LineBounds(text, o, e, line, more);
      var behind := NamesFrom(text, e);
      ClaimsStep(line, Lines(text[e..]));
      at := if ClaimOf(line).Some? then [o] + behind else behind;
      OneMoreLine(text, o, e, line, more, behind, Claims(Lines(text[e..])));
      assert [] + Claims(Lines(text[e..])) == Claims(Lines(text[e..]));
    }
  }

  lemma LineBounds(text: string, o: nat, e: nat, line: string, more: string)
    requires LineFrom(text, o, e, line, more)
    ensures o < e <= |text| && (e == |text| || text[e - 1] == '\n')
    ensures IsLine(text, o, e) && AllWhite(more) && text[o..e] == line + more && Lines(text[o..]) == [line] + Lines(text[e..])
  {
  }

  lemma LineIsLonger(text: string, o: nat, e: nat)
    requires IsLine(text, o, e)
    ensures o < e
  {
  }

  lemma NothingClaimed(text: string)
    ensures ClaimsFrom(text, |text|, [], Claims(Lines(text[|text|..])))
  {
    LinesStep(text[|text|..]);
  }

  lemma OneMoreLine(text: string, o: nat, e: nat, line: string, more: string, behind: seq<nat>, names: seq<string>)
    requires IsLine(text, o, e) && AllWhite(more) && text[o..e] == line + more && ClaimsFrom(text, e, behind, names)
    ensures var name := ClaimOf(line);
            if name.Some? then ClaimsFrom(text, o, [o] + behind, [name.value] + names) else ClaimsFrom(text, o, behind, names)
  {
    hide *;
    ClaimsHere(text, o, e, line, more);
    LineIsLonger(text, o, e);
    forall p: nat, name | o < p < e
      ensures !ClaimAt(text, p, name)
    {
      NoLineInside(text, o, e, p);
    }
    Joined(text, o, e, ClaimOf(line), behind, names);
  }

  lemma ClaimsHere(text: string, o: nat, e: nat, line: string, more: string)
    requires IsLine(text, o, e) && AllWhite(more) && text[o..e] == line + more
    ensures forall name :: ClaimOf(line) == Some(name) <==> ClaimAt(text, o, name)
  {
    hide ClaimOf, ClaimsName, AllWhite, Trim;
    forall name
      ensures ClaimOf(line) == Some(name) <==> ClaimAt(text, o, name)
    {
      ClaimOfLine(line, more, name);
      if ClaimAt(text, o, name) {
        var d: nat :| IsLine(text, o, d) && ClaimsName(Trim(text[o..d]), name);
        LinesApart(text, o, e, o, d);
      }
    }
  }

  lemma Joined(text: string, o: nat, e: nat, first: Option<string>, behind: seq<nat>, names: seq<string>)
    requires o < e && ClaimsFrom(text, e, behind, names)
    requires forall name :: first == Some(name) <==> ClaimAt(text, o, name)
    requires forall p: nat, name :: o < p < e ==> !ClaimAt(text, p, name)
    ensures if first.Some? then ClaimsFrom(text, o, [o] + behind, [first.value] + names) else ClaimsFrom(text, o, behind, names)
  {
    hide ClaimAt;
    forall p: nat, name | o <= p && ClaimAt(text, p, name)
      ensures p in (if first.Some? then [o] + behind else behind)
    {
      assert p == o || p >= e;
    }
    if first.Some? {
      Prepended(text, o, e, first.value, behind, names);
    }
  }

  lemma Prepended(text: string, o: nat, e: nat, first: string, behind: seq<nat>, names: seq<string>)
    requires o < e && |behind| == |names| && (forall i, j :: 0 <= i < j < |behind| ==> behind[i] < behind[j])
    requires forall i :: 0 <= i < |behind| ==> e <= behind[i] && ClaimAt(text, behind[i], names[i])
    requires ClaimAt(text, o, first)
    ensures var at, all := [o] + behind, [first] + names;
            && (forall i, j :: 0 <= i < j < |at| ==> at[i] < at[j])
            && (forall i :: 0 <= i < |at| ==> o <= at[i] && ClaimAt(text, at[i], all[i]))
  {
    hide ClaimAt;
  }

  lemma NoLineInside(text: string, o: nat, e: nat, p: nat)
    requires IsLine(text, o, e) && o < p < e
    ensures forall name :: !ClaimAt(text, p, name)
  {
    hide ClaimsName;
    NoBreakInside(text, o, e, p);
  }

  /** The names a text claims are those of its claiming lines, in their order, and every claiming line counts. */
  lemma ClaimedNames(text: string) returns (at: seq<nat>)
    ensures ClaimsFrom(text, 0, at, ClaimedStageNames(text))
  {
    hide Lines, Claims, ClaimsFrom;
    at := NamesFrom(text, 0);
    assert text[0..] == text;
  }

  // ---------------------------------------------------------------- what a message passes

  /** Name `i` is that of the `i`-th stage from here, and its check holds: the first on the evidence, the others on none. */
  ghost predicate PassesAt(c: Cursor, names: seq<string>, i: nat, existing: set<string>)
    requires i < |names| && c.index + i < |c.stages|
  {
    names[i] == Trim(c.stages[c.index + i].name)
    && CheckHolds(c.stages[c.index + i], if i == 0 then c.evidence else "", existing)
  }

  /** The first `k` names pass the next `k` stages. */
  ghost predicate Passes(c: Cursor, names: seq<string>, k: nat, existing: set<string>)
  {
    k <= |names| && c.index + k <= |c.stages| && forall i :: 0 <= i < k ==> PassesAt(c, names, i, existing)
  }

  /** What the assistant is told when `name` does not pass the stage. */
  ghost predicate Refusal(stage: Stage, name: string, observation: string)
  {
    if name != Trim(stage.name) then
      observation == "Observation: stage claim '" + name + "' does not match the current stage '" + Trim(stage.name)
                     + "'. Stay on this stage."
    else if stage.check.PathExists? then
      observation == "Observation: stage '" + name + "' still needs the artifact path to exist: " + Trim(stage.artifact) + "."
    else
      stage.check.ToolResultContains?
      && observation == "Observation: stage '" + name + "' still needs the tool result to contain '" + Trim(stage.needle) + "'."
  }

  lemma ObservationMeans(c: Cursor, name: string, existing: set<string>)
    requires c.index < |c.stages|
    ensures var stage, r := c.stages[c.index], ClaimObservation(c, name, existing);
            && (r.None? <==> name == Trim(stage.name) && CheckHolds(stage, c.evidence, existing))
            && (r.Some? ==> Refusal(stage, name, r.value))
  {
    hide Trim, FindFirst, OccursAt;
  }

  /** The longest beginning of the names that passes, stage by stage. */
  lemma {:induction false} LongestPass(c: Cursor, names: seq<string>, existing: set<string>) returns (k: nat)
    requires Consistent(c)
    ensures Passes(c, names, k, existing) && !Passes(c, names, k + 1, existing)
    ensures Leaves(c, names, k, existing)
    decreases |names|
  {
    hide *;
    k := 0;
    if names == [] || c.index >= |c.stages| {
      NothingLeft(c, names, existing);
    } else {
      var observation := ClaimObservation(c, names[0], existing);
      ObservationMeans(c, names[0], existing);
      FirstPasses(c, names, existing);
      if observation.Some? {
        RefusedAtOnce(c, names, existing);
      } else {
        var d := Claimed(c, names[0], existing);
        var more := LongestPass(d, names[1..], existing);
        k := more + 1;
        PassesBehind(c, d, names, more, existing);
        PassesBehind(c, d, names, more + 1, existing);
        LeavesBehind(c, names, more, existing);
      }
    }
  }

  /** What `k` passed claims leave: the stages behind them, no evidence if something passed, and an answer if a claim is left. */
  ghost predicate Leaves(c: Cursor, names: seq<string>, k: nat, existing: set<string>)
    requires Consistent(c)
  {
    var (d, observation) := ClaimedAll(c, names, existing);
    && k <= |names| && c.index + k <= |c.stages|
    && d == Cursor(c.stages, c.index + k, if k == 0 then c.evidence else "", c.stages != [] && c.index + k == |c.stages|)
    && (observation.None? <==> k == |names| || c.index + k == |c.stages|)
    && (observation.Some? ==> Refusal(c.stages[c.index + k], names[k], observation.value))
  }

  lemma FirstPasses(c: Cursor, names: seq<string>, existing: set<string>)
    requires Consistent(c) && names != [] && c.index < |c.stages|
    ensures Passes(c, names, 0, existing)
    ensures Passes(c, names, 1, existing)
            <==> names[0] == Trim(c.stages[c.index].name) && CheckHolds(c.stages[c.index], c.evidence, existing)
    ensures ClaimObservation(c, names[0], existing).None? ==>
              var d := Claimed(c, names[0], existing); Consistent(d) && d == Cursor(c.stages, c.index + 1, "", c.index + 1 == |c.stages|)
  {
    hide CheckHolds, Trim, ClaimObservation;
    assert PassesAt(c, names, 0, existing)
           <==> names[0] == Trim(c.stages[c.index].name) && CheckHolds(c.stages[c.index], c.evidence, existing);
  }

  lemma RefusedAtOnce(c: Cursor, names: seq<string>, existing: set<string>)
    requires Consistent(c) && names != [] && c.index < |c.stages| && ClaimObservation(c, names[0], existing).Some?
    requires Refusal(c.stages[c.index], names[0], ClaimObservation(c, names[0], existing).value)
    ensures Leaves(c, names, 0, existing)
  {
    hide Refusal, ClaimObservation, Claimed;
  }

  lemma LeavesBehind(c: Cursor, names: seq<string>, k: nat, existing: set<string>)
    requires Consistent(c) && names != [] && c.index < |c.stages| && ClaimObservation(c, names[0], existing).None?
    requires var d := Claimed(c, names[0], existing);
             d == Cursor(c.stages, c.index + 1, "", c.index + 1 == |c.stages|) && Leaves(d, names[1..], k, existing)
    ensures Leaves(c, names, k + 1, existing)
  {
    hide Refusal, ClaimObservation, Claimed;
  }

  lemma PassesBehind(c: Cursor, d: Cursor, names: seq<string>, k: nat, existing: set<string>)
    requires names != [] && c.index < |c.stages| && Passes(c, names, 1, existing)
    requires d.stages == c.stages && d.index == c.index + 1 && d.evidence == ""
    ensures Passes(c, names, k + 1, existing) <==> Passes(d, names[1..], k, existing)
  {
    hide PassesAt;
    assert PassesAt(c, names, 0, existing);
    if k < |names| && c.index + k < |c.stages| {
      forall i | 0 <= i < k
        ensures PassesAt(d, names[1..], i, existing) <==> PassesAt(c, names, i + 1, existing)
      {
        PassesAtBehind(c, d, names, i, existing);
      }
      if Passes(d, names[1..], k, existing) {
        forall i | 0 <= i < k + 1
          ensures PassesAt(c, names, i, existing)
        {
          if i > 0 {
            assert PassesAt(d, names[1..], i - 1, existing);
          }
        }
      }
    }
  }

  lemma PassesAtBehind(c: Cursor, d: Cursor, names: seq<string>, i: nat, existing: set<string>)
    requires i + 1 < |names| && c.index + i + 1 < |c.stages|
    requires d.stages == c.stages && d.index == c.index + 1 && d.evidence == ""
    ensures PassesAt(d, names[1..], i, existing) <==> PassesAt(c, names, i + 1, existing)
  {
    hide CheckHolds, Trim;
    assert names[1..][i] == names[i + 1] && d.index + i == c.index + (i + 1);
  }

  lemma NothingLeft(c: Cursor, names: seq<string>, existing: set<string>)
    requires Consistent(c) && (names == [] || c.index >= |c.stages|)
    ensures Leaves(c, names, 0, existing) && Passes(c, names, 0, existing) && !Passes(c, names, 1, existing)
  {
    hide PassesAt, Refusal;
    NothingMoves(c, names, existing);
  }

  lemma {:induction false} NothingMoves(c: Cursor, names: seq<string>, existing: set<string>)
    requires Consistent(c) && (names == [] || c.index >= |c.stages|)
    ensures ClaimedAll(c, names, existing) == (c, None)
    decreases |names|
  {
    if names != [] {
      NothingMoves(c, names[1..], existing);
    }
  }

  /**
   On an open cursor a message passes as many stages as its claims name, in order, with checks that hold. It is answered only
   when a claim is left over and a stage too, with what is wrong with that claim.
   */
  lemma ClaimsPassExactly(c: Cursor, text: string, existing: set<string>) returns (names: seq<string>, at: seq<nat>, k: nat)
    requires Consistent(c) && c.stages != [] && !c.finished
    ensures ClaimsFrom(text, 0, at, names)
    ensures Passes(c, names, k, existing) && !Passes(c, names, k + 1, existing)
    ensures var (d, observation) := NoteClaim(c, text, existing);
            && d.stages == c.stages && d.index == c.index + k && d.evidence == (if k == 0 then c.evidence else "")
            && (d.finished <==> d.index == |c.stages|)
            && (observation.None? <==> k == |names| || c.index + k == |c.stages|)
            && (observation.Some? ==> Refusal(c.stages[c.index + k], names[k], observation.value))
  {
    hide ClaimedAll, ClaimsFrom, Passes, Refusal, ClaimedStageNames;
    names := ClaimedStageNames(text);
    at := ClaimedNames(text);
    k := LongestPass(c, names, existing);
  }

  /** A cursor without stages, and one that is through, ignores claims and outputs. */
  lemma ClosedStays(c: Cursor, text: string, existing: set<string>)
    requires Consistent(c) && (c.stages == [] || c.finished)
    ensures NoteClaim(c, text, existing) == (c, None) && NoteOutput(c, text) == c
  {
  }

  // ---------------------------------------------------------------- stages and pointers

  lemma NamedStep(stage: Stage, rest: seq<Stage>)
    ensures Named([]) == []
    ensures Named([stage] + rest) == (if Trim(stage.name) != "" then [stage] else []) + Named(rest)
  {
    hide Trim;
    assert ([stage] + rest)[1..] == rest;
  }

  /** The stages of a cursor are the configured ones with a name, in their order. */
  lemma {:induction false} NamedMeans(before: seq<Stage>, stage: Stage, behind: seq<Stage>)
    ensures Named([]) == []
    ensures Named(before + [stage] + behind)
            == Named(before) + (if Trim(stage.name) != "" then [stage] else []) + Named(behind)
    decreases |before|
  {
    hide *;
    NamedStep(stage, behind);
    var own := if Trim(stage.name) != "" then [stage] else [];
    if before == [] {
      assert before + [stage] + behind == [stage] + behind;
      assert [] + own + Named(behind) == own + Named(behind);
    } else {
      var first, rest := before[0], before[1..];
      NamedMeans(rest, stage, behind);
      NamedStep(first, rest);
      NamedStep(first, rest + [stage] + behind);
      assert before == [first] + rest;
      assert before + [stage] + behind == [first] + (rest + [stage] + behind);
      var head := if Trim(first.name) != "" then [first] else [];
      assert head + (Named(rest) + own + Named(behind)) == (head + Named(rest)) + own + Named(behind);
    }
  }

  /** The pointer block has one line for each stage, with its name and its artifact. */
  lemma PointerMeans(c: Cursor, before: seq<Stage>, last: Stage)
    ensures Pointer(c.(stages := [], finished := true)) == Some("[Stage artifacts]")
    ensures Pointer(c.(stages := before + [last], finished := true))
            == Some(Pointer(c.(stages := before, finished := true)).value + "\n- " + Trim(last.name) + ": " + Trim(last.artifact))
  {
    hide Trim, PointerLines;
    PointerLinesAre(before, last);
    assert "[Stage artifacts]" + "" == "[Stage artifacts]";
    Regrouped("[Stage artifacts]", PointerLines(before), Trim(last.name), Trim(last.artifact));
  }

  lemma PointerLinesAre(before: seq<Stage>, last: Stage)
    ensures PointerLines([]) == ""
    ensures PointerLines(before + [last]) == PointerLines(before) + "\n- " + Trim(last.name) + ": " + Trim(last.artifact)
  {
    hide Trim;
    assert (before + [last])[..|before|] == before;
  }

  lemma Regrouped(head: string, lines: string, n: string, a: string)
    ensures head + (lines + "\n- " + n + ": " + a) == head + lines + "\n- " + n + ": " + a
  {
  }
}
