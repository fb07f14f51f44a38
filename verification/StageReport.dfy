/** The reports a recipe or a probe answers the host with: one answer for each step, in a fixed order.

    The display recipe, the GPU recipe and the GPU probe keep the same kind of report over different
    lists of steps. Steps are named by their wire numbers.
 */
module StageReport {
  import opened Outcomes

  datatype StageState = StageOk | StageSkipped | StageFailed

  datatype Stage = Stage(step: int, state: StageState, message: string)

  /** The display recipe's steps, in order. */
  const DISPLAY_STEPS: seq<int> := [1, 2, 3, 11, 4, 5, 12, 10, 6, 14, 13, 7, 8, 9]
  const SIGNING_KEY := 11
  /** The GPU recipe's steps and the GPU probe's checks, in order. */
  const GPU_STEPS: seq<int> := [1, 2, 3, 4, 5, 6, 7, 8, 9, 10]
  const GPU_CHECKS: seq<int> := [1, 2, 3, 4, 5, 6, 7]

  ghost predicate Distinct(steps: seq<int>) {
    forall i, j :: 0 <= i < j < |steps| ==> steps[i] != steps[j]
  }

  lemma {:induction false} ListedStepsAreDistinct()
    ensures Distinct(DISPLAY_STEPS) && Distinct(GPU_STEPS) && Distinct(GPU_CHECKS)
  {
  }

  /* Recording. */

  predicate HasStep(stages: seq<Stage>, step: int) {
    exists i :: 0 <= i < |stages| && stages[i].step == step
  }

  /** A later answer to the same step changes nothing. */
  function Recorded(stages: seq<Stage>, stage: Stage): seq<Stage> {
    if HasStep(stages, stage.step) then stages else stages + [stage]
  }

  /** One recording after another. */
  function RecordedOnto(stages: seq<Stage>, more: seq<Stage>): seq<Stage>
    decreases |more|
  {
    if more == [] then stages else RecordedOnto(Recorded(stages, more[0]), more[1..])
  }

  /** Everything that was recorded. */
  function RecordedAll(history: seq<Stage>): seq<Stage> {
    RecordedOnto([], history)
  }

  lemma {:induction false} RecordedConcat(stages: seq<Stage>, early: seq<Stage>, late: seq<Stage>)
    ensures RecordedOnto(stages, early + late) == RecordedOnto(RecordedOnto(stages, early), late)
    decreases |early|
  {
    if early == [] {
      assert early + late == late;
    } else {
      assert (early + late)[0] == early[0] && (early + late)[1..] == early[1..] + late;
      RecordedConcat(Recorded(stages, early[0]), early[1..], late);
    }
  }

  lemma RecordedOne(stages: seq<Stage>, stage: Stage)
    ensures RecordedOnto(stages, [stage]) == Recorded(stages, stage)
  {
    assert [stage][1..] == [];
  }

  /** The first answer a step got. */
  function FirstAnswer(history: seq<Stage>, step: int): Option<Stage> {
    if history == [] then None
    else if history[0].step == step then Some(history[0])
    else FirstAnswer(history[1..], step)
  }

  function Skips(steps: seq<int>, reason: string): (skips: seq<Stage>)
    ensures |skips| == |steps| && forall i :: 0 <= i < |skips| ==> skips[i] == Stage(steps[i], StageSkipped, reason)
  {
    seq(|steps|, i requires 0 <= i < |steps| => Stage(steps[i], StageSkipped, reason))
  }

  /** What the host is to read: every listed step once, in order, with its first answer or the reason it never ran. */
  function Expected(steps: seq<int>, history: seq<Stage>, reason: string): (report: seq<Stage>)
    ensures |report| == |steps|
  {
    seq(|steps|, i requires 0 <= i < |steps| =>
      match FirstAnswer(history, steps[i])
      case Some(stage) => stage
      case None => Stage(steps[i], StageSkipped, reason))
  }

  /* Sorting. */

  function AtPosition(key: int -> int, stages: seq<Stage>, position: int): seq<Stage> {
    if stages == [] then []
    else
      var front := AtPosition(key, stages[..|stages| - 1], position);
      var last := stages[|stages| - 1];
      if key(last.step) == position then front + [last] else front
  }

  /** The stages of each position, in the order they were recorded. */
  function Parts(key: int -> int, stages: seq<Stage>): (parts: int -> seq<Stage>)
    ensures forall position :: parts(position) == AtPosition(key, stages, position)
  {
    position => AtPosition(key, stages, position)
  }

  /** The parts one after another, that of the unlisted steps first. */
  function Gathered(parts: int -> seq<Stage>, upTo: nat): seq<Stage> {
    if upTo == 0 then parts(-1) else Gathered(parts, upTo - 1) + parts(upTo - 1)
  }

  /** The stages by position, the unlisted ones first, each position in the order it was recorded. */
  function Arranged(key: int -> int, stages: seq<Stage>, upTo: nat): seq<Stage> {
    Gathered(Parts(key, stages), upTo)
  }

  lemma {:induction false} AtPositionKeys(key: int -> int, stages: seq<Stage>, position: int)
    ensures forall i :: 0 <= i < |AtPosition(key, stages, position)| ==>
              key(AtPosition(key, stages, position)[i].step) == position
  {
    if stages != [] {
      AtPositionKeys(key, stages[..|stages| - 1], position);
    }
  }

  ghost predicate Keyed(key: int -> int, parts: int -> seq<Stage>) {
    forall position :: AllKeyed(key, parts(position), position)
  }

  ghost predicate AllKeyed(key: int -> int, part: seq<Stage>, position: int) {
    forall i :: 0 <= i < |part| ==> key(part[i].step) == position
  }

  lemma {:induction false} GatheredKeys(key: int -> int, parts: int -> seq<Stage>, upTo: nat)
    requires Keyed(key, parts)
    ensures forall i :: 0 <= i < |Gathered(parts, upTo)| ==> key(Gathered(parts, upTo)[i].step) < upTo
  {
    assert AllKeyed(key, parts(upTo - 1), upTo - 1);
    if upTo > 0 {
      GatheredKeys(key, parts, upTo - 1);
    }
  }

  lemma {:induction false} GatheredAlike(parts: int -> seq<Stage>, others: int -> seq<Stage>, upTo: nat)
    requires forall position :: position < upTo ==> parts(position) == others(position)
    ensures Gathered(parts, upTo) == Gathered(others, upTo)
  {
    if upTo > 0 {
      GatheredAlike(parts, others, upTo - 1);
    }
  }

  lemma AtPositionAppend(key: int -> int, stages: seq<Stage>, stage: Stage, position: int)
    ensures key(stage.step) == position ==>
              AtPosition(key, stages + [stage], position) == AtPosition(key, stages, position) + [stage]
    ensures key(stage.step) != position ==>
              AtPosition(key, stages + [stage], position) == AtPosition(key, stages, position)
  {
    assert (stages + [stage])[..|stages|] == stages;
  }

  /** Puts a stage behind everything that stands no later than it. */
  function Inserted(key: int -> int, stages: seq<Stage>, stage: Stage): seq<Stage> {
    if stages == [] then [stage]
    else
      var last := stages[|stages| - 1];
      if key(last.step) <= key(stage.step) then stages + [stage]
      else Inserted(key, stages[..|stages| - 1], stage) + [last]
  }

  /** The stable sort by position. */
  function Sorted(key: int -> int, stages: seq<Stage>): seq<Stage> {
    if stages == [] then []
    else Inserted(key, Sorted(key, stages[..|stages| - 1]), stages[|stages| - 1])
  }

  lemma InsertsLast(key: int -> int, stages: seq<Stage>, stage: Stage)
    requires forall i :: 0 <= i < |stages| ==> key(stages[i].step) <= key(stage.step)
    ensures Inserted(key, stages, stage) == stages + [stage]
  {
  }

  lemma {:induction false} InsertsBefore(key: int -> int, low: seq<Stage>, high: seq<Stage>, stage: Stage)
    requires forall i :: 0 <= i < |high| ==> key(high[i].step) > key(stage.step)
    ensures Inserted(key, low + high, stage) == Inserted(key, low, stage) + high
  {
    if high == [] {
      assert low + high == low;
    } else {
      var rest, last := high[..|high| - 1], high[|high| - 1];
      assert (low + high)[..|low + high| - 1] == low + rest;
      InsertsBefore(key, low, rest, stage);
      assert high == rest + [last];
    }
  }

  lemma Regroup(low: seq<Stage>, middle: seq<Stage>, high: seq<Stage>)
    ensures (low + middle) + high == low + (middle + high)
  {
  }

  /** `more` is `parts` with one stage added at the end of its own position. */
  ghost predicate OneAdded(parts: int -> seq<Stage>, more: int -> seq<Stage>, stage: Stage, at: int) {
    more(at) == parts(at) + [stage] && forall position :: position != at ==> more(position) == parts(position)
  }

  /** Where a stage goes among others: behind all of them when none stands later, and before those that all do. */
  ghost predicate Inserts(key: int -> int, stage: Stage, insert: seq<Stage> -> seq<Stage>) {
    && (forall stages :: NoneLater(key, stages, stage) ==> insert(stages) == stages + [stage])
    && (forall low, high :: AllLater(key, high, stage) ==> insert(low + high) == insert(low) + high)
  }

  ghost predicate NoneLater(key: int -> int, stages: seq<Stage>, stage: Stage) {
    forall i :: 0 <= i < |stages| ==> key(stages[i].step) <= key(stage.step)
  }

  ghost predicate AllLater(key: int -> int, stages: seq<Stage>, stage: Stage) {
    forall i :: 0 <= i < |stages| ==> key(stages[i].step) > key(stage.step)
  }

  lemma {:induction false} InsertsGathered(key: int -> int, parts: int -> seq<Stage>, more: int -> seq<Stage>,
                                           stage: Stage, insert: seq<Stage> -> seq<Stage>, upTo: nat)
    requires Keyed(key, parts) && OneAdded(parts, more, stage, key(stage.step)) && -1 <= key(stage.step) < upTo
    requires Inserts(key, stage, insert)
    ensures insert(Gathered(parts, upTo)) == Gathered(more, upTo)
  {
    if key(stage.step) == upTo - 1 {
      GatheredKeys(key, parts, upTo);
      assert NoneLater(key, Gathered(parts, upTo), stage);
      if upTo > 0 {
        GatheredAlike(parts, more, upTo - 1);
        Regroup(Gathered(parts, upTo - 1), parts(upTo - 1), [stage]);
      }
    } else {
      InsertsGathered(key, parts, more, stage, insert, upTo - 1);
      assert AllKeyed(key, parts(upTo - 1), upTo - 1);
      assert AllLater(key, parts(upTo - 1), stage);
    }
  }

  function Inserting(key: int -> int, stage: Stage): (insert: seq<Stage> -> seq<Stage>)
    ensures forall stages :: insert(stages) == Inserted(key, stages, stage)
  {
    stages => Inserted(key, stages, stage)
  }

  lemma InsertingInserts(key: int -> int, stage: Stage)
    ensures Inserts(key, stage, Inserting(key, stage))
  {
    forall stages | NoneLater(key, stages, stage) ensures Inserted(key, stages, stage) == stages + [stage] {
      InsertsLast(key, stages, stage);
    }
    forall low, high | AllLater(key, high, stage)
      ensures Inserted(key, low + high, stage) == Inserted(key, low, stage) + high
    {
      InsertsBefore(key, low, high, stage);
    }
  }

  /** One more stage goes to the end of its own position. */
  lemma {:induction false} InsertsArranged(key: int -> int, stages: seq<Stage>, stage: Stage, upTo: nat)
    requires -1 <= key(stage.step) < upTo
    ensures Inserted(key, Arranged(key, stages, upTo), stage) == Arranged(key, stages + [stage], upTo)
  {
    var parts, more := Parts(key, stages), Parts(key, stages + [stage]);
    forall position
      ensures AllKeyed(key, parts(position), position)
      ensures more(position) == if position == key(stage.step) then parts(position) + [stage] else parts(position)
    {
      AtPositionKeys(key, stages, position);
      AtPositionAppend(key, stages, stage, position);
    }
    InsertingInserts(key, stage);
    InsertsGathered(key, parts, more, stage, Inserting(key, stage), upTo);
  }

  /** Sorting gathers the stages position by position. */
  lemma {:induction false} SortingArranges(key: int -> int, stages: seq<Stage>, upTo: nat)
    requires forall i :: 0 <= i < |stages| ==> -1 <= key(stages[i].step) < upTo
    ensures Sorted(key, stages) == Arranged(key, stages, upTo)
  {
    if stages == [] {
      ArrangedNothing(key, upTo);
    } else {
      var front, last := stages[..|stages| - 1], stages[|stages| - 1];
      SortingArranges(key, front, upTo);
      InsertsArranged(key, front, last, upTo);
      assert front + [last] == stages;
    }
  }

  lemma {:induction false} ArrangedNothing(key: int -> int, upTo: nat)
    ensures Arranged(key, [], upTo) == []
  {
    if upTo > 0 {
      ArrangedNothing(key, upTo - 1);
    }
  }

  /* The order of a report. */

  /** Where a step stands in the list, and before everything when it is not in it. */
  function Position(steps: seq<int>, step: int): int {
    if steps == [] then -1
    else if steps[0] == step then 0
    else
      var later := Position(steps[1..], step);
      if later < 0 then -1 else later + 1
  }

  lemma {:induction false} PositionBounds(steps: seq<int>, step: int)
    ensures -1 <= Position(steps, step) < |steps|
    ensures Position(steps, step) >= 0 ==> steps[Position(steps, step)] == step
    ensures Position(steps, step) == -1 <==> step !in steps
  {
    if steps != [] {
      PositionBounds(steps[1..], step);
      assert steps == [steps[0]] + steps[1..];
    }
  }

  lemma {:induction false} PositionOfListed(steps: seq<int>, i: nat)
    requires i < |steps| && Distinct(steps)
    ensures Position(steps, steps[i]) == i
  {
    if i > 0 {
      PositionOfListed(steps[1..], i - 1);
    }
  }

  /** The key a report is sorted by. */
  function ByList(steps: seq<int>): (key: int -> int)
    ensures forall step :: key(step) == Position(steps, step)
  {
    step => Position(steps, step)
  }

  /* What a finished report holds. */

  lemma {:induction false} FirstAnswerOfBoth(early: seq<Stage>, late: seq<Stage>, step: int)
    ensures FirstAnswer(early + late, step) ==
            if FirstAnswer(early, step).Some? then FirstAnswer(early, step) else FirstAnswer(late, step)
  {
    if early == [] {
      assert early + late == late;
    } else {
      assert (early + late)[1..] == early[1..] + late;
      FirstAnswerOfBoth(early[1..], late, step);
    }
  }

  lemma {:induction false} FirstAnswerIsOfTheStep(history: seq<Stage>, step: int)
    ensures FirstAnswer(history, step).Some? ==> FirstAnswer(history, step).value.step == step
  {
    if history != [] {
      FirstAnswerIsOfTheStep(history[1..], step);
    }
  }

  function AsStages(answer: Option<Stage>): seq<Stage> {
    if answer.Some? then [answer.value] else []
  }

  /** A step that alone stands at its position is there exactly when it was recorded. */
  lemma {:induction false} ThereWhenRecorded(key: int -> int, stages: seq<Stage>, step: int)
    requires forall other :: key(other) == key(step) ==> other == step
    ensures AtPosition(key, stages, key(step)) == [] <==> !HasStep(stages, step)
  {
    if stages != [] {
      var front, last := stages[..|stages| - 1], stages[|stages| - 1];
      ThereWhenRecorded(key, front, step);
      assert forall i :: 0 <= i < |front| ==> stages[i] == front[i];
      assert stages[|stages| - 1] == last;
    }
  }

  /** Recording on leaves an answered position as it is, and gives an open one its first answer. */
  lemma {:induction false} FirstAnswerIsKept(key: int -> int, stages: seq<Stage>, history: seq<Stage>, step: int)
    requires forall other :: key(other) == key(step) ==> other == step
    ensures AtPosition(key, RecordedOnto(stages, history), key(step)) ==
            if HasStep(stages, step) then AtPosition(key, stages, key(step)) else AsStages(FirstAnswer(history, step))
    decreases |history|
  {
    ThereWhenRecorded(key, stages, step);
    if history != [] {
      var next := Recorded(stages, history[0]);
      FirstAnswerIsKept(key, next, history[1..], step);
      AtPositionAppend(key, stages, history[0], key(step));
      RecordedHas(stages, history[0], step);
    }
  }

  lemma RecordedHas(stages: seq<Stage>, stage: Stage, step: int)
    ensures HasStep(Recorded(stages, stage), step) <==> HasStep(stages, step) || stage.step == step
  {
    var more := stages + [stage];
    assert forall i :: 0 <= i < |stages| ==> more[i] == stages[i];
    assert more[|stages|] == stage;
  }

  /** Of a listed step a report holds its first answer and nothing else. */
  lemma {:induction false} HoldsTheFirstAnswer(steps: seq<int>, history: seq<Stage>, i: nat)
    requires Distinct(steps) && i < |steps|
    ensures AtPosition(ByList(steps), RecordedAll(history), i) == AsStages(FirstAnswer(history, steps[i]))
  {
    PositionOfListed(steps, i);
    forall other | ByList(steps)(other) == i ensures other == steps[i] {
      PositionBounds(steps, other);
    }
    FirstAnswerIsKept(ByList(steps), [], history, steps[i]);
  }

  lemma {:induction false} SkipsAnswerEveryStep(steps: seq<int>, reason: string, step: int)
    requires step in steps
    ensures FirstAnswer(Skips(steps, reason), step) == Some(Stage(step, StageSkipped, reason))
  {
    assert steps == [steps[0]] + steps[1..];
    if steps[0] != step {
      assert Skips(steps, reason)[1..] == Skips(steps[1..], reason);
      SkipsAnswerEveryStep(steps[1..], reason, step);
    }
  }

  /** Recording only listed steps leaves the unlisted part of a report as it was. */
  lemma {:induction false} UnlistedUnaffected(steps: seq<int>, stages: seq<Stage>, more: seq<Stage>)
    requires forall i :: 0 <= i < |more| ==> more[i].step in steps
    ensures AtPosition(ByList(steps), RecordedOnto(stages, more), -1) == AtPosition(ByList(steps), stages, -1)
    decreases |more|
  {
    if more != [] {
      PositionBounds(steps, more[0].step);
      AtPositionAppend(ByList(steps), stages, more[0], -1);
      UnlistedUnaffected(steps, Recorded(stages, more[0]), more[1..]);
    }
  }

  /** Once the skips are recorded, each listed position holds what the host is to read there. */
  lemma PositionIsExpected(steps: seq<int>, history: seq<Stage>, reason: string, i: nat)
    requires Distinct(steps) && i < |steps|
    ensures AtPosition(ByList(steps), RecordedAll(history + Skips(steps, reason)), i) ==
              [Expected(steps, history, reason)[i]]
  {
    HoldsTheFirstAnswer(steps, history + Skips(steps, reason), i);
    FirstAnswerOfBoth(history, Skips(steps, reason), steps[i]);
    SkipsAnswerEveryStep(steps, reason, steps[i]);
  }

  lemma {:induction false} GatheredIs(parts: int -> seq<Stage>, expected: seq<Stage>, upTo: nat)
    requires upTo <= |expected|
    requires forall i :: 0 <= i < upTo ==> parts(i) == [expected[i]]
    ensures Gathered(parts, upTo) == parts(-1) + expected[..upTo]
  {
    if upTo > 0 {
      GatheredIs(parts, expected, upTo - 1);
      Regroup(parts(-1), expected[..upTo - 1], [expected[upTo - 1]]);
      assert expected[..upTo] == expected[..upTo - 1] + [expected[upTo - 1]];
    }
  }

  lemma {:induction false} SortedByList(steps: seq<int>, stages: seq<Stage>)
    ensures Sorted(ByList(steps), stages) == Arranged(ByList(steps), stages, |steps|)
  {
    forall i | 0 <= i < |stages| ensures -1 <= ByList(steps)(stages[i].step) < |steps| {
      PositionBounds(steps, stages[i].step);
    }
    SortingArranges(ByList(steps), stages, |steps|);
  }

  lemma {:induction false} NothingUnlisted(steps: seq<int>, history: seq<Stage>)
    requires forall i :: 0 <= i < |history| ==> history[i].step in steps
    ensures AtPosition(ByList(steps), RecordedAll(history), -1) == []
  {
    UnlistedUnaffected(steps, [], history);
  }

  /** A finished report: every listed step exactly once, in the list's order, with its first answer or the
      reason; before them only answers to steps that are not in the list, so none if there are none. */
  lemma {:induction false} FinishedReport(steps: seq<int>, history: seq<Stage>, reason: string)
    requires Distinct(steps)
    ensures Sorted(ByList(steps), RecordedAll(history + Skips(steps, reason))) ==
            AtPosition(ByList(steps), RecordedAll(history), -1) + Expected(steps, history, reason)
    ensures (forall i :: 0 <= i < |history| ==> history[i].step in steps) ==>
              Sorted(ByList(steps), RecordedAll(history + Skips(steps, reason))) == Expected(steps, history, reason)
  {
    var all := RecordedAll(history + Skips(steps, reason));
    var expected := Expected(steps, history, reason);
    SortedByList(steps, all);
    var parts := Parts(ByList(steps), all);
    forall i | 0 <= i < |steps| ensures parts(i) == [expected[i]] {
      PositionIsExpected(steps, history, reason, i);
    }
    GatheredIs(parts, expected, |steps|);
    UnlistedUnaffected(steps, RecordedAll(history), Skips(steps, reason));
    RecordedConcat([], history, Skips(steps, reason));
    assert expected[..|steps|] == expected;
    if forall i :: 0 <= i < |history| ==> history[i].step in steps {
      NothingUnlisted(steps, history);
      assert [] + expected == expected;
    }
  }

  /** Whatever is recorded after a step's first answer, and for whatever reason the report is closed,
      the host reads the first answer. */
  lemma FirstAnswerStands(steps: seq<int>, early: seq<Stage>, late: seq<Stage>, reason: string, i: nat)
    requires Distinct(steps) && i < |steps|
    requires FirstAnswer(early, steps[i]).Some?
    ensures Expected(steps, early + late, reason)[i] == FirstAnswer(early, steps[i]).value
    ensures Expected(steps, early + late, reason)[i].step == steps[i]
  {
    FirstAnswerOfBoth(early, late, steps[i]);
    FirstAnswerIsOfTheStep(early, steps[i]);
  }

  /** A report being written. */
  class Report {
    const steps: seq<int>
    var recorded: seq<Stage>
    /** Every recording made, also those that changed nothing. */
    ghost var history: seq<Stage>

    ghost predicate Valid()
      reads this
    {
      Distinct(steps) && recorded == RecordedAll(history)
    }

    constructor (steps: seq<int>)
      requires Distinct(steps)
      ensures Valid() && this.steps == steps && history == []
    {
      this.steps := steps;
      recorded := [];
      history := [];
    }

    method Record(step: int, state: StageState, message: string)
      requires Valid()
      modifies this
      ensures Valid() && history == old(history) + [Stage(step, state, message)]
    {
      RecordedConcat([], history, [Stage(step, state, message)]);
      RecordedOne(recorded, Stage(step, state, message));
      history := history + [Stage(step, state, message)];
      if exists i :: 0 <= i < |recorded| && recorded[i].step == step {
        return;
      }
      recorded := recorded + [Stage(step, state, message)];
    }

    /** Closes the report: `reason` stands for what never ran. */
    method Finish(reason: string) returns (report: seq<Stage>)
      requires Valid()
      modifies this
      ensures Valid() && history == old(history) + Skips(steps, reason)
      ensures report == AtPosition(ByList(steps), old(recorded), -1) + Expected(steps, old(history), reason)
      ensures (forall i :: 0 <= i < |old(history)| ==> old(history)[i].step in steps) ==>
                report == Expected(steps, old(history), reason)
    {
      ghost var skips := Skips(steps, reason);
      for i := 0 to |steps|
        invariant Valid() && history == old(history) + skips[..i]
      {
        Record(steps[i], StageSkipped, reason);
        assert skips[..i + 1] == skips[..i] + [skips[i]];
      }
      assert skips[..|steps|] == skips;
      FinishedReport(steps, old(history), reason);
      report := Sorted(ByList(steps), recorded);
    }
  }

  /* The signing key stage. */

  /** Rebuilds every version DKMS holds, the builds answering as the guest's programs please. */
  method RecordResigning(report: Report, builds: seq<bool>, failure: string) returns (failed: bool)
    requires report.Valid()
    modifies report
    ensures report.Valid()
    ensures failed <==> exists i :: 0 <= i < |builds| && !builds[i]
    ensures report.history == old(report.history) + (if failed then [Stage(SIGNING_KEY, StageFailed, failure)] else [])
  {
    for i := 0 to |builds|
      invariant report.Valid() && report.history == old(report.history)
      invariant forall j :: 0 <= j < i ==> builds[j]
    {
      if !builds[i] {
        report.Record(SIGNING_KEY, StageFailed, failure);
        return true;
      }
    }
    return false;
  }

  /** The end of the signing key stage and the report's closing, after any recordings in between: the host
      reads the failed re-signing, although the stage goes on to record that it went well. */
  method RecordSigningKey(report: Report, replaced: bool, builds: seq<bool>, failure: string, signed: string)
    returns (resigned: bool)
    requires report.Valid()
    modifies report
    ensures report.Valid()
    ensures resigned <==> !replaced || forall i :: 0 <= i < |builds| ==> builds[i]
    ensures report.history == old(report.history) +
            (if resigned then [] else [Stage(SIGNING_KEY, StageFailed, failure)]) +
              [Stage(SIGNING_KEY, StageOk, signed)]
    ensures forall late, reason :: report.steps == DISPLAY_STEPS &&
                                   FirstAnswer(old(report.history), SIGNING_KEY).None? ==>
              Expected(DISPLAY_STEPS, report.history + late, reason)[3] ==
              if resigned then Stage(SIGNING_KEY, StageOk, signed) else Stage(SIGNING_KEY, StageFailed, failure)
  {
    resigned := true;
    if replaced {
      var failed := RecordResigning(report, builds, failure);
      resigned := !failed;
    }
    report.Record(SIGNING_KEY, StageOk, signed);
    ghost var own := (if resigned then [] else [Stage(SIGNING_KEY, StageFailed, failure)]) +
                       [Stage(SIGNING_KEY, StageOk, signed)];
    assert report.history == old(report.history) + own;
    FirstAnswerOfBoth(old(report.history), own, SIGNING_KEY);
    ListedStepsAreDistinct();
    forall late, reason | FirstAnswer(old(report.history), SIGNING_KEY).None?
      ensures Expected(DISPLAY_STEPS, report.history + late, reason)[3] == own[0]
    {
      FirstAnswerStands(DISPLAY_STEPS, report.history, late, reason, 3);
    }
  }
}
