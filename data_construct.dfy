/** data/construct.py: a dataset of agent conversations turned into training samples, one
    per assistant turn, each holding the conversation up to that turn, then split 8:1:1
    into train, valid and test by position. */
module DataConstruct {
  import opened Wrappers
  import opened Parsing

  /** One step of a conversation: who spoke (`from`) and what (`value`). */
  datatype Step = Step(from: string, value: string)

  /** A dataset row: the system prompt and the conversation. */
  datatype Row = Row(system: string, conversations: seq<Step>)

  /** A chat message. The content of an assistant message is what `parse_action` makes of
      the step, None when it finds no call. */
  datatype Message = Message(role: string, content: Option<string>)

  function SystemMessage(system: string): Message {
    Message("system", Some(system))
  }

  /** `parse_action(content, string_only=True)` for a model turn; other turns keep their text. */
  function Content(step: Step): Option<string> {
    if step.from == "gpt" then
      match ParseAction(Str(step.value), true)
      case ActionText(t) => Some(t)
      case _ => None
    else Some(step.value)
  }

  /** A step as a chat message: `gpt` speaks as the assistant, everyone else as the user. */
  function Convert(step: Step): (m: Message)
    ensures m.role == "assistant" <==> step.from == "gpt"
    ensures m.role != "assistant" ==> m.role == "user" && m.content == Some(step.value)
  {
    Message(if step.from == "gpt" then "assistant" else "user", Content(step))
  }

  /** The system message, then every step as a message. */
  function Trajectory(system: string, steps: seq<Step>): (t: seq<Message>)
    ensures |t| == |steps| + 1 && t[0] == SystemMessage(system)
    ensures forall i :: 0 <= i < |steps| ==> t[i + 1] == Convert(steps[i])
  {
    [SystemMessage(system)] + seq(|steps|, i requires 0 <= i < |steps| => Convert(steps[i]))
  }

  /** The snapshots `process_row` collects: the trajectory up to and including each `gpt`
      step, in order. */
  function Snapshots(system: string, steps: seq<Step>): (r: seq<seq<Message>>)
    ensures forall k :: 0 <= k < |r| ==> 2 <= |r[k]| <= |steps| + 1
    decreases |steps|
  {
    if steps == [] then []
    else
      var n := |steps| - 1;
      Snapshots(system, steps[..n]) + (if steps[n].from == "gpt" then [Trajectory(system, steps)] else [])
  }

  /** The number of `gpt` steps. */
  function GptCount(steps: seq<Step>): nat
    decreases |steps|
  {
    if steps == [] then 0
    else GptCount(steps[..|steps| - 1]) + (if steps[|steps| - 1].from == "gpt" then 1 else 0)
  }

  /** `process_row(row)`: the ongoing message list grows by one message per step, and a
      copy of it is kept after every `gpt` step. */
  method ProcessRow(row: Row) returns (messages: seq<seq<Message>>)
    ensures messages == Snapshots(row.system, row.conversations)
  {
    var steps := row.conversations;
    messages := [];
    var ongoing := [SystemMessage(row.system)];
    var i := 0;
    while i < |steps|
      invariant 0 <= i <= |steps|
      invariant ongoing == Trajectory(row.system, steps[..i])
      invariant messages == Snapshots(row.system, steps[..i])
    {
      var step := steps[i];
      var content := if step.from == "gpt" then Content(step) else Some(step.value);
      var role := if step.from == "gpt" then "assistant" else "user";
      assert Message(role, content) == Convert(step);
      ongoing := ongoing + [Message(role, content)];
      ExtendTurn(row.system, steps, i);
      if step.from == "gpt" {
        messages := messages + [ongoing];
      }
      i := i + 1;
    }
    assert steps[..i] == steps;
  }

  /** One more step adds its message to the trajectory, and its snapshot when it is a
      `gpt` step. */
  lemma ExtendTurn(system: string, steps: seq<Step>, i: nat)
    requires i < |steps|
    ensures Trajectory(system, steps[..i + 1]) == Trajectory(system, steps[..i]) + [Convert(steps[i])]
    ensures Snapshots(system, steps[..i + 1]) == Snapshots(system, steps[..i])
      + (if steps[i].from == "gpt" then [Trajectory(system, steps[..i + 1])] else [])
  {
    var prefix := steps[..i + 1];
    assert prefix[..i] == steps[..i] && prefix[i] == steps[i];
    TrajectoryStep(system, steps, i);
  }

  lemma TrajectoryStep(system: string, steps: seq<Step>, i: nat)
    requires i < |steps|
    ensures Trajectory(system, steps[..i + 1]) == Trajectory(system, steps[..i]) + [Convert(steps[i])]
  {
    var t, u := Trajectory(system, steps[..i + 1]), Trajectory(system, steps[..i]) + [Convert(steps[i])];
    assert |t| == |u|;
    forall j | 1 <= j < |t| ensures t[j] == u[j] {
      assert t[j] == Convert(steps[..i + 1][j - 1]);
      if j <= i {
        assert u[j] == Convert(steps[..i][j - 1]);
      }
    }
  }

  /** `s` is the snapshot of a `gpt` step of `steps`: the trajectory up to and including
      that step. */
  predicate IsTurnSnapshot(system: string, steps: seq<Step>, s: seq<Message>) {
    && 2 <= |s| <= |steps| + 1
    && steps[|s| - 2].from == "gpt"
    && s == Trajectory(system, steps[..|s| - 1])
  }

  /** A turn's snapshot starts with the system message and ends with the assistant
      message of that turn. */
  lemma TurnSnapshotEnds(system: string, steps: seq<Step>, s: seq<Message>)
    requires IsTurnSnapshot(system, steps, s)
    ensures s[0] == SystemMessage(system)
    ensures s[|s| - 1] == Convert(steps[|s| - 2]) && s[|s| - 1].role == "assistant"
  {
    var m := |s| - 1;
    assert s[m] == Convert(steps[..m][m - 1]);
    assert steps[..m][m - 1] == steps[m - 1];
  }

  /** One snapshot per `gpt` step. */
  lemma {:induction false} SnapshotsCount(system: string, steps: seq<Step>)
    ensures |Snapshots(system, steps)| == GptCount(steps)
    decreases |steps|
  {
    if steps != [] {
      SnapshotsCount(system, steps[..|steps| - 1]);
    }
  }

  /** Every snapshot is the trajectory up to a `gpt` step. */
  lemma SnapshotsAreTurns(system: string, steps: seq<Step>)
    ensures forall k :: 0 <= k < |Snapshots(system, steps)| ==> IsTurnSnapshot(system, steps, Snapshots(system, steps)[k])
  {
    forall k | 0 <= k < |Snapshots(system, steps)| ensures IsTurnSnapshot(system, steps, Snapshots(system, steps)[k]) {
      SnapshotIsTurn(system, steps, k);
    }
  }

  /** Snapshot `k` is the trajectory up to a `gpt` step. */
  lemma {:induction false} SnapshotIsTurn(system: string, steps: seq<Step>, k: nat)
    requires k < |Snapshots(system, steps)|
    ensures IsTurnSnapshot(system, steps, Snapshots(system, steps)[k])
    decreases |steps|, 1
  {
    var init := steps[..|steps| - 1];
    if k < |Snapshots(system, init)| {
      EarlierSnapshotIsTurn(system, steps, k);
    } else {
      LastSnapshotIsTurn(system, steps, k);
    }
  }

  /** A snapshot taken before the last step. */
  lemma {:induction false} EarlierSnapshotIsTurn(system: string, steps: seq<Step>, k: nat)
    requires steps != [] && k < |Snapshots(system, steps[..|steps| - 1])|
    ensures k < |Snapshots(system, steps)|
    ensures IsTurnSnapshot(system, steps, Snapshots(system, steps)[k])
    decreases |steps|, 0
  {
    var init := steps[..|steps| - 1];
    var x := Snapshots(system, init)[k];
    assert Snapshots(system, steps)[k] == x;
    SnapshotIsTurn(system, init, k);
    assert init[..|x| - 1] == steps[..|x| - 1];
  }

  /** The snapshot of the last step. */
  lemma LastSnapshotIsTurn(system: string, steps: seq<Step>, k: nat)
    requires steps != [] && |Snapshots(system, steps[..|steps| - 1])| <= k < |Snapshots(system, steps)|
    ensures IsTurnSnapshot(system, steps, Snapshots(system, steps)[k])
  {
    assert Snapshots(system, steps)[k] == Trajectory(system, steps);
    assert steps[..|steps|] == steps;
  }

  /** The snapshots grow strictly from one turn to the next. */
  lemma {:induction false} SnapshotsIncreasing(system: string, steps: seq<Step>)
    ensures forall i, j :: 0 <= i < j < |Snapshots(system, steps)| ==>
      |Snapshots(system, steps)[i]| < |Snapshots(system, steps)[j]|
    decreases |steps|
  {
    if steps != [] {
      var init := steps[..|steps| - 1];
      SnapshotsIncreasing(system, init);
      var r, r0 := Snapshots(system, steps), Snapshots(system, init);
      forall i, j | 0 <= i < j < |r| ensures |r[i]| < |r[j]| {
        assert r[i] == r0[i];
        if j < |r0| {
          assert r[j] == r0[j];
        } else {
          assert r[j] == Trajectory(system, steps);
        }
      }
    }
  }

  /** The trajectory of a prefix of the steps is a prefix of the trajectory. */
  lemma TrajectoryPrefix(system: string, steps: seq<Step>, m: nat)
    requires m <= |steps|
    ensures Trajectory(system, steps)[..m + 1] == Trajectory(system, steps[..m])
  {
    var t, u := Trajectory(system, steps)[..m + 1], Trajectory(system, steps[..m]);
    assert |t| == |u|;
    forall i | 1 <= i < |t| ensures t[i] == u[i] {
      assert t[i] == Convert(steps[i - 1]);
      assert u[i] == Convert(steps[..m][i - 1]);
    }
  }

  /** Snapshot `k` is a strict prefix of snapshot `k + 1`. */
  lemma SnapshotsChain(system: string, steps: seq<Step>, k: nat)
    requires k + 1 < |Snapshots(system, steps)|
    ensures |Snapshots(system, steps)[k]| < |Snapshots(system, steps)[k + 1]|
    ensures Snapshots(system, steps)[k] == Snapshots(system, steps)[k + 1][..|Snapshots(system, steps)[k]|]
  {
    SnapshotsIncreasing(system, steps);
    SnapshotIsTurn(system, steps, k);
    SnapshotIsTurn(system, steps, k + 1);
    TurnSnapshotsNest(system, steps, Snapshots(system, steps)[k], Snapshots(system, steps)[k + 1]);
  }

  /** Of two turn snapshots, the shorter is a prefix of the longer. */
  lemma TurnSnapshotsNest(system: string, steps: seq<Step>, a: seq<Message>, b: seq<Message>)
    requires IsTurnSnapshot(system, steps, a) && IsTurnSnapshot(system, steps, b) && |a| < |b|
    ensures a == b[..|a|]
  {
    TrajectoryPrefix(system, steps[..|b| - 1], |a| - 1);
    assert steps[..|b| - 1][..|a| - 1] == steps[..|a| - 1];
  }

  /** Every `gpt` step has its snapshot: the trajectory up to and including it. */
  lemma {:induction false} EveryTurnHasSnapshot(system: string, steps: seq<Step>, p: nat)
    requires p < |steps| && steps[p].from == "gpt"
    ensures Trajectory(system, steps[..p + 1]) in Snapshots(system, steps)
    decreases |steps|
  {
    var n := |steps| - 1;
    var r0 := Snapshots(system, steps[..n]);
    var r := Snapshots(system, steps);
    if p == n {
      assert steps[..p + 1] == steps;
      assert r == r0 + [Trajectory(system, steps)];
    } else {
      assert steps[..n][..p + 1] == steps[..p + 1];
      EveryTurnHasSnapshot(system, steps[..n], p);
      var t := Trajectory(system, steps[..p + 1]);
      assert t in r0;
      assert r == r0 + (if steps[n].from == "gpt" then [Trajectory(system, steps)] else []);
      assert r[..|r0|] == r0;
    }
  }

  // ---------------------------------------------------------------------------------------
  // The columns of a sample

  /** `f"{data_path}/{data_name}" if data_name else data_path`. */
  function DataSourceName(dataPath: string, dataName: Option<string>): (r: string)
    ensures dataName.Some? && dataName.value != "" ==> r == dataPath + "/" + dataName.value
    ensures dataName.None? || dataName.value == "" ==> r == dataPath
  {
    if dataName.Some? && dataName.value != "" then dataPath + "/" + dataName.value else dataPath
  }

  /** One sample: where it comes from (`id` the row, `turn` the snapshot), the prompt
      messages, the expected answer and the reward bookkeeping. */
  datatype Sample = Sample(
    id: nat, turn: nat,
    input: seq<Message>, output: Option<string>, n: nat,
    dataSource: string,
    rewardGroundTruth: Option<string>,
    task: string, extraGroundTruth: Option<string>, rewardPartial: bool)

  /** The columns derived from a snapshot: `input` is all but the last message, `output`
      the last message's content, `N` the length of `input`. */
  function MakeSample(id: nat, turn: nat, trajectory: seq<Message>, dataSource: string): (s: Sample)
    requires trajectory != []
    ensures s.input + [trajectory[|trajectory| - 1]] == trajectory
    ensures s.output == trajectory[|trajectory| - 1].content && s.n == |trajectory| - 1
    ensures s.rewardGroundTruth == s.output && s.extraGroundTruth == s.output
    ensures s.task == s.dataSource == dataSource && s.rewardPartial
  {
    var input := trajectory[..|trajectory| - 1];
    var output := trajectory[|trajectory| - 1].content;
    Sample(id, turn, input, output, |input|, dataSource, output, dataSource, output, true)
  }

  /** The samples of one row, one per snapshot. */
  function RowSamples(id: nat, snaps: seq<seq<Message>>, dataSource: string): (r: seq<Sample>)
    requires forall k :: 0 <= k < |snaps| ==> snaps[k] != []
    ensures |r| == |snaps|
    ensures forall k :: 0 <= k < |snaps| ==> r[k] == MakeSample(id, k, snaps[k], dataSource)
    decreases |snaps|
  {
    if snaps == [] then []
    else
      var k := |snaps| - 1;
      RowSamples(id, snaps[..k], dataSource) + [MakeSample(id, k, snaps[k], dataSource)]
  }

  /** The series `process_row` gives each row, turned into samples, row by row. */
  function RowParts(rows: seq<Row>, dataSource: string): (r: seq<seq<Sample>>)
    ensures |r| == |rows|
  {
    seq(|rows|, i requires 0 <= i < |rows| => RowSamples(i, Snapshots(rows[i].system, rows[i].conversations), dataSource))
  }

  /** The parts one after another. */
  function Stack<T>(parts: seq<seq<T>>): seq<T>
    decreases |parts|
  {
    if parts == [] then [] else Stack(parts[..|parts| - 1]) + parts[|parts| - 1]
  }

  /** `stack().reset_index()`: the stacked samples of every row, row by row and turn by
      turn. */
  function Samples(rows: seq<Row>, dataSource: string): seq<Sample> {
    Stack(RowParts(rows, dataSource))
  }

  /** The `k`-th element of part `i` sits after the elements of the parts before it. */
  lemma {:induction false} StackAt<T>(parts: seq<seq<T>>, i: nat, k: nat)
    requires i < |parts| && k < |parts[i]|
    ensures |Stack(parts[..i])| + k < |Stack(parts)|
    ensures Stack(parts)[|Stack(parts[..i])| + k] == parts[i][k]
    decreases |parts|
  {
    var n := |parts| - 1;
    var init := parts[..n];
    assert Stack(parts) == Stack(init) + parts[n];
    if i == n {
      assert init == parts[..i];
    } else {
      assert init[..i] == parts[..i] && init[i] == parts[i];
      StackAt(init, i, k);
    }
  }

  /** The number of `gpt` steps over all rows. */
  function TotalGpt(rows: seq<Row>): nat
    decreases |rows|
  {
    if rows == [] then 0
    else TotalGpt(rows[..|rows| - 1]) + GptCount(rows[|rows| - 1].conversations)
  }

  lemma RowPartsPrefix(rows: seq<Row>, dataSource: string, i: nat)
    requires i <= |rows|
    ensures RowParts(rows, dataSource)[..i] == RowParts(rows[..i], dataSource)
  {
  }

  /** Stacking gives one sample per `gpt` step of every row. */
  lemma {:induction false} SamplesCount(rows: seq<Row>, dataSource: string)
    ensures |Samples(rows, dataSource)| == TotalGpt(rows)
    decreases |rows|
  {
    if rows != [] {
      var n := |rows| - 1;
      var parts := RowParts(rows, dataSource);
      RowPartsPrefix(rows, dataSource, n);
      assert Stack(parts) == Stack(parts[..n]) + parts[n];
      SamplesCount(rows[..n], dataSource);
      SnapshotsCount(rows[n].system, rows[n].conversations);
    }
  }

  /** `level_0` and `level_1` of the stacked frame: the samples come row by row, and the
      `k`-th sample of row `i` sits after the samples of the rows before it, with `id`
      the row index and `turn` the snapshot index `k`. */
  lemma SamplesLayout(rows: seq<Row>, dataSource: string, i: nat, k: nat)
    requires i < |rows| && k < |Snapshots(rows[i].system, rows[i].conversations)|
    ensures TotalGpt(rows[..i]) + k < |Samples(rows, dataSource)|
    ensures var s := Samples(rows, dataSource)[TotalGpt(rows[..i]) + k];
      && s.id == i && s.turn == k
      && s == MakeSample(i, k, Snapshots(rows[i].system, rows[i].conversations)[k], dataSource)
  {
    var snaps := Snapshots(rows[i].system, rows[i].conversations);
    var x := RowSamples(i, snaps, dataSource);
    assert RowParts(rows, dataSource)[i] == x;
    StackedRow(rows, dataSource, i, k);
    assert x[k] == MakeSample(i, k, snaps[k], dataSource);
  }

  lemma StackedRow(rows: seq<Row>, dataSource: string, i: nat, k: nat)
    requires i < |rows| && k < |RowParts(rows, dataSource)[i]|
    ensures TotalGpt(rows[..i]) + k < |Samples(rows, dataSource)|
    ensures Samples(rows, dataSource)[TotalGpt(rows[..i]) + k] == RowParts(rows, dataSource)[i][k]
  {
    var parts := RowParts(rows, dataSource);
    StackAt(parts, i, k);
    RowPartsPrefix(rows, dataSource, i);
    SamplesCount(rows[..i], dataSource);
    assert Stack(parts[..i]) == Samples(rows[..i], dataSource);
    assert Stack(parts) == Samples(rows, dataSource);
  }

  /** The sample of a row's `k`-th snapshot: for some `gpt` step `p`, the input is the
      system message and the `p` steps before it, `N` is `p + 1`, and the output is what
      `parse_action` extracted from the step, a call text that parses back to itself. */
  lemma SampleOfTurn(id: nat, system: string, steps: seq<Step>, dataSource: string, k: nat)
    requires k < |Snapshots(system, steps)|
    ensures var s := RowSamples(id, Snapshots(system, steps), dataSource)[k];
      && s.id == id && s.turn == k
      && (exists p :: 0 <= p < |steps| && steps[p].from == "gpt"
            && s.input == Trajectory(system, steps[..p]) && s.n == p + 1 && s.output == Content(steps[p]))
      && (s.output.Some? ==> ParseAction(Str(s.output.value), true) == ActionText(s.output.value))
  {
    SnapshotIsTurn(system, steps, k);
    var snap := Snapshots(system, steps)[k];
    var p := |snap| - 2;
    var s := RowSamples(id, Snapshots(system, steps), dataSource)[k];
    assert s == MakeSample(id, k, snap, dataSource);
    assert s.input == snap[..p + 1];
    assert snap == Trajectory(system, steps[..p + 1]);
    TrajectoryPrefix(system, steps[..p + 1], p);
    assert steps[..p + 1][..p] == steps[..p];
    assert s.input == Trajectory(system, steps[..p]);
    assert snap[p + 1] == Convert(steps[..p + 1][p]);
    assert s.output == Content(steps[p]);
    if s.output.Some? {
      StringOnlyIdempotent(steps[p].value);
    }
  }

  // ---------------------------------------------------------------------------------------
  // The split

  datatype Part = Train | Valid | Test

  /** The conditions of the three list comprehensions. */
  predicate InPart(i: nat, part: Part) {
    match part
    case Train => i % 10 < 8
    case Valid => i % 10 == 8
    case Test => i % 10 == 9
  }

  /** `[i for i in range(n) if cond(i)]` for the condition of `part`. */
  function Indices(n: nat, part: Part): (r: seq<nat>)
    ensures forall k :: 0 <= k < |r| ==> r[k] < n
    decreases n
  {
    if n == 0 then [] else Indices(n - 1, part) + (if InPart(n - 1, part) then [n - 1] else [])
  }

  /** The indices of a part are those below `n` that meet its condition, in increasing
      order. */
  lemma {:induction false} IndicesSpec(n: nat, part: Part)
    ensures forall i: nat :: i in Indices(n, part) <==> i < n && InPart(i, part)
    ensures forall a, b :: 0 <= a < b < |Indices(n, part)| ==> Indices(n, part)[a] < Indices(n, part)[b]
    decreases n
  {
    if n > 0 {
      IndicesSpec(n - 1, part);
      var prev, last := Indices(n - 1, part), if InPart(n - 1, part) then [n - 1] else [];
      var r := Indices(n, part);
      assert r == prev + last;
      forall i: nat ensures i in r <==> i < n && InPart(i, part) {
        assert i in r <==> i in prev || i in last;
      }
      forall a, b | 0 <= a < b < |r| ensures r[a] < r[b] {
        if b >= |prev| {
          assert r[b] == n - 1 && r[a] == prev[a];
        } else {
          assert r[a] == prev[a] && r[b] == prev[b];
        }
      }
    }
  }

  /** Every position is in exactly one part. */
  lemma Partition(i: nat)
    ensures InPart(i, Train) || InPart(i, Valid) || InPart(i, Test)
    ensures !(InPart(i, Train) && InPart(i, Valid))
    ensures !(InPart(i, Train) && InPart(i, Test))
    ensures !(InPart(i, Valid) && InPart(i, Test))
  {
  }

  /** Nine in ten go to train or valid: test gets `n / 10`, valid `(n + 1) / 10`, train
      the rest, and together they are all `n`. */
  lemma {:induction false} SplitSizes(n: nat)
    ensures |Indices(n, Test)| == n / 10
    ensures |Indices(n, Valid)| == (n + 1) / 10
    ensures |Indices(n, Train)| + |Indices(n, Valid)| + |Indices(n, Test)| == n
    decreases n
  {
    if n > 0 {
      SplitSizes(n - 1);
      var m := n - 1;
      assert m % 10 == 9 ==> n / 10 == m / 10 + 1;
      assert m % 10 != 9 ==> n / 10 == m / 10;
      assert m % 10 == 8 ==> (n + 1) / 10 == (m + 1) / 10 + 1;
      assert m % 10 != 8 ==> (n + 1) / 10 == (m + 1) / 10;
    }
  }

  /** `data_df.loc[indices].reset_index(drop=True)`: the rows at the given positions, in
      that order. */
  function Select<T>(rows: seq<T>, indices: seq<nat>): (r: seq<T>)
    requires forall k :: 0 <= k < |indices| ==> indices[k] < |rows|
    ensures |r| == |indices| && forall k :: 0 <= k < |indices| ==> r[k] == rows[indices[k]]
  {
    seq(|indices|, k requires 0 <= k < |indices| => rows[indices[k]])
  }

  /** The three frames, the samples already sorted by length. */
  function Split<T>(rows: seq<T>): (r: (seq<T>, seq<T>, seq<T>))
    ensures |r.0| + |r.1| + |r.2| == |rows|
  {
    IndicesSpec(|rows|, Train);
    IndicesSpec(|rows|, Valid);
    IndicesSpec(|rows|, Test);
    SplitSizes(|rows|);
    (Select(rows, Indices(|rows|, Train)), Select(rows, Indices(|rows|, Valid)), Select(rows, Indices(|rows|, Test)))
  }
}
