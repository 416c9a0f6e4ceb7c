# A verified model of the rca evaluation harness, parsers and pairwise rewards

This project models, in Dafny, the core of the `rca` reasoning-coding-agents repository:

- **Sandboxed patch evaluation** (`rca/utils/mini_swe.py`, `rca/environments/apptainer_env.py`).
  It covers how a task instance's container image name is resolved per dataset family.
  It covers how `ApptainerEnvironment.execute` builds the `apptainer exec` argument vector:
  isolation flags, `--pwd`, forwarded and configured `--env` pairs, then `--writable <sandbox> bash -c <command>`.
  It covers how `get_environment` builds the environment and runs the optional startup command.
  It covers how `evaluate_trajectory` applies a patch through a quoted here-document, runs the
  evaluation script with a one-hour timeout, and fills in `resolved` and `eval_error`.
  Processes are a function from (the commands already run in the sandbox, the new
  invocation) to an outcome, so later results may depend on what an earlier command changed.
  How bash reads a here-document with a quoted delimiter is modelled in module `Heredoc`.
- **Action parsing** (`rca/utils/parsing.py`, `parse_action` of `rca/construct_dataset.py`).
  The lazy, DOTALL regular expressions `<function=(.*?)>(.*?)</function>` and
  `<parameter=(.*?)>(.*?)</parameter>` are modelled by explicit scans. The scan is proved to
  return the leftmost match in the backtracking order of the regex engine. `findall` is
  modelled, and so is the dict comprehension with its last-value-wins rule.
- **SFT data construction** (`data/construct.py`). It covers the per-turn trajectory
  snapshots of a conversation, the sample columns derived from them, and the 8/1/1
  train/valid/test split by position.
- **GRPO pairwise-judge bookkeeping** (`rca/grpo.py`). It covers `extract_boxed_content`,
  the chunking of a batch into groups of `n_rollouts`, and the pair construction with the
  shrinking `n_compare` and `random.sample`. It covers the verdict of each judge response and
  the per-rollout reward vector.

Python values are modelled as follows. `str` is `string`. A `dict` with string keys is an
insertion-ordered association list (module `PyDict`). An exception is the `Err` side of a
`Result`. Scores are the integers -1, 0 and 1.

The modules are `Wrappers`, `PyStr`, `PyDict`, `Parsing`, `ConstructDataset`,
`ApptainerEnv`, `Heredoc`, `MiniSwe`, `DataConstruct` and `Grpo`, one file each.

## Model

| member | source | states |
|---|---|---|
| Parsing.Search | rca/utils/parsing.py:14 | `re.search` of the function pattern: a found span is a match and precedes every other match in backtracking order; None means no match exists |
| Parsing.ParseStringBetweenTags | rca/utils/parsing.py:4-9 | None exactly when the pattern matches nowhere; otherwise the result is the text the leftmost match covers |
| Parsing.ParseAction | rca/utils/parsing.py:11-34 | None exactly when the argument is not a string or no function match exists; the rebuilt text is returned exactly in `string_only` mode |
| Parsing.StringOnlyIsMatchedText | rca/utils/parsing.py:18-20 | in `string_only` mode the result is the matched text itself, and its name part holds no `>` |
| Parsing.StringOnlyIdempotent | rca/utils/parsing.py:11-20 | parsing a `string_only` result again gives the same result |
| Parsing.Group2HasNoCloser | rca/utils/parsing.py:14 | the lazy body group of the chosen match contains no `</function>` |
| Parsing.FindAllJoined | rca/utils/parsing.py:25-26 | `findall` over parameter elements written one after another returns the written name/value pairs, in order |
| Parsing.ParamsOfBody | rca/utils/parsing.py:23-30 | a call body with whitespace-separated, trimmed parameters gives back exactly those parameters as a dict |
| Parsing.ParseRenderedCall | rca/utils/parsing.py:11-32 | round trip: a call written with a `<`-free lead-in, a name without `>` and trimmed values parses to that name and the dict of its parameters |
| Parsing.SampleParsed | rca/utils/parsing.py:38-50 | the example response parses to `str_replace_editor` with `command`, `path` and `view_range` |
| PyDict.FromPairsSpec | rca/utils/parsing.py:28 | the comprehension has one entry per name, and each name maps to the value of its last occurrence |
| PyStr.StripIdempotent | rca/utils/parsing.py:23 | `strip` is idempotent |
| PyStr.StripShape | rca/utils/parsing.py:23 | `strip` keeps a slice that starts and ends with non-whitespace, and removes only whitespace |
| ConstructDataset.ParseActionPair | rca/construct_dataset.py:9-26 | `(None, {})` exactly when no function match exists; a found name holds no `>`; the argument dict has unique keys |
| ConstructDataset.AgreesWithParseAction | rca/construct_dataset.py:9-26 | this parser and the one of rca/utils/parsing.py agree on every response: None against `(None, {})`, and otherwise the same name and dict |
| ConstructDataset.ParamsLastValue | rca/construct_dataset.py:15-20 | the value of each name is the stripped value of its last parameter in the stripped body |
| ConstructDataset.SampleParsed | rca/construct_dataset.py:38-48 | the example response gives `str_replace_editor` and three arguments |
| ApptainerEnv.WorkDir | rca/environments/apptainer_env.py:23 | `cwd or config.cwd`: the argument when non-empty, else the configured one |
| ApptainerEnv.PwdArgs | rca/environments/apptainer_env.py:24-25 | `--pwd wd` exactly when the work dir is neither empty nor `/` |
| ApptainerEnv.EffectiveTimeout | rca/environments/apptainer_env.py:37 | `timeout or config.timeout`: None and 0 fall back to the configured timeout |
| ApptainerEnv.ExtendForwarded | rca/environments/apptainer_env.py:27-29 | the loop over `forward_env` appends `--env K=V` for the forwarded variables |
| ApptainerEnv.ExtendConfigured | rca/environments/apptainer_env.py:30-31 | the loop over `config.env` appends `--env K=V` for every configured pair |
| ApptainerEnv.ApptainerEnvironment.constructor | rca/environments/apptainer_env.py:10-11 | a new environment keeps its configuration and sandbox and has run nothing yet |
| ApptainerEnv.ApptainerEnvironment.BuildCommand | rca/environments/apptainer_env.py:18-33 | the list grown by `extend` calls equals the argument vector `Argv` |
| ApptainerEnv.ApptainerEnvironment.Execute | rca/environments/apptainer_env.py:16-43 | one process run of that vector with the effective timeout, in the sandbox as earlier runs left it; the run is recorded |
| ApptainerEnv.ForwardedMembers | rca/environments/apptainer_env.py:27-29 | a pair is forwarded exactly when its key is listed, the host defines it, and the value is the host's |
| ApptainerEnv.ForwardedCount | rca/environments/apptainer_env.py:27-29 | at most one pair per listed key; when the host defines all of them, exactly one each, in listed order |
| ApptainerEnv.EnvArgsShape | rca/environments/apptainer_env.py:29-31 | two arguments per variable: `--env`, then `K=V` |
| ApptainerEnv.ArgvPrefix | rca/environments/apptainer_env.py:18-21 | the vector starts with the executable, `exec` and the four isolation arguments |
| ApptainerEnv.ArgvSuffix | rca/environments/apptainer_env.py:33 | the vector ends with `--writable`, the sandbox, `bash`, `-c` and the command as one argument |
| ApptainerEnv.ArgvLength | rca/environments/apptainer_env.py:18-33 | 6 fixed arguments, 2 for `--pwd`, 2 per forwarded and per configured variable, and 5 fixed at the end |
| ApptainerEnv.ArgvPwd | rca/environments/apptainer_env.py:23-25 | `--pwd` and the work dir follow the head exactly when the work dir is neither empty nor `/` |
| ApptainerEnv.ArgvEnv | rca/environments/apptainer_env.py:27-31 | between `--pwd` and `--writable` come only `--env K=V` pairs: the forwarded variables first, then the configured ones |
| Heredoc.UnlinesLines | rca/utils/mini_swe.py:76 | splitting a text into lines and writing each line with a newline gives the text back with a final newline |
| Heredoc.FramedDelivers | rca/utils/mini_swe.py:76 | a framed body reaches the command intact exactly when none of its lines is the delimiter; otherwise the command receives less |
| MiniSwe.FamilyOf | rca/utils/mini_swe.py:25-35 | the family is chosen by a substring test on the lower-cased source: swe-gym first, then swe-bench, then swe-smith; otherwise there is none |
| MiniSwe.ImageName | rca/utils/mini_swe.py:19-36 | a given `image_name` is returned unchanged; a missing `instance_id` is a KeyError; an unknown source is NotImplementedError with its message |
| MiniSwe.ImageNameLowercase | rca/utils/mini_swe.py:25-33 | a computed name is the family prefix, the lower-cased escaped id and `:latest`, with no upper-case letter |
| MiniSwe.ImageNameNoDoubleUnderscore | rca/utils/mini_swe.py:23-33 | a computed name has no `__` exactly when the id has no run of three underscores |
| MiniSwe.GymTripleUnderscore | rca/utils/mini_swe.py:26-27 | the swe-gym escape turns `a___b` into `a_s__b`, which still holds `__` |
| MiniSwe.SmithSample | rca/utils/mini_swe.py:31-33 | a concrete swe-smith id maps to its expected image name |
| MiniSwe.SweConfig.constructor | rca/utils/mini_swe.py:38-43 | the configuration holds the environment section, the startup command and the cwd |
| MiniSwe.GetEnvironment | rca/utils/mini_swe.py:38-48 | the section is defaulted and gets `docker://` plus the image name; the result and any exception are those of `CreateEnv`, and a new environment carries the startup run |
| MiniSwe.CreateEnvImage | rca/utils/mini_swe.py:39-42 | a built environment's image name resolved, and it comes from the constructor given `docker://` plus that name |
| MiniSwe.StartupFailureRaises | rca/utils/mini_swe.py:43-47 | a startup command that returns non-zero raises `RuntimeError("Error executing startup command: …")` |
| MiniSwe.EvaluateTrajectory | rca/utils/mini_swe.py:50-94 | the result, the exception and the commands run are those of `Evaluate`; the configuration gets its environment section |
| MiniSwe.ApplyFraming | rca/utils/mini_swe.py:75-76 | with a `PATCH_<32 hex>` delimiter, the patch reaches `git apply` intact exactly when no patch line equals the delimiter |
| MiniSwe.EvalFraming | rca/utils/mini_swe.py:84-85 | the script reaches `bash` intact exactly when no script line is `EOF` |
| MiniSwe.EvalScriptWithEofLine | rca/utils/mini_swe.py:85 | a script with an `EOF` line is cut short |
| MiniSwe.EnvFailureReported | rca/utils/mini_swe.py:60-69 | any failure to create the environment returns an unresolved result `Env creation failed with …` and runs nothing |
| MiniSwe.UnsupportedSourceReported | rca/utils/mini_swe.py:35 | an unsupported data source becomes an unresolved result with its message, not an exception |
| MiniSwe.StartupFailureCaught | rca/utils/mini_swe.py:45-47 | a failing startup command's RuntimeError is caught and reported in `eval_error` |
| MiniSwe.CallsMade | rca/utils/mini_swe.py:76-87 | no calls before an environment exists; then the patch in the configured cwd (default `/`) with the configured timeout; then the script with 3600 s, only after the patch applied |
| MiniSwe.ApplyFailureReported | rca/utils/mini_swe.py:80-81 | a failed patch application returns its raw output as `eval_error`, and the script never runs |
| MiniSwe.ResolvedIffTestsPass | rca/utils/mini_swe.py:89 | `resolved` holds exactly when the patch applied and the script then returned 0 |
| MiniSwe.ErrorIffUnresolved | rca/utils/mini_swe.py:57-93 | a returned result names the instance and carries `eval_error` exactly when unresolved |
| MiniSwe.DiagnosticBounded | rca/utils/mini_swe.py:91-93 | a failed script's `eval_error` is the truncation note plus a suffix of its output of at most 1000 characters |
| MiniSwe.TimeoutsPropagate | rca/utils/mini_swe.py:78-87 | a timeout while applying the patch or running the script is raised, not caught |
| DataConstruct.Convert | data/construct.py:31-32 | `gpt` steps speak as the assistant; every other step speaks as the user, with its text unchanged |
| DataConstruct.Trajectory | data/construct.py:26-33 | the system message, then one message per step, in order |
| DataConstruct.ProcessRow | data/construct.py:22-40 | the loop returns exactly the snapshots: the trajectory up to and including each `gpt` step |
| DataConstruct.SnapshotsCount | data/construct.py:35-38 | one snapshot per `gpt` step |
| DataConstruct.SnapshotsAreTurns | data/construct.py:33-38 | every snapshot is the trajectory up to a `gpt` step |
| DataConstruct.TurnSnapshotEnds | data/construct.py:26-38 | a snapshot starts with the system message and ends with that turn's assistant message |
| DataConstruct.SnapshotsChain | data/construct.py:33-38 | each snapshot is a strict prefix of the next one, since `copy` freezes the growing list |
| DataConstruct.EveryTurnHasSnapshot | data/construct.py:35-38 | every `gpt` step has its snapshot |
| DataConstruct.DataSourceName | data/construct.py:52 | `path/name` when a name is given and non-empty, else the path |
| DataConstruct.MakeSample | data/construct.py:48-68 | `input` plus the last message is the snapshot; `output` is the last message's content; `N` is the length of `input`; both ground truths are `output` |
| DataConstruct.RowSamples | data/construct.py:42-47 | one sample per snapshot of a row, numbered by turn |
| DataConstruct.SamplesCount | data/construct.py:42-44 | stacking the rows' series gives one sample per `gpt` step over all rows |
| DataConstruct.SamplesLayout | data/construct.py:42-47 | the samples come row by row: the `k`-th sample of row `i` follows those of the rows before it, with `id` the row index (`level_0`) and `turn` the snapshot index (`level_1`) |
| DataConstruct.SampleOfTurn | data/construct.py:31-50 | a sample's input is the trajectory before some `gpt` step, `N` is its length, and its output is the parsed step, which parses back to itself |
| DataConstruct.IndicesSpec | data/construct.py:74-79 | a part's indices are exactly the positions below `n` that meet its condition, in increasing order |
| DataConstruct.Partition | data/construct.py:77-79 | every position is in exactly one part |
| DataConstruct.SplitSizes | data/construct.py:74-79 | test gets `n/10` rows, valid `(n+1)/10`, and together the parts hold all `n` |
| DataConstruct.Select | data/construct.py:81-83 | `loc[indices]` then `reset_index`: the rows at those positions, in that order |
| DataConstruct.Split | data/construct.py:74-83 | the three frames together hold as many rows as the input |
| Grpo.MatchEndSpec | rca/grpo.py:74 | the pattern `\\boxed\{([^}]+)\}` matches at a position exactly when the result says so, ending at the first `}` after a non-empty group |
| Grpo.MatchesSound | rca/grpo.py:74 | every element of the `finditer` list is the match found at its start |
| Grpo.MatchesEmpty | rca/grpo.py:74 | `finditer` finds nothing from a position exactly when no match starts at or after it |
| Grpo.MatchesLast | rca/grpo.py:74 | no match starts after the closing brace of the last one `finditer` finds |
| Grpo.ExtractBoxed | rca/grpo.py:73-75 | a found value is non-empty and holds no `}` |
| Grpo.ExtractBoxedSpec | rca/grpo.py:73-75 | None exactly when the pattern matches nowhere; otherwise `\boxed{value}` occurs there as a match, and no match starts after it |
| Grpo.ExtractBoxedLast | rca/grpo.py:73-75 | the value is the group of the last match found, and `\boxed{value}` is written there |
| Grpo.ExtractBoxedSample | rca/grpo.py:73-75 | of two boxes, the last one wins |
| Grpo.ExtractBoxedEmptySample | rca/grpo.py:74 | an empty box is no match |
| Grpo.Chunks | rca/grpo.py:113-114 | a zero `n_rollouts` is a ValueError of `range`; a negative one gives no chunk |
| Grpo.ChunksFrom | rca/grpo.py:114 | every chunk is non-empty, increasing and inside the batch; all but the last are full |
| Grpo.ChunksCover | rca/grpo.py:113-114 | the chunks, one after another, are `range(bs)` |
| Grpo.ChunksFull | rca/grpo.py:114 | when `n_rollouts` divides what remains, every chunk is full |
| Grpo.Others | rca/grpo.py:123 | `_chunk` holds exactly the chunk's members other than `i` |
| Grpo.OthersLength | rca/grpo.py:123 | leaving out a member of a chunk removes exactly one element |
| Grpo.EntriesShape | rca/grpo.py:121-123 | the loop turns visit the batch indices in order, each with the rest of its chunk |
| Grpo.BuildPairs | rca/grpo.py:113-125 | the nested loops with their shrinking `n_compare` compute `Pairs`, the fold of the turns |
| Grpo.FoldError | rca/grpo.py:124-125 | the loops fail exactly when a turn happens and `n_compare` starts negative; `n_compare` never grows past its start |
| Grpo.ClampNeverIncreases | rca/grpo.py:124 | `n_compare = min(n_compare, len(_chunk))` never grows from one turn to the next |
| Grpo.SamplerExists | rca/grpo.py:125 | taking the first `k` members of the population is a sample in the sense of `random.sample`, so the lemmas that require one can be used |
| Grpo.OtherSamplerExists | rca/grpo.py:362 | taking the last `k` members is a sample too; `DrawsExample` shows it pairing differently from the first |
| Grpo.SampleMembers | rca/grpo.py:125 | every drawn index is a member of `_chunk` |
| Grpo.SampleDistinct | rca/grpo.py:125 | a sample of a population without repeats has no repeats |
| Grpo.OthersIncreasing | rca/grpo.py:123 | `_chunk` of an increasing chunk is increasing, so it has no repeats |
| Grpo.BatchOthersDistinct | rca/grpo.py:113-123 | no `_chunk` of a batch repeats an index |
| Grpo.FoldFacts | rca/grpo.py:121-125 | each pair comes from one turn, with its second index from that turn's population; first indices never decrease; no partner repeats |
| Grpo.CountsAreClamps | rca/grpo.py:124-125 | a turn's index gets as many pairs as `n_compare` after its clamp; other indices get none |
| Grpo.PairsError | rca/grpo.py:114-125 | the construction raises exactly on a zero step, or on a negative `n_compare` with a non-empty batch |
| Grpo.PairsWellFormed | rca/grpo.py:354-362 | every pair joins two different batch indices of one chunk; pairs are grouped by ascending first index; no partner repeats |
| Grpo.PairCountsBounded | rca/grpo.py:354-362 | an index gets at most `n_compare` and at most `n_rollouts - 1` pairs; indices outside the batch get none |
| Grpo.UniformPairCounts | rca/grpo.py:354-362 | with full chunks and `n_compare >= 0`, every batch index gets exactly `min(n_compare, n_rollouts - 1)` pairs |
| Grpo.FirstsIgnoreDraws | rca/grpo.py:354-362 | for any two samplers the pair lists have the same length and the same first index at every position |
| Grpo.DrawsExample | rca/grpo.py:113-125 | for one chunk of three and `n_compare = 1`, the two samplers give `[(0,1),(1,0),(2,0)]` and `[(0,2),(1,2),(2,1)]`: the partners differ, the first indices do not |
| Grpo.FitWithoutCompare | rca/grpo.py:336-362 | with `compare` unset, the judge prompts are built, but `fit` raises a TypeError |
| Grpo.JudgedPairsAlign | rca/grpo.py:113-125 | with the default applied, the shown and scored pairs agree on the first index at every position, so each verdict goes to the rollout shown as A |
| Grpo.Verdict | rca/grpo.py:367-373 | the score is 1 exactly for a last box `A`, -1 exactly for `B`, otherwise 0 |
| Grpo.CollectScores | rca/grpo.py:364-377 | the loop over `zip(pairwise_idx, judge_responses)` builds `response_idx`, stopping at the shorter list |
| Grpo.CollectSpec | rca/grpo.py:374-377 | an index has a list exactly when some pair has it first; the list holds that index's verdicts in order |
| Grpo.ScoresFor | rca/grpo.py:374-377 | an index has one verdict per pair with it first, each between -1 and 1 |
| Grpo.SumBound | rca/grpo.py:386 | the sum of scores between -1 and 1 is bounded by their number |
| Grpo.RewardsAreSums | rca/grpo.py:364-386 | for any pairs and responses, a reward vector that exists has one entry for each index first in some scored pair, and those indices are `0..n-1`. Each reward is the sum of that index's verdicts, so its absolute value is at most that index's number of pairs |
| Grpo.Rewards | rca/grpo.py:354-386 | with full chunks, every rollout gets `k = min(n_compare, n_rollouts - 1)` verdicts and its reward is their sum, between `-k` and `k`; when `k` is 0 the vector is empty |

## Left out

- Process execution, `subprocess.run` and the here-document shell are not run. A process run
  is a parameter, a function of the earlier commands and the new invocation. The terminated
  process tree, output decoding (`errors="replace"`) and the merge of stderr are not modelled.
  An argument vector over the OS limit `ARG_MAX` makes `subprocess.run` raise an OSError.
  rca/utils/mini_swe.py:72-74 expects such oversized patches to fail. That exception is not
  modelled.
- `MiniSwe.ApplyCwd`: `cwd` is an `Option`, so a missing `"cwd"` key and an explicit
  `"cwd": None` are one case, and both give `/`. With an explicit None, the source passes None
  on, and `execute` falls back to `config.cwd`. That case is not represented.
- The constructor of the Singularity base environment builds the sandbox. It is not part of
  this model: its outcome (configuration and sandbox directory, or the text of its exception)
  is a parameter. The two `print` calls of the `ApptainerEnvironment` constructor are left out.
- Jinja's strict rendering of the startup command is a parameter. So are `str()` of a
  `TimeoutExpired` and the text of the outcome dict inside the `RuntimeError` message.
- `os.getenv` is a map parameter (the host environment). `uuid.uuid4().hex` is a parameter
  constrained to `PATCH_` plus 32 lower-case hex digits.
- Logging (`logger.info`, the traceback) is left out.
- `str.lower` is modelled for ASCII letters only. Other characters are kept unchanged.
- `MiniSwe.ImageName`: its contract states the format only through `ImageNameLowercase`.
  Non-ASCII ids are outside the lower-casing model.
- `Parsing.ParseStringBetweenTags`: the tag is taken as literal text (`IsLiteralTag`). The
  source puts it unescaped into the pattern, so a tag with regular-expression metacharacters
  (`a.b`, `a|b`, `(`) would match other text or raise `re.error`; that is not modelled. The
  default argument `tag="function"` is passed explicitly.
- `ConstructDataset.ParseActionPair`: takes a string. The `parse_action` of
  rca/construct_dataset.py has no `try`, so a non-string response raises a TypeError from
  `re.search`; that exception is not modelled.
- `emac.utils.parse_action` imported by data/construct.py is not part of this model. It is
  taken to be `parse_action` of rca/utils/parsing.py.
- data/construct.py: `load_dataset`, `to_pandas`, argument parsing, `task_name`, `makedirs`
  and the parquet files are I/O and left out. The sort by `N` is left out: `Split` takes
  rows already in that order. `stack().reset_index()` is modelled as the concatenation of
  each row's samples, numbered by row and turn (`SamplesCount`, `SamplesLayout`). The dicts `reward_model` and `extra_info`
  are flattened into fields of `Sample`.
- `DataConstruct.Split`: states only the total size. The membership and sizes of each part
  are stated by `IndicesSpec` and `SplitSizes`.
- rca/grpo.py: only the lines named above are modelled. Out of scope are the tokenizer and
  chat template of `_switch_chat_template`, and the prompt assembly. Also out of scope are
  Ray workers, generation, `compute_log_prob`, `_expand_to_token_level`, KL penalty,
  advantages, checkpointing, GCS upload and the printing.
- `random.sample` is a parameter, a function of the draw number, the population and the size.
  Lemmas that need real samples require every draw of `k <= len(population)` to return `k`
  members taken from distinct positions, so no value is drawn more often than the population
  holds it (`ValidSampler`). Taking the first `k` or the last `k` members meets this
  (`SamplerExists`, `OtherSamplerExists`).
  The draws of `_switch_chat_template` and of `fit` are two independent such parameters.
- Scores are integers, not `float32`. The sums are exact because all scores are -1, 0 or 1.
- `Grpo.ResponseScores`: an empty `response_idx` gives `Ok([])`. The source's
  `torch.tensor([]).sum(dim=-1)` yields a zero-dimensional tensor instead.
- `Grpo.Rewards`: states the exact number of verdicts per rollout only when `n_rollouts`
  divides the batch and one judge response exists per pair. That is the case `fit` sees:
  the batch is repeated `rollout.n` times (rca/grpo.py:293), and `n_rollouts` is that same
  `rollout.n` (line 336). For any other batch, `RewardsAreSums` still gives the shape and
  bounds of a reward vector that exists.
- `reward_fn`, `summarizer_agent` and everything else of rca/grpo.py are not part of this model.

Behaviour of the code that the model keeps, and that a reader might not expect:

- A timeout while applying the patch or running the script is raised, not caught
  (`TimeoutsPropagate`).
- A failing startup command raises in `get_environment`. `evaluate_trajectory` catches every
  exception of `get_environment`, so the failure becomes an unresolved result (`StartupFailureCaught`).
- The evaluation script is framed with the fixed delimiter `EOF`. A script line `EOF` cuts it
  short (`EvalScriptWithEofLine`).
- An id with `___` keeps a `__` in its image name (`GymTripleUnderscore`).
- Forwarded and configured variables are all passed as `--env`, forwarded first. The code
  does not decide which one wins on a repeated name; apptainer does.

## Findings

| source | as written | input that shows it | evidently intended | confidence | as-written member | corrected member |
|---|---|---|---|---|---|---|
| rca/grpo.py:336-362 | `fit` reads `rollout.compare` and computes `min(n_compare, len(_chunk))` without the `None` default that `_switch_chat_template` applies at lines 117-118 | `rollout.compare` unset (None), a non-empty batch and `n_rollouts > 0`: `min(None, n)` raises a TypeError after the judge prompts were built | `fit` defaults `n_compare` to `n_rollouts` as the template does, so the pairs it scores line up with the pairs the judge saw | medium, not executed | Grpo.FitWithoutCompare | Grpo.JudgedPairsAlign |
