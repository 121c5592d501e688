# A verified model of DirectCD

DirectCD runs continuous-delivery jobs. Each job follows a git repository: it pulls, picks the
highest version tag that its configuration allows, builds an image, syncs a folder, applies a
Kubernetes manifest, waits for readiness, and remembers the tag it reached. Jobs restart
themselves when their job file changes. The project models this controller in Dafny and proves
what holds in every run, whatever the repository, the cluster, the disk and the commands answer.

| file | what it models |
|---|---|
| `GoStrings.dfy` | `TrimPrefix`, `Split`, `Atoi`, `Itoa` over real strings, int64 range and wrap-around included |
| `Tags.dfy` | tags: conversion (value, error or index panic), comparison, the choice of the maximum |
| `Polling.dfy` | the polling schedule and the length of a pass |
| `Reconcile.dfy` | one job: start, pass, run, chain of restarts, as functions of the environment's answers; the log of a run |
| `JobLoop.dfy` | the same job as a class updated in place, proved to do what `Reconcile` says |
| `Outcomes.dfy` | what a start, a pass and a reload come to, with exact conditions: failed commands, sources of the start tag, files |
| `History.dfy` | retry counter, truth of the tag in use, order of the stages |
| `Ceiling.dfy` | ceiling and monotonicity |
| `Convergence.dfy` | convergence and quiescence while nothing changes |
| `Restarts.dfy` | where an instance starts, tag file, downgrade, cadence over restarts |
| `Lifetimes.dfy` | goroutines sharing one `WaitGroup` |
| `Placeholders.dfy` | substitution in job files |
| `Flags.dfy` | the flag parser |

The environment is data: a `StartEnv` for the start of an instance and a `PassEnv` for each pass
say which commands fail, which tags and hashes the repository shows, when the deployment gets
ready, what the cluster serves, how a write ends and what a changed job file holds. A run is the
fold of `Pass` over any finite list of such answers. It leaves a log of targets, stages,
observations and advances, and most properties are read off that log alone. `panic` is status
`Crashed` (the deferred recover ends the job), a plain return is `Returned`.

## What the proofs found

These are places where the code does something other than its comments, names or defaults suggest.
The model follows the code.

- **The ceiling can be exceeded.** `GetMaxTag` starts from the literal `v1.0.0` without comparing it
  with the ceiling. Where the repository lists that tag, a job with the prefix `v` and a ceiling below
  1.0.0 upgrades to it; so does a job whose prefix that tag does not carry, from a negative start tag,
  although the tag does not convert there. `Ceiling.StagesFitExactlyWhenGuarded` gives the exact condition.
- **Not every job converges.** A job that syncs without deploying never records what it synced and
  repeats the sync on every pass; and a job at a tag above everything the repository offers keeps that
  tag. `Convergence.ConvergesExactlyWhen` and `Convergence.SettlesExactlyWhen` say which jobs reach the
  chosen tag and which come to rest.
- **An empty ceiling never loops.** `GetMaxTag` reads an empty `git_max_tag` as `v99.99.99`, but the
  comparison before the loop fails on it and the job exits (`Ceiling.EmptyCeilingNeverLoops`).
- **A job at its ceiling exits for good on the next edit of its job file**
  (`Restarts.ResumesExactlyWhen`).
- **The `v0.0.0` fallback is a tag of the prefix `v` only.** A deploying job with any other prefix, the
  empty one included, that gets it from the cluster never loops (`Restarts.FallbackLoopsExactlyWhen`).
- **Development mode does not keep the cadence of a deploying job** whose interval is below 90
  seconds: polling for readiness alone takes longer. A job that does not deploy keeps any interval
  (`Restarts.KeepsTimeExactlyWhen`).
- **Substituted values can be substituted again.** A value that holds a placeholder, or ends in the
  beginning of one, is rewritten by a later round of the loop; braces alone, as in JSON, do no harm
  (`Placeholders.SimultaneousExactlyWhenHarmless`).
- **Comparison keeps order up to 99 and no further** (`Tags.ComparisonExactUpTo99`).
- **Flags first is not always the same.** `ParseFlagSet` rejects a last flag that lacks its value, where
  the flags-first order would hand it a positional argument (`Flags.ParseFlagSetIsFlagsFirst`).
- **The closing `Parse` of `ParseFlagSet` can fail**, although its comment says it should never:
  after a `--` (`Flags.FailsExactlyWhen`, `Flags.FirstSetAside`).

One branch is modelled as the code has it, although it looks unintended: a configured kubeconfig that
is not a file always ends a deploying job, since the error of a successful write of `KUBE_CONFIG` is
wrapped into a non-nil one (`packages/cdddru/workload.go:68-69`).

## Model

| member | source | states |
|---|---|---|
| GoStrings.SplitJoin | packages/cdddru/lib.go:82 | splitting on the separator undoes joining, for every list of separator-free parts |
| GoStrings.JoinSplit | packages/cdddru/lib.go:82 | joining undoes splitting on every text, and no part holds the separator |
| GoStrings.AtoiItoa | packages/cdddru/lib.go:85-98 | reading back the decimal text of any int64 gives that integer |
| GoStrings.AtoiReads | packages/cdddru/lib.go:85-98 | an optional sign and digits are read as the number they denote by their places, if it fits int64, and are an error otherwise |
| GoStrings.AtoiAcceptsOnly | packages/cdddru/lib.go:85-98 | nothing but an optional sign and at least one digit is read as a number |
| GoStrings.WrapIsCongruent | packages/cdddru/lib.go:101 | a sum that overflows int64 is truncated modulo 2^64 |
| Tags.RenderConvert | packages/cdddru/lib.go:80-103 | under every prefix and for all int64 parts, converting the rendered tag gives the mixed-radix number, wrapped to 64 bits |
| Tags.ConversionReadsParts | packages/cdddru/lib.go:80-103 | for every text, which of the parts after the prefix, if it is carried, decide between number, error and panic |
| Tags.TagWithoutPrefix | packages/cdddru/lib.go:81 | a tag that does not carry the prefix converts as it is |
| Tags.BareVersionConverts | packages/cdddru/lib.go:62-81 | a version served without the prefix converts to the same number |
| Tags.NumberDecodes | packages/cdddru/lib.go:100-101 | div and mod recover major, minor and patch from the number of a plain version |
| Tags.EncodingCollides | packages/cdddru/lib.go:100-101 | just above the stated maximum of 99 two different tags get one number, under every prefix |
| Tags.ComparisonExactUpTo99 | packages/cdddru/lib.go:100-101 | comparison is precedence on all versions with minor and patch up to k if and only if k is at most 99, the maximum that the code states |
| Tags.ComparisonOrdersPlainTags | packages/cdddru/lib.go:193-215 | comparing rendered plain versions under any prefix is the lexicographic precedence of Semantic Versioning 2.0.0, item 11, so the encoding is an order embedding |
| Tags.ComparisonIsTotalPreorder | packages/cdddru/lib.go:193-215 | comparison succeeds exactly when both tags convert, and is then antisymmetric, transitive, and compatible with ties |
| Tags.ComparisonErrors | packages/cdddru/lib.go:193-215 | the error code names the first tag that does not convert |
| Tags.ZeroTag | packages/cdddru/workload.go:93-95 | the downgrade tag converts to zero under every prefix |
| Tags.BaselineByPrefix | packages/cdddru/lib.go:174-178 | the literal v1.0.0 is 10000 for prefix v, panics for exactly two prefixes, and is an error for all others |
| Tags.FallbackByPrefix | packages/cdddru/lib.go:74 | the fallback v0.0.0 is 0 for prefix v, panics for exactly two prefixes, and is an error for all others |
| Tags.GetMaxTag | packages/cdddru/lib.go:173-191 | the one-pass loop returns the declarative choice: first bad tag, or maximum of baseline and tags at or below the ceiling with the first tag attaining it |
| Tags.BestOfIsArgmax | packages/cdddru/lib.go:180-190 | the fold over the tags satisfies the declarative argmax |
| Tags.ArgmaxIsUnique | packages/cdddru/lib.go:180-190 | every choice that satisfies the declarative argmax is the one the fold computes |
| Tags.FailsExactlyOnBadTag | packages/cdddru/lib.go:181-184 | the choice fails exactly when some tag does not convert |
| Tags.ChoiceIgnoresOrder | packages/cdddru/lib.go:180-190 | permuting the tags changes neither failure nor the number chosen |
| Tags.ChoiceAtTheEdges | packages/cdddru/lib.go:173-179 | without tags the literal is chosen, with 10000 under v and 0 under a prefix that cannot read it; an empty ceiling is v99.99.99 |
| Polling.GetIntervals | packages/cdddru/utils.go:205-229 | the array it returns holds the schedule |
| Polling.FillLongSchedule | packages/cdddru/utils.go:212-227 | the loop that fills the array in place computes the capped shares and leaves the rest to the last wait |
| Polling.IntervalsConserveBudget | packages/cdddru/utils.go:205-229 | for every input, with c the larger of it and 120, the waits add up to exactly 3c/4 in the long schedule, and to five times the fifth of it otherwise |
| Polling.IntervalsAreLongest | packages/cdddru/utils.go:205-229 | for every input the whole schedule: even, or 120 and then each wait the longest that is at most twice the one before and an even share of what is left |
| Polling.IntervalsShape | packages/cdddru/utils.go:205-229 | for every input all waits are at least 18 seconds, none is shorter than the one before, and the middle ones at most double |
| Polling.EvenSplitExactlyWithoutCap | packages/cdddru/utils.go:215-226 | the last four waits differ by at most one exactly when a quarter of what the first leaves of 3c/4 is at most 240 |
| Polling.PartialTotals | packages/cdddru/workload.go:334-344 | polling that stops after any number of waits stays within the budget |
| Polling.CadenceExactlyFrom90 | packages/cdddru/workload.go:331-403 | a pass that polls lasts exactly the check interval, however early the polling stops, if and only if the interval is at least 90 |
| Polling.FinalSleepIsAQuarter | packages/cdddru/workload.go:403 | from 120 up the final sleep is at least a quarter of the interval and at least 30 seconds |
| JobLoop.GetTagsFromGitRepo | packages/cdddru/lib.go:154-171 | collects the tags under the prefix in order |
| JobLoop.Job.PollReadiness | packages/cdddru/workload.go:330-344 | polls at most five times, stops at the first readiness, and waits the matching part of the schedule |
| JobLoop.Job.Reload | packages/cdddru/workload.go:376-399 | suspends while the reloaded job is inactive, then hands over to a successor under the clamped configuration |
| JobLoop.Job.RunPass | packages/cdddru/workload.go:156-405 | one turn of the loop, from the pull to the final sleep |
| JobLoop.Job.RunOneJob | packages/cdddru/workload.go:16-406 | the whole instance is the start followed by the passes; at the loop head the retry counter is the number of failed applies on the record and at most three, the tag in use is at most the larger of ceiling and baseline, and the tag file holds it if all writes succeeded |
| Outcomes.StartTakesItsTag | packages/cdddru/workload.go:72-139 | in a start that goes well the tag is the one the cluster serves, for a deploying job, else the saved one, else the configured one; below the ceiling the job loops there, above a positive one at the zero tag, with that tag saved |
| Outcomes.OtherStartsEnd | packages/cdddru/workload.go:29-133 | how every other start ends |
| Outcomes.UpgradesExactlyWhen | packages/cdddru/workload.go:191-205 | another tag is wanted when its number is higher, the tag in use exactly when its commit changed with the pull |
| Outcomes.PreparationDecides | packages/cdddru/workload.go:158-198 | a pass whose checkout, pull or listing fails returns, one that cannot choose or read the tag in use stops, and nothing changes |
| Outcomes.FailedCommandEndsPass | packages/cdddru/workload.go:211-326 | the first command of an upgrade that fails ends the pass, with a panic for build and sync and a return for the others; no later command is run, and tag and files stay |
| Outcomes.PlayStopsAtFirstFailure | packages/cdddru/workload.go:211-326 | playing a list of commands stops at the first that fails, whatever comes after it |
| Outcomes.RunEndsAtFirstFailure | packages/cdddru/workload.go:156-367 | in every run the first pass in which a reached command fails is the last |
| Outcomes.PassAdvancesExactlyWhen | packages/cdddru/workload.go:251-256 | without a failure, tag in use and tag file change exactly when a deployment is ready and read back, or a job that only builds has built |
| Outcomes.PassEndsAs | packages/cdddru/workload.go:346-403 | without a failure, a pass panics exactly on an unreadable cluster or at the fourth failed attempt on one target; else it returns, reloads or goes on |
| Outcomes.PassPausesFor | packages/cdddru/workload.go:331-403 | a pass has polled for the waits up to the first readiness, and sleeps for what is left |
| Outcomes.ReloadingExactly | packages/cdddru/workload.go:376-399 | a restart happens exactly on the first active configuration, all before it being inactive, with its interval raised to 120 only where it is shorter outside development mode; a failed reload first ends the job; otherwise it is suspended |
| Outcomes.ChainHandsOver | packages/cdddru/workload.go:396-399 | each instance of a chain runs under the configuration and on the files that its predecessor left, and the chain goes on after every restart |
| Outcomes.TagFilesDiffer | packages/cdddru/workload.go:38-42 | jobs with one configured path, or with names without dots, share a tag file only if path and name agree |
| Outcomes.InstanceKeepsOtherFiles | packages/cdddru/workload.go:98-353 | an instance touches no file but its own tag file |
| History.InstanceCountsFailures | packages/cdddru/workload.go:186-189 | in every run of every instance the retry counter at a loop head is the number of applies since the last success or target change, lies in 0..3, and no target number gets more than four applies in a row |
| History.RunRecorded | packages/cdddru/workload.go:239-366 | in every run the stages of a pass come once each, in order, without gaps and on the target just chosen, and each advance follows what justifies it |
| History.RunIsTruthful | packages/cdddru/workload.go:350-356 | a deploying job holds its start tag or a tag that was applied, seen ready and read back; a job that syncs without deploying holds its start tag for the whole run |
| Ceiling.EmptyCeilingNeverLoops | packages/cdddru/workload.go:135-138 | with an empty ceiling no instance enters the loop |
| Ceiling.CandidateIsFromRepository | packages/cdddru/lib.go:154-191 | a chosen tag is the literal or a repository tag under the prefix |
| Ceiling.CandidateIsHighest | packages/cdddru/lib.go:154-191 | there is a choice exactly when every listed tag under the prefix converts, and then no such tag at or below the ceiling is higher |
| Ceiling.TagsWithPrefixInTwo | packages/cdddru/lib.go:154-171 | filtering keeps the order and number of the listed tags |
| Ceiling.TargetFits | packages/cdddru/workload.go:181-219 | a wanted upgrade to a listed tag aims at a tag whose number is the target number, not below the tag in use, and not above the ceiling unless it is the literal |
| Ceiling.RunFits | packages/cdddru/workload.go:156-367 | every stage and advance of every run fits between the tag in use and the bound, and loop heads are well formed |
| Ceiling.StagesFitExactlyWhenGuarded | packages/cdddru/workload.go:135-219 | the exact condition, decidable before the loop, under which no run touches a tag outside the range from the tag in use to the bound, over repositories where only listed tags resolve |
| Ceiling.LoopHeadsConvert | packages/cdddru/workload.go:194-195 | ceiling and tag in use convert at every loop head, the latter between start tag and the larger of ceiling and baseline |
| Convergence.StageExactlyWhenWanted | packages/cdddru/workload.go:191-219 | while commands succeed, a pass runs a stage exactly when the target is listed and is higher, or is the tag in use and moved to another commit |
| Convergence.Quiescence | packages/cdddru/workload.go:156-205 | once no upgrade is wanted, no still pass runs a stage, moves the tag or writes the file |
| Convergence.DeployConverges | packages/cdddru/workload.go:294-366 | a deploying job that wants an upgrade stops or holds the chosen tag within the attempts it has left, at most four |
| Convergence.BuildConverges | packages/cdddru/workload.go:251-256 | a job that only builds holds the chosen tag after one pass, and stops exactly when the repository does not list it |
| Convergence.NeverSettles | packages/cdddru/workload.go:251-292 | a job that syncs without deploying wants the same listed upgrade for ever and syncs on every pass |
| Convergence.ConvergesExactlyWhen | packages/cdddru/workload.go:156-367 | from any loop head of any instance, four still passes always end stopped or holding the chosen tag if and only if it is held already, or is higher and gets recorded or is not listed, or the next pass ends the job |
| Convergence.SettlesExactlyWhen | packages/cdddru/workload.go:156-367 | from any loop head of any instance, four still passes always end stopped or wanting no upgrade if and only if none is wanted, or upgrades get recorded, or the wanted tag is not listed |
| Convergence.HigherThanRepositoryStays | packages/cdddru/workload.go:200-205 | a concrete deploying job that never holds the chosen tag: at v1.5.0 over a repository that offers v1.2.0 |
| Restarts.LoopsExactlyWhen | packages/cdddru/workload.go:29-139 | when nothing fails, which jobs enter the loop, both directions |
| Restarts.FallbackLoopsExactlyWhen | packages/cdddru/lib.go:74 | when the cluster serves the fallback tag, a deploying job loops exactly when it is active and clones, its prefix is v, and its ceiling is positive |
| Restarts.RunKeepsFile | packages/cdddru/workload.go:253-254 | with successful writes the tag file holds the tag in use; with writes that fail cleanly it holds a tag that was in use |
| Restarts.FileNeverAhead | packages/cdddru/workload.go:352-354 | the saved tag converts and its number is at most that of the tag in use |
| Restarts.RestartResumes | packages/cdddru/workload.go:72-99 | a restarted job that reads back its file, or its tag from the cluster, selects exactly the tag its predecessor held, and resumes there or at the zero tag |
| Restarts.ResumesExactlyWhen | packages/cdddru/workload.go:92-138 | over two consecutive instances: the successor goes on with the held tag exactly when it clones and that tag is below its ceiling, and loops at all exactly then or above a positive ceiling |
| Restarts.DowngradeStaysBelow | packages/cdddru/workload.go:92-99 | after a downgrade everything stays between zero and the larger of new ceiling and baseline |
| Restarts.ZeroSettles | packages/cdddru/workload.go:93-205 | a job that starts over from the zero tag, if it still runs after four passes over a still repository, holds the tag that GetMaxTag defines for its ceiling, or the zero tag when none is above zero |
| Restarts.DowngradeAcrossRestart | packages/cdddru/workload.go:72-399 | over two consecutive instances: if the predecessor held a tag above the positive ceiling it restarts under, its successor loops from the saved zero tag, keeps every stage below its own bound, and settles on the tag that GetMaxTag defines for the new ceiling |
| Restarts.ChainStaysBelow | packages/cdddru/workload.go:376-399 | over any chain of reloads and configurations, every instance with a guarded start keeps every stage between its tag in use and the larger of its own ceiling and baseline |
| Restarts.RunKeepsCadence | packages/cdddru/workload.go:403 | after n passes exactly n check intervals have gone by, in every mode, for every job that does not poll and for every interval of at least 90 |
| Restarts.KeepsTimeExactlyWhen | packages/cdddru/workload.go:331-403 | over all runs that start with an upgrade to do, n passes always take n intervals if and only if the interval is not negative and the job does not deploy or the interval is at least 90 |
| Restarts.ChainKeepsCadence | packages/cdddru/init.go:225-227 | over every chain of reloads each instance that can keep its interval does, and outside development mode every instance can |
| Lifetimes.CounterIsExact | main.go:41-44 | for any jobs and any interleaving the counter is live instances plus added ones, never negative, positive at every restart Add and every Done; one Done per instance, one worker per job |
| Lifetimes.WaitPassesExactlyAtTheEnd | main.go:59 | Wait can pass exactly when all jobs are spawned and all their chains ended, and afterwards nothing can happen |
| Lifetimes.NeverStuck | packages/cdddru/workload.go:23-28 | until Wait passes some goroutine can move |
| Lifetimes.RunLengthIsFixed | packages/cdddru/workload.go:396-399 | a complete run takes exactly 4 steps a job, 3 a restart and 2 of main, whatever the interleaving |
| Lifetimes.RestartHandsOver | packages/cdddru/workload.go:396-399 | a working instance can always leave or restart; after a restart it is gone with one Done, a new one works on its job, and the counter is unchanged |
| Placeholders.TrimSpaceTrims | packages/cdddru/utils.go:186 | trimming removes the spaces of both ends and nothing else |
| Placeholders.SpacesAre | packages/cdddru/utils.go:186 | the characters that trimming removes |
| Placeholders.LazyStopsAtFirstClose | packages/cdddru/utils.go:187 | on every text a match ends at the first closing braces and never crosses a line break |
| Placeholders.FindAllFromTheLeft | packages/cdddru/utils.go:194 | on every text the first match is found, and then those in what follows it |
| Placeholders.FindAllNothing | packages/cdddru/utils.go:194 | no match is found where none is |
| Placeholders.ReplaceAllFromTheLeft | packages/cdddru/utils.go:200 | on every text the occurrences are replaced from the left |
| Placeholders.ReplaceEnvs | packages/cdddru/utils.go:185-203 | the loop performs one ReplaceAll per match of the trimmed text |
| Placeholders.FindAllFindsNames | packages/cdddru/utils.go:194 | on a well-formed text the matches are its placeholders in order |
| Placeholders.SequentialIsSimultaneous | packages/cdddru/utils.go:197-201 | replacing names one after another, in any order and with duplicates, is the simultaneous substitution, for all values that are harmless to each other |
| Placeholders.SimultaneousExactlyWhenHarmless | packages/cdddru/utils.go:197-201 | for given values, the loop is the simultaneous substitution of every well-formed template if and only if no value makes a placeholder, in it or at its end, of a name that is not its own value |
| Placeholders.ValueExactlyWhenHarmless | packages/cdddru/utils.go:197-201 | one value never does harm, in any template and beside any harmless values, if and only if no placeholder starts in it |
| Placeholders.LoopSubstitutes | packages/cdddru/utils.go:194-201 | for either kind of placeholder, matching once and then replacing name by name is the simultaneous substitution and leaves no placeholder |
| Placeholders.EnvsAreSubstituted | packages/cdddru/utils.go:185-203 | the result of ReplaceEnvs is the simultaneous substitution and holds no placeholder |
| Placeholders.UnsetNamesVanish | packages/cdddru/utils.go:199 | a set name becomes its value, an unset one nothing |
| Placeholders.BracedValueIsReplacedAgain | packages/cdddru/utils.go:197-201 | a concrete harmful value: one that looks like a placeholder is replaced again |
| Placeholders.GetFieldValue | packages/cdddru/types.go:131-159 | the loop over the names of a path: string, error or panic |
| Placeholders.WalkExactly | packages/cdddru/types.go:131-159 | a path gives a text exactly when names at its front lead to that string, and panics exactly on an unexported string or a field that has no fields |
| Placeholders.ColonsSeparateNames | packages/cdddru/types.go:132 | the names of a path are separated by colons |
| Placeholders.FoundIgnoresTheRest | packages/cdddru/types.go:147-154 | names after the first string on the way are ignored |
| Placeholders.ReplaceConfigFields | packages/cdddru/types.go:104-129 | replaces exactly when every path leads to a string, reports changed exactly when a placeholder exists, and otherwise the first bad path decides between error and panic |
| Placeholders.FieldsAreSubstituted | packages/cdddru/types.go:104-129 | the result of ReplaceConfigFields is the simultaneous substitution and holds no placeholder |
| Placeholders.StagesAreSubstitutions | packages/cdddru/init.go:182-213 | the two stages of getOneConfig are one simultaneous substitution after another; without a placeholder for the second, the text of the first is taken as it is |
| Flags.ParseFlagSet | packages/cdddru/utils.go:24-45 | the loop terminates and leaves the assignments and arguments of the rounds |
| Flags.ParseLeavesSuffix | packages/cdddru/utils.go:30-31 | Parse consumes a prefix of the arguments |
| Flags.FrontOfNamedFlag | packages/cdddru/utils.go:30 | a boolean flag is set to true by its name, any other takes the next argument for its value |
| Flags.FrontOfInlineFlag | packages/cdddru/utils.go:30 | a flag with an equals sign takes the text after it for its value |
| Flags.FrontOfOthers | packages/cdddru/utils.go:30 | what is no flag, what ends the flags, and what is malformed |
| Flags.ParseReadsRendered | packages/cdddru/utils.go:30 | Parse reads written-out assignments back, in their order, and goes on after them |
| Flags.RoundsReadArguments | packages/cdddru/utils.go:26-40 | the rounds fail exactly on a bad flag, and what they set aside is read off the arguments |
| Flags.FlagsFirstPermutes | packages/cdddru/utils.go:22-23 | flag tokens, good or bad, followed by positional arguments are a permutation of the arguments |
| Flags.TokensParseAsRounds | packages/cdddru/utils.go:26-40 | one Parse of the flag tokens makes the assignments of the rounds and fails as they do, unless a last flag takes up a positional argument |
| Flags.ParseFlagSetIsFlagsFirst | packages/cdddru/utils.go:22-45 | without a terminator, the whole function makes the assignments of one Parse of the flags-first permutation and fails or succeeds as it does, if and only if no last flag that lacks its value finds a positional argument it accepts |
| Flags.FlagsFirstCanSucceedAlone | packages/cdddru/utils.go:22-23 | a concrete command line of that family |
| Flags.LastParseIsFaithful | packages/cdddru/utils.go:41-44 | the closing Parse leaves the positional arguments alone exactly when the first does not look like a flag |
| Flags.FirstSetAside | packages/cdddru/utils.go:41-44 | that happens exactly when complete flags and then a terminator lead up to an argument that looks like a flag |
| Flags.FailsExactlyWhen | packages/cdddru/utils.go:24-45 | the function fails exactly on a bad flag among the arguments, or, in the closing Parse, among the leading flags of what was set aside |
| Flags.LastParseCanFail | packages/cdddru/utils.go:43 | a concrete command line on which the closing Parse fails |

## Left out

- Git, ssh-agent, docker, rsync, kubectl and the file system: their answers are parameters of `StartEnv` and `PassEnv`, and every theorem holds for all of them.
- The regular expression of `GetImageTag`: the cluster may serve any tag, be unreachable, or panic on a pattern that does not compile.
- YAML and JSON parsing, Go templates and SHA-256: the parsed configuration and whether the hash changed are parameters. Parsing is a function of the text, so both stages of `getOneConfig` see the same one.
- A job file that vanishes between the hash check and the reload: the reload is assumed to give a configuration or an error.
- The working directory and the environment variables that jobs share, and two jobs with one tag file at the same time (`Outcomes.TagFilesDiffer` says which have one).
- `Startup`: directory walk and duplicate-name check. Logging, colours, `SetParentLinks`, the unfinished image-watch branch.
- Overflow of check intervals and the bound of 2^63-1 passes: intervals and pass counts are unbounded integers. Tag numbers do wrap.
- Lifetimes: the instances there choose freely between leaving and restarting; that choice is not tied to the status that module Reconcile computes, so the theorems hold for every such choice. They are a state machine on values, since the point is interleaving.
- Flags.ParseFlagSet: Go's flag package is modelled after its documentation, with the set of accepted values as a parameter; the assignments of a failed parse are stated, the arguments it then leaves are not.
