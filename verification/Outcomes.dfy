/** What a start, a reload and a pass come to: each outcome with its exact condition, told by
    the commands that are run and by what the environment answers. */
module Outcomes {
  import opened GoStrings
  import opened Tags
  import opened Polling
  import opened Reconcile

  // --- The commands of a pass ---

  datatype Command =
    | CheckoutBranch | Pull | ListTags
    | ResolveTag | CheckoutTag | DockerBuild | Rsync | RenderManifest | SwitchContext | KubectlApply

  const PREPARE := [CheckoutBranch, Pull, ListTags]

  // The commands of an upgrade, in the order in which they are run.
  function UpgradeCommands(cfg: Config): seq<Command> {
    [ResolveTag, CheckoutTag]
    + (if cfg.doBuild then [DockerBuild] else [])
    + (if cfg.doSync then [Rsync] else [])
    + (if cfg.doDeploy then [RenderManifest, SwitchContext, KubectlApply] else [])
  }

  predicate Succeeds(e: PassEnv, tag: string, c: Command) {
    match c
    case CheckoutBranch => e.checkoutOk
    case Pull => e.pullOk
    case ListTags => e.listOk
    case ResolveTag => e.resolveOk && tag in e.tags
    case CheckoutTag => e.tagCheckoutOk
    case DockerBuild => e.buildOk
    case Rsync => e.syncOk
    case RenderManifest => e.manifestOk
    case SwitchContext => e.contextOk
    case KubectlApply => e.applyOk
  }

  function Noted(log: Log, tag: string, c: Command): Log {
    match c
    case DockerBuild => Then(log, Build(tag))
    case Rsync => Then(log, Sync(tag))
    case KubectlApply => Then(log, Apply(tag))
    case _ => log
  }

  // One command after another, until the first that fails.
  datatype Played = Played(log: Log, failed: Option<Command>)

  function Play(e: PassEnv, tag: string, commands: seq<Command>, log: Log): Played {
    if commands == [] then Played(log, None)
    else
      var log' := Noted(log, tag, commands[0]);
      if Succeeds(e, tag, commands[0]) then Play(e, tag, commands[1..], log') else Played(log', Some(commands[0]))
  }

  // A failed build or sync is a panic, any other failed command a return.
  function FailureStatus(c: Command): Status {
    if c == DockerBuild || c == Rsync then Crashed else Returned
  }

  lemma {:induction false} PlayInTwo(e: PassEnv, tag: string, first: seq<Command>, second: seq<Command>, log: Log)
    ensures var p := Play(e, tag, first, log);
      Play(e, tag, first + second, log) == if p.failed.Some? then p else Play(e, tag, second, p.log)
  {
    if first == [] {
      assert first + second == second;
    } else {
      assert (first + second)[1..] == first[1..] + second;
      PlayInTwo(e, tag, first[1..], second, Noted(log, tag, first[0]));
    }
  }

  // Playing stops at the first command that fails, and no later one leaves a trace.
  lemma {:induction false} PlayStopsAtFirstFailure(e: PassEnv, tag: string, commands: seq<Command>, log: Log, k: nat)
    requires k < |commands| && !Succeeds(e, tag, commands[k])
    requires forall j :: 0 <= j < k ==> Succeeds(e, tag, commands[j])
    ensures Play(e, tag, commands, log).failed == Some(commands[k])
    ensures Play(e, tag, commands[..k + 1], log) == Play(e, tag, commands, log)
    decreases k
  {
    if k == 0 {
      assert commands[..1][0] == commands[0];
    } else {
      assert commands[..k + 1][1..] == commands[1..][..k];
      PlayStopsAtFirstFailure(e, tag, commands[1..], Noted(log, tag, commands[0]), k - 1);
    }
  }

  // --- The decision to upgrade ---

  predicate Upgrades(cfg: Config, cur: string, e: PassEnv) {
    var choice, number := Candidate(cfg, e.tags), ConvertTagToNumeric(cur, cfg.prefix);
    && choice.Chosen? && !number.Panicked?
    && WantsUpgrade(cur, NumberOrZero(number), choice.n, choice.tag, HashOf(e.before, cur), HashOf(e.after, choice.tag))
  }

  // Another tag is wanted if its number is higher. The tag in use is wanted again exactly when
  // its commit is another one after the pull; a tag without a tag object has no commit.
  lemma UpgradesExactlyWhen(cfg: Config, cur: string, e: PassEnv)
    requires Candidate(cfg, e.tags).Chosen? && !ConvertTagToNumeric(cur, cfg.prefix).Panicked?
    ensures var choice, number := Candidate(cfg, e.tags), ConvertTagToNumeric(cur, cfg.prefix);
      Upgrades(cfg, cur, e) <==>
        if choice.tag != cur then choice.n > if number.Value? then number.n else 0
        else if cur in e.before && cur in e.after then e.before[cur] != e.after[cur]
        else (cur in e.before && e.before[cur] != "") || (cur in e.after && e.after[cur] != "")
  {
    hide Candidate, ConvertTagToNumeric;
  }

  // --- Failure ---

  // A pass whose preparation fails, or that cannot choose, only stops.
  lemma PreparationDecides(mode: Mode, cfg: Config, s: JobState, e: PassEnv)
    requires s.status.Running?
    ensures var r, choice := Pass(mode, cfg, s, e), Candidate(cfg, e.tags);
      if Play(e, "", PREPARE, s.log).failed.Some? then r == s.(status := Returned)
      else match choice
        case BadTag => r == s.(status := Returned)
        case ChoicePanicked => r == s.(status := Crashed)
        case Chosen(n, tag) =>
          ConvertTagToNumeric(s.cur, cfg.prefix).Panicked? ==>
            r.status == Crashed && r.cur == s.cur && r.files == s.files && r.log == Then(s.log, Target(n, tag))
  {
    hide Candidate, ConvertTagToNumeric, Upgrade;
    PreparationPlayed(e, s.log);
  }

  lemma PreparationPlayed(e: PassEnv, log: Log)
    ensures Play(e, "", PREPARE, log).failed.None? <==> e.checkoutOk && e.pullOk && e.listOk
  {
    assert PREPARE[1..] == [Pull, ListTags] && [Pull, ListTags][1..] == [ListTags] && [ListTags][1..] == [];
    var one := Play(e, "", [ListTags], log);
    assert Play(e, "", [], log) == Played(log, None);
    assert Play(e, "", [Pull, ListTags], log).failed.None? <==> e.pullOk && one.failed.None?;
  }

  // The pass got as far as a choice, and can read the tag in use.
  predicate Decides(cfg: Config, s: JobState, e: PassEnv) {
    && Play(e, "", PREPARE, s.log).failed.None?
    && Candidate(cfg, e.tags).Chosen? && !ConvertTagToNumeric(s.cur, cfg.prefix).Panicked?
  }

  // What the commands of the upgrade, if there is one, come to.
  function PlayedUpgrade(cfg: Config, s: JobState, e: PassEnv): Played
    requires Decides(cfg, s, e)
  {
    var choice := Candidate(cfg, e.tags);
    Play(e, choice.tag, if Upgrades(cfg, s.cur, e) then UpgradeCommands(cfg) else [], Then(s.log, Target(choice.n, choice.tag)))
  }

  lemma PlayOne(e: PassEnv, tag: string, c: Command, log: Log)
    ensures Play(e, tag, [c], log) == Played(Noted(log, tag, c), if Succeeds(e, tag, c) then None else Some(c))
  {
    assert [c][1..] == [];
  }

  lemma BuildIsPlayed(cfg: Config, s: JobState, e: PassEnv)
    requires s.status.Running?
    ensures var p, r := Play(e, s.strMax, if cfg.doBuild then [DockerBuild] else [], s.log), BuildStage(cfg, s, e);
      if p.failed.Some? then r == s.(log := p.log, status := FailureStatus(p.failed.value))
      else if !cfg.doBuild || cfg.doSync || cfg.doDeploy then r == s.(log := p.log)
      else r == Advance(cfg, s.(log := p.log), e.write)
  {
    PlayOne(e, s.strMax, DockerBuild, s.log);
  }

  lemma SyncIsPlayed(cfg: Config, s: JobState, e: PassEnv)
    requires s.status.Running?
    ensures var p, r := Play(e, s.strMax, if cfg.doSync then [Rsync] else [], s.log), SyncStage(cfg, s, e);
      r == s.(log := p.log, status := if p.failed.Some? then FailureStatus(p.failed.value) else s.status)
  {
    PlayOne(e, s.strMax, Rsync, s.log);
  }

  lemma ApplyIsPlayed(e: PassEnv, tag: string, log: Log)
    ensures var p := Play(e, tag, [RenderManifest, SwitchContext, KubectlApply], log);
      if !e.manifestOk then p == Played(log, Some(RenderManifest))
      else if !e.contextOk then p == Played(log, Some(SwitchContext))
      else p == Played(Then(log, Apply(tag)), if e.applyOk then None else Some(KubectlApply))
  {
    var rest := [SwitchContext, KubectlApply];
    assert [RenderManifest, SwitchContext, KubectlApply][1..] == rest && rest[1..] == [KubectlApply];
    PlayOne(e, tag, KubectlApply, log);
  }

  // The state after the commands of an upgrade that all succeed.
  function Applied(cfg: Config, s: JobState, e: PassEnv): JobState {
    s.(log := Play(e, s.strMax, UpgradeCommands(cfg), s.log).log,
       retry := s.retry + 1, waited := Total(Intervals(cfg.checkInterval), Polls(e)))
  }

  lemma UpgradeIsPlayed(cfg: Config, s: JobState, e: PassEnv)
    requires s.status.Running?
    ensures var p, r := Play(e, s.strMax, UpgradeCommands(cfg), s.log), Upgrade(cfg, s, e);
      if p.failed.Some? then
        r.status == FailureStatus(p.failed.value) && r.log == p.log && r.cur == s.cur && r.files == s.files && r.retry == s.retry
      else if !cfg.doDeploy then
        r == if cfg.doBuild && !cfg.doSync then Advance(cfg, s.(log := p.log), e.write) else s.(log := p.log)
      else
        var r' := ObserveStage(cfg, Applied(cfg, s, e), e);
        r == if r'.status.Running? && r'.retry > 3 then r'.Stop(Crashed) else r'
  {
    hide Play, BuildStage, SyncStage, ObserveStage, Advance, Intervals, Total, Polls;
    var tag := s.strMax;
    var head := [ResolveTag, CheckoutTag];
    var build := if cfg.doBuild then [DockerBuild] else [];
    var sync := if cfg.doSync then [Rsync] else [];
    var apply := if cfg.doDeploy then [RenderManifest, SwitchContext, KubectlApply] else [];
    assert UpgradeCommands(cfg) == head + (build + (sync + apply));
    HeadIsPlayed(e, tag, s.log);
    PlayInTwo(e, tag, head, build + (sync + apply), s.log);
    PlayInTwo(e, tag, build, sync + apply, s.log);
    BuildIsPlayed(cfg, s, e);
    var s1 := s.(log := Play(e, tag, build, s.log).log);
    PlayInTwo(e, tag, sync, apply, s1.log);
    SyncIsPlayed(cfg, s1, e);
    var s2 := s1.(log := Play(e, tag, sync, s1.log).log);
    ApplyIsPlayed(e, tag, s2.log);
    NothingIsPlayed(e, tag, s.log);
    NothingIsPlayed(e, tag, s1.log);
    NothingIsPlayed(e, tag, s2.log);
    if cfg.doBuild && !cfg.doSync && !cfg.doDeploy {
      var done := Advance(cfg, s1, e.write);
      assert done.status == s.status by { AdvanceKeepsStatus(cfg, s1, e.write); }
      SyncIsPlayed(cfg, done, e);
      NothingIsPlayed(e, done.strMax, done.log);
    }
  }

  lemma AdvanceKeepsStatus(cfg: Config, s: JobState, w: WriteResult)
    ensures Advance(cfg, s, w).status == s.status
  {
  }

  lemma NothingIsPlayed(e: PassEnv, tag: string, log: Log)
    ensures Play(e, tag, [], log) == Played(log, None)
  {
  }

  lemma HeadIsPlayed(e: PassEnv, tag: string, log: Log)
    ensures var p := Play(e, tag, [ResolveTag, CheckoutTag], log);
      p.log == log && (p.failed.None? <==> Resolves(e, tag) && e.tagCheckoutOk)
      && (p.failed.Some? ==> FailureStatus(p.failed.value) == Returned)
  {
    assert [ResolveTag, CheckoutTag][1..] == [CheckoutTag];
    PlayOne(e, tag, CheckoutTag, log);
  }

  // The first command that fails ends the pass: nothing later is run, no tag is advanced to,
  // and the tag in use and all files stay as they were.
  lemma FailedCommandEndsPass(mode: Mode, cfg: Config, s: JobState, e: PassEnv)
    requires s.status.Running? && Decides(cfg, s, e)
    ensures var r, p := Pass(mode, cfg, s, e), PlayedUpgrade(cfg, s, e);
      p.failed.Some? ==>
        && r.status == FailureStatus(p.failed.value)
        && r.log == p.log && r.cur == s.cur && r.files == s.files
  {
    hide Candidate, ConvertTagToNumeric, HashOf, WantsUpgrade, Play, Upgrade, UpgradeCommands;
    PreparationPlayed(e, s.log);
    var choice := Candidate(cfg, e.tags);
    var s1 := Retarget(s, choice.n, choice.tag);
    UpgradeIsPlayed(cfg, s1, e);
    NothingIsPlayed(e, choice.tag, s1.log);
  }

  // --- Success ---

  // The upgrade is confirmed: a deploying job saw readiness and read the tag back from the
  // cluster; another job needs no confirmation, but records nothing if it syncs.
  predicate Confirms(cfg: Config, s: JobState, e: PassEnv)
    requires Decides(cfg, s, e)
  {
    && Upgrades(cfg, s.cur, e)
    && if cfg.doDeploy then e.readyAfter < 5 && e.cluster == Serves(Candidate(cfg, e.tags).tag)
       else cfg.doBuild && !cfg.doSync
  }

  predicate Deploys(cfg: Config, s: JobState, e: PassEnv) { cfg.doDeploy && Upgrades(cfg, s.cur, e) }

  // The failed attempts on the target that are behind the job.
  function Behind(cfg: Config, s: JobState, e: PassEnv): int
    requires Decides(cfg, s, e)
  {
    if Candidate(cfg, e.tags).n == s.nMax then s.retry else 0
  }

  lemma ObserveOutcome(cfg: Config, s: JobState, e: PassEnv)
    requires s.status.Running?
    ensures var r, ready := ObserveStage(cfg, s, e), e.readyAfter < 5;
      var confirmed := ready && e.cluster == Serves(s.strMax);
      && (confirmed ==> r == Advance(cfg, s.(log := r.log.earlier), e.write).(retry := 0) && r.log.Then?)
      && (!confirmed ==> r == s.(log := r.log, status := r.status))
      && (r.status == if ready && !e.cluster.Serves? then Crashed else Running)
      && Stages(r.log) == Stages(s.log)
  {
    hide WriteFile;
    if e.readyAfter < 5 {
      var s1 := s.Note(Ready);
      assert Stages(s1.log) == Stages(s.log);
      if e.cluster.Serves? {
        assert Stages(s1.Note(Observed(e.cluster.tag)).log) == Stages(s.log);
      }
    }
  }

  // The state at the end of a pass whose commands all succeed, before it looks at the job file.
  lemma UpgradeOutcome(cfg: Config, s: JobState, e: PassEnv)
    requires s.status.Running? && Play(e, s.strMax, UpgradeCommands(cfg), s.log).failed.None?
    ensures var p, r := Play(e, s.strMax, UpgradeCommands(cfg), s.log), Upgrade(cfg, s, e);
      var confirmed := if cfg.doDeploy then e.readyAfter < 5 && e.cluster == Serves(s.strMax) else cfg.doBuild && !cfg.doSync;
      && r.cur == (if confirmed then s.strMax else s.cur)
      && r.files == (if confirmed then WriteFile(s.files, TagPath(cfg), s.strMax, e.write) else s.files)
      && r.retry == (if !cfg.doDeploy then s.retry else if confirmed then 0 else s.retry + 1)
      && r.waited == (if cfg.doDeploy then Total(Intervals(cfg.checkInterval), Polls(e)) else s.waited)
      && r.status == (if cfg.doDeploy && ((e.readyAfter < 5 && !e.cluster.Serves?) || r.retry > 3) then Crashed else Running)
      && Stages(r.log) == Stages(p.log)
  {
    hide Play, UpgradeCommands, Upgrade, ObserveStage, Intervals, Total, Polls, WriteFile, TagPath;
    UpgradeIsPlayed(cfg, s, e);
    if cfg.doDeploy {
      ObserveOutcome(cfg, Applied(cfg, s, e), e);
    }
  }

  // A pass without a failure moves the tag in use, and writes it to the job's file and no
  // other, exactly when the upgrade is confirmed.
  lemma PassAdvancesExactlyWhen(mode: Mode, cfg: Config, s: JobState, e: PassEnv)
    requires s.status.Running? && Decides(cfg, s, e) && PlayedUpgrade(cfg, s, e).failed.None?
    ensures var r, choice, path := Pass(mode, cfg, s, e), Candidate(cfg, e.tags), TagPath(cfg);
      && r.cur == (if Confirms(cfg, s, e) then choice.tag else s.cur)
      && (if !Confirms(cfg, s, e) then r.files == s.files
          else match e.write
            case Written => r.files == s.files[path := choice.tag]
            case NotWritten => r.files == s.files
            case Garbled(left) => r.files == s.files[path := left])
      && Stages(r.log) == Stages(PlayedUpgrade(cfg, s, e).log)
  {
    hide Candidate, ConvertTagToNumeric, HashOf, WantsUpgrade, Play, Upgrade, UpgradeCommands, Intervals, Total, Polls, TagPath;
    PreparationPlayed(e, s.log);
    var choice := Candidate(cfg, e.tags);
    var s1 := Retarget(s, choice.n, choice.tag);
    NothingIsPlayed(e, choice.tag, s1.log);
    if Upgrades(cfg, s.cur, e) {
      UpgradeOutcome(cfg, s1, e);
    }
  }

  // How a pass without a failure ends. It is a panic if the cluster cannot be read after
  // readiness, or at the fourth failed attempt on one target, and not before. Else a job on its
  // one run returns, a changed job file is reloaded, and otherwise the loop goes on.
  lemma PassEndsAs(mode: Mode, cfg: Config, s: JobState, e: PassEnv)
    requires s.status.Running? && s.retry >= 0 && Decides(cfg, s, e) && PlayedUpgrade(cfg, s, e).failed.None?
    ensures var r := Pass(mode, cfg, s, e);
      var unreadable := Deploys(cfg, s, e) && e.readyAfter < 5 && !e.cluster.Serves?;
      var givesUp := Deploys(cfg, s, e) && !Confirms(cfg, s, e) && Behind(cfg, s, e) + 1 >= 4;
      if unreadable || givesUp then r.status == Crashed
      else if mode.once || e.sha.ShaFailed? then r.status == Returned
      else if e.sha.ChangedSha? then ReloadsInto(mode, e.reloads, r.status)
      else r.status == Running
  {
    hide Candidate, ConvertTagToNumeric, HashOf, WantsUpgrade, Play, Upgrade, UpgradeCommands, Intervals, Total, Polls, TagPath, ReloadsInto;
    PreparationPlayed(e, s.log);
    var choice := Candidate(cfg, e.tags);
    var s1 := Retarget(s, choice.n, choice.tag);
    NothingIsPlayed(e, choice.tag, s1.log);
    ReloadingExactly(mode, e.reloads, Reloading(mode, e.reloads));
    if Upgrades(cfg, s.cur, e) {
      UpgradeOutcome(cfg, s1, e);
    }
  }

  // A pass that goes on to the next has polled for the waits up to the first readiness, if it
  // deployed, and sleeps for what is left of the interval.
  lemma PassPausesFor(mode: Mode, cfg: Config, s: JobState, e: PassEnv)
    requires s.status.Running? && Decides(cfg, s, e) && Pass(mode, cfg, s, e).status.Running?
    ensures var r, x := Pass(mode, cfg, s, e), Intervals(cfg.checkInterval);
      var polled := if Deploys(cfg, s, e) then WaitedFor(x, e.readyAfter) else 0;
      r.log.Then? && r.log.event == Paused(polled, if cfg.checkInterval > polled then cfg.checkInterval - polled else 0)
  {
    hide Candidate, ConvertTagToNumeric, HashOf, WantsUpgrade, Play, Upgrade, UpgradeCommands, Intervals, Total, TagPath, WriteFile;
    PreparationPlayed(e, s.log);
    FailedCommandEndsPass(mode, cfg, s, e);
    var choice := Candidate(cfg, e.tags);
    var s1 := Retarget(s, choice.n, choice.tag);
    NothingIsPlayed(e, choice.tag, s1.log);
    PolledUpToReadiness(cfg.checkInterval, e);
    ReloadingExactly(mode, e.reloads, Running);
    if Upgrades(cfg, s.cur, e) {
      UpgradeOutcome(cfg, s1, e);
    }
  }

  // A further wait follows each of the first four polls that found the deployment not ready.
  function WaitedFor(x: seq<int>, notReady: nat): int
    requires |x| == 5
  {
    x[0]
    + (if notReady >= 1 then x[1] else 0)
    + (if notReady >= 2 then x[2] else 0)
    + (if notReady >= 3 then x[3] else 0)
    + (if notReady >= 4 then x[4] else 0)
  }

  lemma PolledUpToReadiness(configInterval: int, e: PassEnv)
    ensures Total(Intervals(configInterval), Polls(e)) == WaitedFor(Intervals(configInterval), e.readyAfter)
  {
    var x := Intervals(configInterval);
    hide Intervals, Total;
    TotalsUnfold(x);
    assert Polls(e) == 1 || Polls(e) == 2 || Polls(e) == 3 || Polls(e) == 4 || Polls(e) == 5;
  }

  // --- Reload ---

  predicate AllInactive(reloads: seq<Reload>) {
    forall i :: 0 <= i < |reloads| ==> reloads[i].Loaded? && !reloads[i].cfg.isActive
  }

  // The loaded configuration, with its interval raised to 120 where it is shorter, except in
  // development mode.
  predicate IsRaised(mode: Mode, loaded: Config, next: Config) {
    && next == loaded.(checkInterval := next.checkInterval)
    && next.checkInterval == if mode.development || loaded.checkInterval >= 120 then loaded.checkInterval else 120
  }

  // A successor takes over from the first active configuration, all before it being loaded
  // and inactive; the first failed reload before that ends the job; and while all are
  // inactive it stays suspended.
  ghost predicate ReloadsInto(mode: Mode, reloads: seq<Reload>, status: Status) {
    match status
    case Restarting(next) =>
      exists i :: 0 <= i < |reloads| && AllInactive(reloads[..i])
               && reloads[i].Loaded? && reloads[i].cfg.isActive && IsRaised(mode, reloads[i].cfg, next)
    case Returned => exists i :: 0 <= i < |reloads| && AllInactive(reloads[..i]) && reloads[i].LoadFailed?
    case Suspended => AllInactive(reloads)
    case _ => false
  }

  lemma {:induction false} ReloadingExactly(mode: Mode, reloads: seq<Reload>, status: Status)
    ensures Reloading(mode, reloads) == status <==> ReloadsInto(mode, reloads, status)
  {
    if reloads == [] {
    } else if reloads[0].Loaded? && !reloads[0].cfg.isActive {
      var rest := reloads[1..];
      ReloadingExactly(mode, rest, status);
      if ReloadsInto(mode, rest, status) {
        forall i | 0 <= i < |rest| && AllInactive(rest[..i]) ensures AllInactive(reloads[..i + 1]) && reloads[i + 1] == rest[i] {
          assert reloads[..i + 1] == [reloads[0]] + rest[..i];
        }
      }
      if ReloadsInto(mode, reloads, status) {
        forall i | 0 < i < |reloads| && AllInactive(reloads[..i]) ensures AllInactive(rest[..i - 1]) && rest[i - 1] == reloads[i] {
          var before := rest[..i - 1];
          forall k | 0 <= k < |before| ensures before[k] == reloads[..i][k + 1] {}
        }
      }
    } else {
      assert AllInactive(reloads[..0]);
      forall i | 0 < i < |reloads| ensures !AllInactive(reloads[..i]) {
        assert reloads[..i][0] == reloads[0];
      }
    }
  }

  // --- Runs ---

  predicate WithoutFailure(cfg: Config, s: JobState, e: PassEnv) {
    Decides(cfg, s, e) && PlayedUpgrade(cfg, s, e).failed.None?
  }

  lemma FailedPassStops(mode: Mode, cfg: Config, s: JobState, e: PassEnv)
    requires s.status.Running? && !WithoutFailure(cfg, s, e)
    ensures var r := Pass(mode, cfg, s, e);
      (r.status == Returned || r.status == Crashed) && r.cur == s.cur && r.files == s.files
  {
    hide Candidate, ConvertTagToNumeric, Play, Pass, PlayedUpgrade;
    PreparationDecides(mode, cfg, s, e);
    if Decides(cfg, s, e) {
      FailedCommandEndsPass(mode, cfg, s, e);
    }
  }

  lemma {:induction false} RunInTwo(mode: Mode, cfg: Config, s: JobState, es: seq<PassEnv>, i: nat)
    requires i <= |es|
    ensures Run(mode, cfg, s, es) == Run(mode, cfg, Run(mode, cfg, s, es[..i]), es[i..])
    decreases i
  {
    hide Pass;
    if i == 0 || !s.status.Running? {
      assert es[0..] == es;
    } else {
      assert es[..i][0] == es[0] && es[..i][1..] == es[1..][..i - 1] && es[1..][i - 1..] == es[i..];
      RunInTwo(mode, cfg, Pass(mode, cfg, s, es[0]), es[1..], i - 1);
    }
  }

  // A run goes beyond a pass only if no command that the pass reached failed. The first pass
  // with a failure is the last, and leaves the tag in use and all files as they were.
  lemma RunEndsAtFirstFailure(mode: Mode, cfg: Config, s: JobState, es: seq<PassEnv>, i: nat)
    requires i < |es|
    ensures var before, r := Run(mode, cfg, s, es[..i]), Run(mode, cfg, s, es);
      before.status.Running? && !WithoutFailure(cfg, before, es[i]) ==>
        && r == Pass(mode, cfg, before, es[i])
        && (r.status == Returned || r.status == Crashed) && r.cur == before.cur && r.files == before.files
  {
    hide Pass, WithoutFailure;
    RunInTwo(mode, cfg, s, es, i);
    var before := Run(mode, cfg, s, es[..i]);
    if before.status.Running? && !WithoutFailure(cfg, before, es[i]) {
      FailedPassStops(mode, cfg, before, es[i]);
    }
  }

  // --- Start ---

  // Everything that a start needs before it looks at the repository, and there.
  predicate BeginsWell(cfg: Config, e: StartEnv) {
    && e.shaOk && e.write.Written? && e.sshOk
    && (cfg.doDeploy ==> (cfg.kubeconfig == "" || e.kubeconfigIsFile) && !e.cluster.BadPattern?)
  }

  predicate RepositoryOk(e: StartEnv) { e.repoOk && e.checkoutOk }

  // A start from the given tag: below the ceiling it loops there, above a positive ceiling at
  // the zero tag; the tag it starts from is saved either way. A tag that does not convert is
  // saved too, and ends the job; one with too few parts is a panic before that.
  predicate StartsFrom(cfg: Config, files: Files, tag: string, s: JobState) {
    var path, a, b := TagPath(cfg), ConvertTagToNumeric(tag, cfg.prefix), ConvertTagToNumeric(cfg.maxTag, cfg.prefix);
    if a.Panicked? || (a.Value? && b.Panicked?) then s == Ended(files, Crashed)
    else if !a.Value? || !b.Value? || a.n == b.n then s == Ended(files[path := tag], Returned)
    else if a.n < b.n then s == LoopHead(tag, files[path := tag])
    else if b.n > 0 then s == LoopHead(cfg.prefix + "0.0.0", files[path := cfg.prefix + "0.0.0"])
    else s == Ended(files[path := cfg.prefix + "0.0.0"], Returned)
  }

  // Where a start takes its tag from: a deploying job from the cluster, if it answers,
  // whatever the file says; otherwise from the readable tag file; otherwise, as on a first
  // start, from the configuration.
  lemma StartTakesItsTag(cfg: Config, files: Files, e: StartEnv)
    requires cfg.isActive && cfg.doGitClone && BeginsWell(cfg, e) && RepositoryOk(e)
    ensures var s, path := StartUp(cfg, files, e), TagPath(cfg);
      && (cfg.doDeploy && e.cluster.Serves? ==> StartsFrom(cfg, files, e.cluster.tag, s))
      && (!(cfg.doDeploy && e.cluster.Serves?) && e.fileReadable && path in files ==> StartsFrom(cfg, files, files[path], s))
      && (!(cfg.doDeploy && e.cluster.Serves?) && !(e.fileReadable && path in files) ==> StartsFrom(cfg, files, cfg.startTag, s))
  {
    hide ConvertTagToNumeric, TagPath;
    ZeroTag(cfg.prefix);
  }

  // And every other start ends the job: an inactive one at once, without touching a file; one
  // in which something fails with a panic, and one that does not clone with nothing to do.
  lemma OtherStartsEnd(cfg: Config, files: Files, e: StartEnv)
    ensures var s := StartUp(cfg, files, e);
      && (!cfg.isActive ==> s == Ended(files, Returned))
      && (cfg.isActive && !BeginsWell(cfg, e) ==> s.status == Crashed)
      && (cfg.isActive && BeginsWell(cfg, e) && cfg.doGitClone && !RepositoryOk(e) ==> s.status == Crashed)
      && (cfg.isActive && BeginsWell(cfg, e) && !cfg.doGitClone ==> s.status == Returned || s == Ended(files, Crashed))
  {
    hide ConvertTagToNumeric, TagPath, CompareTwoTags, SelectedTag;
  }

  // --- Files ---

  function BaseOf(cfg: Config): string {
    if cfg.startTagFile == "" then "/tmp/start-tag-file" else cfg.startTagFile
  }

  // Two jobs have one tag file only if they have the same name, as long as they are configured
  // with the same path or their names hold no dot.
  lemma TagFilesDiffer(c: Config, d: Config)
    ensures TagPath(c) == BaseOf(c) + "." + c.jobName
    ensures BaseOf(c) == BaseOf(d) || ('.' !in c.jobName && '.' !in d.jobName) ==>
      (TagPath(c) == TagPath(d) <==> BaseOf(c) == BaseOf(d) && c.jobName == d.jobName)
  {
    if TagPath(c) == TagPath(d) {
      if BaseOf(c) == BaseOf(d) {
        assert c.jobName == TagPath(c)[|BaseOf(c)| + 1..];
        assert d.jobName == TagPath(d)[|BaseOf(d)| + 1..];
      } else if '.' !in c.jobName && '.' !in d.jobName {
        LastDot(BaseOf(c), c.jobName, BaseOf(d), d.jobName);
      }
    }
  }

  lemma LastDot(a: string, x: string, b: string, y: string)
    requires a + "." + x == b + "." + y && '.' !in x && '.' !in y
    ensures a == b && x == y
  {
    if |a| < |b| {
      EarlierDot(a, x, b, y);
    } else if |a| > |b| {
      EarlierDot(b, y, a, x);
    } else {
      assert a == (a + "." + x)[..|a|] && b == (b + "." + y)[..|a|];
      assert x == (a + "." + x)[|a| + 1..] && y == (b + "." + y)[|a| + 1..];
    }
  }

  lemma EarlierDot(a: string, x: string, b: string, y: string)
    requires a + "." + x == b + "." + y && |a| < |b|
    ensures '.' in x
  {
    assert (b + "." + y)[|b|] == '.';
    assert x[|b| - |a| - 1] == (a + "." + x)[|b|];
  }

  predicate SameAt(files: Files, files': Files, path: string) {
    (path in files <==> path in files') && (path in files ==> files[path] == files'[path])
  }

  lemma {:induction false} RunKeepsOtherFiles(mode: Mode, cfg: Config, s: JobState, es: seq<PassEnv>, path: string)
    requires path != TagPath(cfg)
    ensures SameAt(s.files, Run(mode, cfg, s, es).files, path)
    decreases es
  {
    hide Pass, TagPath;
    if es == [] || !s.status.Running? {
    } else {
      PassKeepsOtherFiles(mode, cfg, s, es[0], path);
      RunKeepsOtherFiles(mode, cfg, Pass(mode, cfg, s, es[0]), es[1..], path);
    }
  }

  lemma PassKeepsOtherFiles(mode: Mode, cfg: Config, s: JobState, e: PassEnv, path: string)
    requires s.status.Running? && path != TagPath(cfg)
    ensures SameAt(s.files, Pass(mode, cfg, s, e).files, path)
  {
    hide Pass, TagPath, Upgrade, Candidate, Play, PlayedUpgrade, Confirms;
    if WithoutFailure(cfg, s, e) {
      PassAdvancesExactlyWhen(mode, cfg, s, e);
    } else {
      FailedPassStops(mode, cfg, s, e);
    }
  }

  // An instance touches no file but its own tag file, so jobs with different tag files leave
  // each other's alone.
  lemma InstanceKeepsOtherFiles(mode: Mode, cfg: Config, files: Files, e: InstanceEnv, path: string)
    requires path != TagPath(cfg)
    ensures SameAt(files, Instance(mode, cfg, files, e).files, path)
  {
    hide Run, TagPath, ConvertTagToNumeric, CompareTwoTags;
    RunKeepsOtherFiles(mode, cfg, StartUp(cfg, files, e.start), e.passes, path);
  }

  // --- Chains ---

  // A chain starts with its first instance, every later one runs under the configuration that
  // its predecessor restarted into and on the files it left, and the chain ends only where an
  // instance does not restart.
  lemma {:induction false} ChainHandsOver(mode: Mode, cfg: Config, files: Files, es: seq<InstanceEnv>)
    ensures var c := Chain(mode, cfg, files, es);
      && |c| <= |es| && (es != [] ==> c != [] && c[0] == Ran(cfg, Instance(mode, cfg, files, es[0])))
      && (forall k :: 0 < k < |c| ==>
            && c[k - 1].final.status == Restarting(c[k].cfg)
            && c[k].final == Instance(mode, c[k].cfg, c[k - 1].final.files, es[k]))
      && (0 < |c| < |es| ==> !c[|c| - 1].final.status.Restarting?)
    decreases es
  {
    hide Instance;
    if es == [] {
    } else {
      var r := Instance(mode, cfg, files, es[0]);
      if r.status.Restarting? {
        ChainHandsOver(mode, r.status.next, r.files, es[1..]);
        var c, rest := Chain(mode, cfg, files, es), Chain(mode, r.status.next, r.files, es[1..]);
        assert c == [Ran(cfg, r)] + rest;
        forall k | 0 < k < |c|
          ensures c[k - 1].final.status == Restarting(c[k].cfg)
          ensures c[k].final == Instance(mode, c[k].cfg, c[k - 1].final.files, es[k])
        {
          assert c[k] == rest[k - 1] && es[k] == es[1..][k - 1];
          if k > 1 { assert c[k - 1] == rest[k - 2]; }
        }
      }
    }
  }
}
