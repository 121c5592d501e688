/** The job as the program runs it: local variables updated in place, stage after stage,
    proved to do what the functions of module Reconcile say. */
module JobLoop {
  import opened Tags
  import opened Polling
  import opened Reconcile
  import opened Ceiling
  import opened History
  import opened Restarts
  import Convergence

  // The tags of a repository that carry the prefix, in the order they are listed.
  method GetTagsFromGitRepo(tags: seq<string>, prefix: string) returns (repoTags: seq<string>)
    ensures repoTags == TagsWithPrefix(tags, prefix)
  {
    repoTags := [];
    for i := 0 to |tags|
      invariant repoTags == TagsWithPrefix(tags[..i], prefix)
    {
      assert tags[..i + 1][..i] == tags[..i];
      if prefix <= tags[i] {
        repoTags := repoTags + [tags[i]];
      }
    }
    assert tags[..|tags|] == tags;
  }

  class Job {
    var config: Config
    var gitCurrentTag: string
    var retryApply: int
    var nMaxTag: int
    var strMaxTag: string
    var totalWaitSeconds: int
    var files: Files
    var status: Status
    ghost var log: Log

    ghost function State(): JobState
      reads this
    {
      JobState(gitCurrentTag, retryApply, nMaxTag, strMaxTag, totalWaitSeconds, files, log, status)
    }

    constructor (cfg: Config, files: Files)
      ensures State() == Ended(files, Running) && config == cfg
    {
      this.config, this.files, this.status := cfg, files, Running;
      gitCurrentTag, retryApply, nMaxTag, strMaxTag, totalWaitSeconds := "", 0, 0, "", 0;
      log := Begin("");
    }

    // The tag to start from, once the cluster has been asked.
    method SelectStartTag(e: StartEnv) returns (startImageTag: string)
      ensures startImageTag == SelectedTag(config, files, e)
    {
      var saved := e.fileReadable && TagPath(config) in files;
      if config.doDeploy && e.cluster.Serves? {
        startImageTag := e.cluster.tag;
      } else if saved {
        startImageTag := files[TagPath(config)];
      } else {
        startImageTag := config.startTag;
      }
    }

    // From the inactive check to the entry of the loop.
    method Start(e: StartEnv)
      requires State() == Ended(files, Running)
      modifies this
      ensures State() == StartUp(config, old(files), e) && config == old(config)
    {
      hide ConvertTagToNumeric, SelectedTag, TagPath;
      if !config.isActive { status := Returned; return; }
      if !e.shaOk { status := Crashed; return; }
      if config.doDeploy {
        if config.kubeconfig != "" && !e.kubeconfigIsFile { status := Crashed; return; }
        if e.cluster.BadPattern? { status := Crashed; return; }
      }
      var startImageTag := SelectStartTag(e);
      var res := CompareTwoTags(startImageTag, config.maxTag, config.prefix);
      if res.ComparePanicked? { status := Crashed; return; }
      if res.Is(-1) {
        startImageTag := ZeroOf(config);
      }
      files := WriteFile(files, TagPath(config), startImageTag, e.write);
      if !e.write.Written? || !e.sshOk { status := Crashed; return; }
      if config.doGitClone {
        if !e.repoOk || !e.checkoutOk { status := Crashed; return; }
        res := CompareTwoTags(startImageTag, config.maxTag, config.prefix);
        if res.ComparePanicked? { status := Crashed; return; }
        if !res.Is(1) { status := Returned; return; }
        assert res == Compared(1);
        gitCurrentTag := startImageTag;
        log := Begin(startImageTag);
      } else {
        status := Returned;
      }
    }

    method AdvanceTag(w: WriteResult)
      modifies `gitCurrentTag, `files, `log
      ensures State() == Advance(config, old(State()), w)
    {
      gitCurrentTag := strMaxTag;
      files := WriteFile(files, TagPath(config), gitCurrentTag, w);
      log := Then(log, Advanced(gitCurrentTag));
    }

    method BuildImage(e: PassEnv)
      requires status.Running?
      modifies this
      ensures State() == BuildStage(config, old(State()), e) && config == old(config)
    {
      if config.doBuild {
        log := Then(log, Build(strMaxTag));
        if !e.buildOk { status := Crashed; return; }
        if !(config.doSync || config.doDeploy) {
          AdvanceTag(e.write);
        }
      }
    }

    method SyncFolder(e: PassEnv)
      requires status.Running?
      modifies this
      ensures State() == SyncStage(config, old(State()), e) && config == old(config)
    {
      if config.doSync {
        log := Then(log, Sync(strMaxTag));
        if !e.syncOk { status := Crashed; return; }
      }
    }

    // Wait and ask for readiness, at most five times.
    method PollReadiness(e: PassEnv) returns (isReady: bool)
      requires totalWaitSeconds == 0
      modifies `totalWaitSeconds
      ensures isReady <==> e.readyAfter < 5
      ensures totalWaitSeconds == Total(Intervals(config.checkInterval), Polls(e))
    {
      var checkIntervals := GetIntervals(config.checkInterval);
      isReady := false;
      for i := 0 to 5
        invariant !isReady && e.readyAfter >= i
        invariant checkIntervals[..] == Intervals(config.checkInterval)
        invariant totalWaitSeconds == Total(Intervals(config.checkInterval), i)
      {
        assert Intervals(config.checkInterval)[i] == checkIntervals[i];
        totalWaitSeconds := totalWaitSeconds + checkIntervals[i];
        isReady := e.readyAfter <= i;
        if isReady { break; }
      }
    }

    method ApplyManifest(e: PassEnv)
      requires status.Running? && totalWaitSeconds == 0
      modifies this
      ensures State() == DeployStage(config, old(State()), e) && config == old(config)
    {
      hide Intervals, Total, WriteFile;
      if config.doDeploy {
        if !e.manifestOk || !e.contextOk { status := Returned; return; }
        log := Then(log, Apply(strMaxTag));
        if !e.applyOk { status := Returned; return; }
        retryApply := retryApply + 1;
        var isReady := PollReadiness(e);
        if isReady {
          log := Then(log, Ready);
          if !e.cluster.Serves? { status := Crashed; return; }
          var currentClusterImageTag := e.cluster.tag;
          log := Then(log, Observed(currentClusterImageTag));
          if currentClusterImageTag == strMaxTag {
            AdvanceTag(e.write);
            retryApply := 0;
          }
        }
        if retryApply > 3 { status := Crashed; }
      }
    }

    method DoUpgrade(e: PassEnv)
      requires status.Running? && totalWaitSeconds == 0
      modifies this
      ensures State() == Upgrade(config, old(State()), e) && config == old(config)
    {
      hide DeployStage, WriteFile;
      if !Resolves(e, strMaxTag) || !e.tagCheckoutOk { status := Returned; return; }
      BuildImage(e);
      if !status.Running? { return; }
      SyncFolder(e);
      if !status.Running? { return; }
      ApplyManifest(e);
    }

    // Read the changed job file until it is active, then hand over to a successor.
    method Reload(mode: Mode, reloads: seq<Reload>)
      modifies `config, `status
      ensures status == Reloading(mode, reloads)
    {
      for i := 0 to |reloads|
        invariant Reloading(mode, reloads) == Reloading(mode, reloads[i..])
      {
        assert reloads[i..][1..] == reloads[i + 1..];
        if reloads[i].LoadFailed? { status := Returned; return; }
        config := Clamp(mode, reloads[i].cfg);
        if config.isActive { status := Restarting(config); return; }
      }
      status := Suspended;
    }

    method FinishPass(mode: Mode, e: PassEnv)
      requires status.Running?
      modifies this
      ensures State() == EndOfPass(mode, old(config), old(State()), e)
      ensures status.Running? ==> config == old(config)
    {
      hide Reloading;
      if mode.once { status := Returned; return; }
      match e.sha {
        case ShaFailed => status := Returned;
        case ChangedSha =>
          Reload(mode, e.reloads);
          ReloadStops(mode, e.reloads);
        case SameSha => log := Then(log, Paused(totalWaitSeconds, Slept(config.checkInterval - totalWaitSeconds)));
      }
    }

    // A target with another number forgets the failed attempts on the last one.
    method SetTarget(nMaxTagCandidate: int, strMaxTagCandidate: string)
      modifies this
      ensures State() == Retarget(old(State()), nMaxTagCandidate, strMaxTagCandidate) && config == old(config)
    {
      if retryApply > 0 && nMaxTagCandidate != nMaxTag {
        retryApply := 0;
      }
      nMaxTag, strMaxTag := nMaxTagCandidate, strMaxTagCandidate;
      totalWaitSeconds := 0;
      log := Then(log, Target(nMaxTag, strMaxTag));
    }

    // The decision to upgrade, once the target is set.
    method Decide(curTag: int, hashBefore: string, hashAfter: string) returns (bDoUpgrade: bool)
      ensures bDoUpgrade == WantsUpgrade(gitCurrentTag, curTag, nMaxTag, strMaxTag, hashBefore, hashAfter)
    {
      bDoUpgrade := false;
      if nMaxTag > curTag {
        bDoUpgrade := true;
      }
      if strMaxTag == gitCurrentTag {
        bDoUpgrade := hashAfter != hashBefore;
      }
    }

    // One turn of the reconcile loop.
    method RunPass(mode: Mode, e: PassEnv)
      requires status.Running?
      modifies this
      ensures State() == Pass(mode, old(config), old(State()), e)
      ensures status.Running? ==> config == old(config)
    {
      hide ConvertTagToNumeric, MaxTag, IsArgmax, Upgrade, EndOfPass, TagsWithPrefix, WantsUpgrade;
      var currentTagsCommitHash := HashOf(e.before, gitCurrentTag);
      if !e.checkoutOk || !e.pullOk || !e.listOk { status := Returned; return; }
      var repoTags := GetTagsFromGitRepo(e.tags, config.prefix);
      var candidate := GetMaxTag(repoTags, config.maxTag, config.prefix);
      if candidate.ChoicePanicked? { status := Crashed; return; }
      if candidate.BadTag? { status := Returned; return; }
      SetTarget(candidate.n, candidate.tag);
      var current := ConvertTagToNumeric(gitCurrentTag, config.prefix);
      if current.Panicked? { status := Crashed; return; }
      var bDoUpgrade := Decide(NumberOrZero(current), currentTagsCommitHash, HashOf(e.after, strMaxTag));
      if bDoUpgrade {
        DoUpgrade(e);
        if !status.Running? { return; }
      }
      FinishPass(mode, e);
    }

    // The whole job: start, then pass after pass for as long as the environment answers. At
    // the head of the loop the retry counter is the number of failed applies on the record, at
    // most three; the tag in use does not exceed the larger of ceiling and baseline; and the
    // tag file holds it if all writes succeeded.
    method RunOneJob(mode: Mode, e: InstanceEnv)
      requires State() == Ended(files, Running)
      modifies this
      ensures State() == Instance(mode, old(config), old(files), e)
      ensures status.Running? ==> retryApply == Failures(log) && 0 <= retryApply <= 3
      ensures var cfg := old(config);
        status.Running? && SafeFrom(cfg, StartTag(log)) ==>
          Number(cfg, gitCurrentTag).Value? && Number(cfg, gitCurrentTag).n <= TopOf(cfg)
      ensures var path := TagPath(old(config));
        status.Running? && AllWritten(e.passes) ==> path in files && files[path] == gitCurrentTag
    {
      hide StartUp, Pass, AllWritten, SafeFrom, TopOf, StartTag, Number, TagPath;
      Start(e.start);
      ghost var cfg := old(config);
      var i := 0;
      while i < |e.passes| && status.Running?
        invariant 0 <= i <= |e.passes|
        invariant status.Running? ==> config == cfg
        invariant Run(mode, cfg, State(), e.passes[i..]) == Instance(mode, cfg, old(files), e)
      {
        assert e.passes[i..][1..] == e.passes[i + 1..];
        RunPass(mode, e.passes[i]);
        i := i + 1;
      }
      if status.Running? {
        InstanceIsSound(mode, cfg, old(files), e);
      }
    }
  }

  // What the modules History, Ceiling and Restarts prove of an instance in its loop.
  lemma InstanceIsSound(mode: Mode, cfg: Config, files: Files, e: InstanceEnv)
    requires Instance(mode, cfg, files, e).status.Running?
    ensures var r := Instance(mode, cfg, files, e);
      && r.retry == Failures(r.log) && 0 <= r.retry <= 3
      && (SafeFrom(cfg, StartTag(r.log)) ==> Number(cfg, r.cur).Value? && Number(cfg, r.cur).n <= TopOf(cfg))
      && (AllWritten(e.passes) ==> TagPath(cfg) in r.files && r.files[TagPath(cfg)] == r.cur)
  {
    hide ConvertTagToNumeric, TagPath, StartUp, Run, TopOf;
    InstanceCountsFailures(mode, cfg, files, e);
    InstanceStaysBelow(mode, cfg, files, e);
    if !StartUp(cfg, files, e.start).status.Running? {
      Convergence.StoppedStays(mode, cfg, StartUp(cfg, files, e.start), e.passes);
    }
    InstanceKeepsFile(mode, cfg, files, e);
  }

  lemma {:induction false} ReloadStops(mode: Mode, reloads: seq<Reload>)
    ensures !Reloading(mode, reloads).Running?
  {
    if reloads == [] {
    } else {
      ReloadStops(mode, reloads[1..]);
    }
  }
}
