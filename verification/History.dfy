/** The retry counter, the truth of the tag in use, and the order of the stages, over whole runs. */
module History {
  import opened Reconcile
  import opened Tags
  import opened Polling

  // Every moment of the log saw at most four applies to one target number without a
  // success or a change of the target between them.
  predicate AtMostFourApplies(log: Log) {
    match log
    case Begin(_) => true
    case Then(earlier, _) => Failures(log) <= 4 && AtMostFourApplies(earlier)
  }

  // At a loop head the counter and the target are what the log says they are.
  predicate CountsFailures(cfg: Config, s: JobState) {
    match s.status
    case Running =>
      && AtMostFourApplies(s.log)
      && s.nMax == LastTarget(s.log) && s.retry == Failures(s.log) && 0 <= s.retry <= 3
      && (cfg.doDeploy || s.retry == 0)
    case _ => AtMostFourApplies(s.log)
  }

  predicate Tracks(log: Log, target: int, failures: nat) {
    AtMostFourApplies(log) && LastTarget(log) == target && Failures(log) == failures
  }

  lemma DeployCountsFailures(cfg: Config, s: JobState, e: PassEnv)
    requires s.status.Running? && CountsFailures(cfg, s)
    ensures CountsFailures(cfg, DeployStage(cfg, s, e))
  {
    hide Intervals, Total, WriteFile;
    if cfg.doDeploy && e.manifestOk && e.contextOk {
      var s1 := s.Note(Apply(s.strMax));
      assert Tracks(s1.log, s.nMax, s.retry + 1);
      if e.applyOk && e.readyAfter < 5 {
        var s2 := s1.Note(Ready);
        assert Tracks(s2.log, s.nMax, s.retry + 1);
        if e.cluster.Serves? {
          var s3 := s2.Note(Observed(e.cluster.tag));
          assert Tracks(s3.log, s.nMax, s.retry + 1);
          assert Tracks(s3.Note(Advanced(s.strMax)).log, s.nMax, 0);
        }
      }
    }
  }

  lemma UpgradeCountsFailures(cfg: Config, s: JobState, e: PassEnv)
    requires s.status.Running? && CountsFailures(cfg, s)
    ensures CountsFailures(cfg, Upgrade(cfg, s, e))
  {
    hide DeployStage, WriteFile;
    assert Tracks(s.Note(Build(s.strMax)).log, s.nMax, s.retry);
    var s1 := BuildStage(cfg, s, e);
    assert CountsFailures(cfg, s1);
    if s1.status.Running? {
      var s2 := SyncStage(cfg, s1, e);
      assert CountsFailures(cfg, s2);
      if s2.status.Running? {
        DeployCountsFailures(cfg, s2, e);
      }
    }
  }

  lemma PassCountsFailures(mode: Mode, cfg: Config, s: JobState, e: PassEnv)
    requires s.status.Running? && CountsFailures(cfg, s)
    ensures CountsFailures(cfg, Pass(mode, cfg, s, e))
  {
    hide Candidate, ConvertTagToNumeric, HashOf, Upgrade;
    var choice := Candidate(cfg, e.tags);
    if choice.Chosen? {
      UpgradeCountsFailures(cfg, Retarget(s, choice.n, choice.tag), e);
    }
  }

  lemma {:induction false} RunCountsFailures(mode: Mode, cfg: Config, s: JobState, es: seq<PassEnv>)
    requires CountsFailures(cfg, s)
    ensures CountsFailures(cfg, Run(mode, cfg, s, es))
    decreases es
  {
    if es == [] || !s.status.Running? {
    } else {
      PassCountsFailures(mode, cfg, s, es[0]);
      RunCountsFailures(mode, cfg, Pass(mode, cfg, s, es[0]), es[1..]);
    }
  }

  // The retry counter refines its history: in every run of every instance, whatever its start,
  // it is the number of unsuccessful applies since the last success or change of target, it
  // stays within 0..3 at loop heads, and no target number is applied more than four times in a row.
  lemma InstanceCountsFailures(mode: Mode, cfg: Config, files: Files, e: InstanceEnv)
    ensures CountsFailures(cfg, Instance(mode, cfg, files, e))
  {
    hide Run;
    var s := StartUp(cfg, files, e.start);
    assert CountsFailures(cfg, s) by {
      hide ConvertTagToNumeric, CompareTwoTags, TagPath;
    }
    RunCountsFailures(mode, cfg, s, e.passes);
  }

  // An advance of a deploying job records an apply of that very tag, readiness, and the
  // same tag read back from the cluster.
  predicate Confirmed(log: Log, tag: string) {
    && log.Then? && log.event == Observed(tag)
    && log.earlier.Then? && log.earlier.event == Ready
    && log.earlier.earlier.Then? && log.earlier.earlier.event == Apply(tag)
  }

  predicate AdvancesConfirmed(log: Log) {
    match log
    case Begin(_) => true
    case Then(earlier, e) => AdvancesConfirmed(earlier) && (e.Advanced? ==> Confirmed(earlier, e.tag))
  }

  // The tag in use is the start tag or was confirmed in an earlier part of the log.
  ghost predicate Truthful(log: Log, start: string, tag: string) {
    tag == start || ConfirmedEarlier(log, tag)
  }

  predicate ConfirmedEarlier(log: Log, tag: string) {
    log.Then? && (Confirmed(log.earlier, tag) || ConfirmedEarlier(log.earlier, tag))
  }

  predicate Started(log: Log, start: string) {
    match log
    case Begin(tag) => tag == start
    case Then(earlier, _) => Started(earlier, start)
  }

  lemma {:induction false} ConfirmedCurrent(log: Log, start: string)
    requires AdvancesConfirmed(log) && Started(log, start)
    ensures Truthful(log, start, Current(log))
  {
    if !log.Then? || log.event.Advanced? {
    } else {
      ConfirmedCurrent(log.earlier, start);
    }
  }

  // The stages of a pass run once each, in the order build, sync, apply, on its target, and
  // none is skipped: the first comes right after the choice of the target, a sync right after
  // the build it ships, an apply right after the stage before it.
  predicate InOrder(cfg: Config, log: Log) {
    match log
    case Begin(_) => true
    case Then(earlier, e) => InOrder(cfg, earlier) && Follows(cfg, earlier, e)
  }

  predicate EndsWith(log: Log, e: Event) { log.Then? && log.event == e }

  // The pass has just chosen `tag` and run no stage yet.
  predicate EndsWithTarget(log: Log, tag: string) { log.Then? && log.event.Target? && log.event.tag == tag }

  predicate Follows(cfg: Config, earlier: Log, e: Event) {
    match e
    case Build(tag) => cfg.doBuild && EndsWithTarget(earlier, tag)
    case Sync(tag) =>
      && cfg.doSync
      && if cfg.doBuild then EndsWith(earlier, Build(tag)) else EndsWithTarget(earlier, tag)
    case Apply(tag) =>
      && cfg.doDeploy
      && if cfg.doSync then EndsWith(earlier, Sync(tag))
         else if cfg.doBuild then EndsWith(earlier, Build(tag))
         else EndsWithTarget(earlier, tag)
    case Advanced(tag) =>
      if cfg.doDeploy then Confirmed(earlier, tag)
      else cfg.doBuild && !cfg.doSync && EndsWith(earlier, Build(tag))
    case _ => true
  }

  predicate Recorded(cfg: Config, start: string, s: JobState) {
    match s.status
    case Running => InOrder(cfg, s.log) && Started(s.log, start) && s.cur == Current(s.log)
    case _ => InOrder(cfg, s.log) && Started(s.log, start)
  }

  // Between two stages: the log ends with the stage just done, or with the target.
  predicate AfterStage(cfg: Config, start: string, s: JobState) {
    && Recorded(cfg, start, s)
    && (s.status.Running? && (cfg.doSync || cfg.doDeploy) ==>
          && (cfg.doSync ==> s.log.Then? && s.log.event == Sync(s.strMax))
          && (cfg.doBuild && !cfg.doSync ==> s.log.Then? && s.log.event == Build(s.strMax))
          && (!cfg.doBuild && !cfg.doSync ==> EndsWithTarget(s.log, s.strMax)))
  }

  lemma BuildAndSyncRecorded(cfg: Config, start: string, s: JobState, e: PassEnv)
    requires s.status.Running? && Recorded(cfg, start, s) && EndsWithTarget(s.log, s.strMax)
    ensures var s1 := BuildStage(cfg, s, e);
      Recorded(cfg, start, s1) && (s1.status.Running? ==> AfterStage(cfg, start, SyncStage(cfg, s1, e)))
  {
    hide WriteFile;
    if cfg.doBuild {
      assert Recorded(cfg, start, s.Note(Build(s.strMax)));
    }
  }

  lemma DeployRecorded(cfg: Config, start: string, s: JobState, e: PassEnv)
    requires s.status.Running? && AfterStage(cfg, start, s)
    ensures Recorded(cfg, start, DeployStage(cfg, s, e))
  {
    hide Intervals, Total, WriteFile;
    if cfg.doDeploy && e.manifestOk && e.contextOk {
      var s1 := s.Note(Apply(s.strMax));
      assert Recorded(cfg, start, s1);
      if e.applyOk && e.readyAfter < 5 {
        var s2 := s1.Note(Ready);
        assert Recorded(cfg, start, s2);
        if e.cluster.Serves? {
          var s3 := s2.Note(Observed(e.cluster.tag));
          assert Recorded(cfg, start, s3);
        }
      }
    }
  }

  lemma PassRecorded(mode: Mode, cfg: Config, start: string, s: JobState, e: PassEnv)
    requires s.status.Running? && Recorded(cfg, start, s)
    ensures Recorded(cfg, start, Pass(mode, cfg, s, e))
  {
    hide Candidate, ConvertTagToNumeric, HashOf, BuildStage, SyncStage, DeployStage;
    var choice := Candidate(cfg, e.tags);
    if choice.Chosen? {
      var s1 := Retarget(s, choice.n, choice.tag);
      BuildAndSyncRecorded(cfg, start, s1, e);
      var s2 := SyncStage(cfg, BuildStage(cfg, s1, e), e);
      if BuildStage(cfg, s1, e).status.Running? && s2.status.Running? {
        DeployRecorded(cfg, start, s2, e);
      }
    }
  }

  lemma {:induction false} RunRecorded(mode: Mode, cfg: Config, start: string, s: JobState, es: seq<PassEnv>)
    requires Recorded(cfg, start, s)
    ensures Recorded(cfg, start, Run(mode, cfg, s, es))
    decreases es
  {
    if es == [] || !s.status.Running? {
    } else {
      PassRecorded(mode, cfg, start, s, es[0]);
      RunRecorded(mode, cfg, start, Pass(mode, cfg, s, es[0]), es[1..]);
    }
  }

  lemma {:induction false} OrderConfirms(cfg: Config, log: Log)
    requires InOrder(cfg, log)
    ensures cfg.doDeploy ==> AdvancesConfirmed(log)
    ensures !cfg.doDeploy && (cfg.doSync || !cfg.doBuild) ==> forall start :: Started(log, start) ==> Current(log) == start
  {
    if !log.Then? {
    } else {
      OrderConfirms(cfg, log.earlier);
    }
  }

  // Truth of the record: whatever the environment answers, a deploying job holds its start
  // tag or a tag that was applied, seen ready, and read back from the cluster; a job that
  // neither deploys nor only builds holds its start tag for the whole run.
  lemma RunIsTruthful(mode: Mode, cfg: Config, start: string, files: Files, es: seq<PassEnv>)
    ensures var r := Run(mode, cfg, LoopHead(start, files), es);
      r.status.Running? ==>
        && (cfg.doDeploy ==> Truthful(r.log, start, r.cur))
        && (!cfg.doDeploy && (cfg.doSync || !cfg.doBuild) ==> r.cur == start)
  {
    RunRecorded(mode, cfg, start, LoopHead(start, files), es);
    var r := Run(mode, cfg, LoopHead(start, files), es);
    OrderConfirms(cfg, r.log);
    if cfg.doDeploy && r.status.Running? {
      ConfirmedCurrent(r.log, start);
    }
  }
}
