/** Convergence: what a job does while its repository, its job file and its commands hold still. */
module Convergence {
  import opened GoStrings
  import opened Tags
  import opened Polling
  import opened Reconcile
  import opened History

  predicate CommandsOk(e: PassEnv) {
    && e.checkoutOk && e.pullOk && e.listOk && e.resolveOk && e.tagCheckoutOk
    && e.buildOk && e.syncOk && e.manifestOk && e.contextOk && e.applyOk
  }

  // The tags and hashes of the repository and the job file do not change, and no command
  // fails. Readiness and the tag read back from the cluster stay arbitrary.
  predicate Still(e: PassEnv, tags: seq<string>, hashes: map<string, string>) {
    CommandsOk(e) && e.tags == tags && e.before == hashes && e.after == hashes && e.sha.SameSha?
  }

  predicate AllStill(es: seq<PassEnv>, tags: seq<string>, hashes: map<string, string>) {
    forall i :: 0 <= i < |es| ==> Still(es[i], tags, hashes)
  }

  // The next pass from a loop head holding `cur` starts an upgrade.
  predicate Wants(cfg: Config, cur: string, tags: seq<string>, hashes: map<string, string>) {
    var choice, number := Candidate(cfg, tags), ConvertTagToNumeric(cur, cfg.prefix);
    && choice.Chosen? && !number.Panicked?
    && WantsUpgrade(cur, NumberOrZero(number), choice.n, choice.tag, HashOf(hashes, cur), HashOf(hashes, choice.tag))
  }

  lemma UpgradeRunsStages(cfg: Config, s: JobState, e: PassEnv)
    requires s.status.Running? && CommandsOk(e) && s.strMax in e.tags
    requires cfg.doBuild || cfg.doSync || cfg.doDeploy
    ensures Stages(Upgrade(cfg, s, e).log) > Stages(s.log)
  {
    hide WriteFile, Intervals, Total;
    assert Stages(s.Note(Build(s.strMax)).log) == Stages(s.log) + 1;
    var s1 := BuildStage(cfg, s, e);
    assert Stages(s1.log) >= Stages(s.log) + if cfg.doBuild then 1 else 0;
    var s2 := SyncStage(cfg, s1, e);
    assert Stages(s2.log) >= Stages(s1.log) + if cfg.doSync then 1 else 0;
    if cfg.doDeploy {
      var s3 := s2.Note(Apply(s2.strMax));
      var s4 := s3.Note(Ready);
      assert Stages(s3.log) == Stages(s2.log) + 1 && Stages(s4.log) == Stages(s3.log);
      if e.cluster.Serves? {
        assert Stages(s4.Note(Observed(e.cluster.tag)).log) == Stages(s4.log);
      }
    }
  }

  // While commands succeed, a pass runs a stage exactly when the target's number is higher,
  // or the target is the tag in use and has moved to another commit, and it is listed.
  lemma StageExactlyWhenWanted(mode: Mode, cfg: Config, s: JobState, e: PassEnv)
    requires s.status.Running? && CommandsOk(e) && (cfg.doBuild || cfg.doSync || cfg.doDeploy)
    requires Candidate(cfg, e.tags).Chosen? && ConvertTagToNumeric(s.cur, cfg.prefix).Value?
    ensures var choice := Candidate(cfg, e.tags);
      Stages(Pass(mode, cfg, s, e).log) > Stages(s.log) <==>
        && choice.tag in e.tags
        && if choice.tag == s.cur then HashOf(e.before, s.cur) != HashOf(e.after, s.cur)
           else choice.n > ConvertTagToNumeric(s.cur, cfg.prefix).n
  {
    hide Candidate, ConvertTagToNumeric, HashOf, Upgrade;
    var choice := Candidate(cfg, e.tags);
    var s1 := Retarget(s, choice.n, choice.tag);
    assert Stages(s1.log) == Stages(s.log);
    if choice.tag in e.tags {
      UpgradeRunsStages(cfg, s1, e);
    } else {
      assert Stages(Upgrade(cfg, s1, e).log) == Stages(s1.log) by { UnlistedReturns(cfg, s1, e); }
    }
  }

  lemma UnlistedReturns(cfg: Config, s: JobState, e: PassEnv)
    requires s.strMax !in e.tags
    ensures Upgrade(cfg, s, e) == s.Stop(Returned)
  {
  }

  // A pass that starts no upgrade.
  lemma SettledPass(mode: Mode, cfg: Config, s: JobState, e: PassEnv, tags: seq<string>, hashes: map<string, string>)
    requires s.status.Running? && !mode.once && Still(e, tags, hashes) && !Wants(cfg, s.cur, tags, hashes)
    ensures var r := Pass(mode, cfg, s, e);
      Stages(r.log) == Stages(s.log) && (r.status.Running? ==> r.cur == s.cur && r.files == s.files)
  {
    hide Candidate, ConvertTagToNumeric, Upgrade, HashOf;
    var choice := Candidate(cfg, tags);
    if choice.Chosen? {
      assert Stages(Retarget(s, choice.n, choice.tag).log) == Stages(s.log);
    }
  }

  // Quiescence: once no upgrade is wanted, no pass runs a stage, moves the tag in use or
  // writes the tag file, for as long as the environment holds still.
  lemma {:induction false} Quiescence(mode: Mode, cfg: Config, s: JobState, es: seq<PassEnv>, tags: seq<string>, hashes: map<string, string>)
    requires !mode.once && AllStill(es, tags, hashes) && !Wants(cfg, s.cur, tags, hashes)
    ensures var r := Run(mode, cfg, s, es);
      Stages(r.log) == Stages(s.log) && (r.status.Running? ==> r.cur == s.cur && r.files == s.files)
    decreases es
  {
    hide Pass, Wants;
    if es == [] || !s.status.Running? {
    } else {
      SettledPass(mode, cfg, s, es[0], tags, hashes);
      if Pass(mode, cfg, s, es[0]).status.Running? {
        Quiescence(mode, cfg, Pass(mode, cfg, s, es[0]), es[1..], tags, hashes);
      }
    }
  }

  // The passes a deploying job has left before it must succeed or stop.
  function Attempts(s: JobState, n: int): int {
    4 - if s.nMax == n then s.retry else 0
  }

  // One striving pass of a deploying job succeeds, stops, or uses up an attempt.
  lemma StrivingPass(mode: Mode, cfg: Config, s: JobState, e: PassEnv, tags: seq<string>, hashes: map<string, string>)
    requires s.status.Running? && 0 <= s.retry <= 3 && !mode.once && cfg.doDeploy
    requires Still(e, tags, hashes) && Wants(cfg, s.cur, tags, hashes)
    ensures var r, choice := Pass(mode, cfg, s, e), Candidate(cfg, tags);
      r.status.Running? && r.cur != choice.tag ==>
        r.cur == s.cur && 0 <= r.retry <= 3 && Attempts(r, choice.n) == Attempts(s, choice.n) - 1
  {
    hide Candidate, ConvertTagToNumeric, HashOf, Intervals, Total, WriteFile;
    var choice := Candidate(cfg, tags);
    var s1 := Retarget(s, choice.n, choice.tag);
    var s2 := SyncStage(cfg, BuildStage(cfg, s1, e), e);
    assert s2.status.Running? && s2.cur == s.cur && s2.retry == s1.retry && s2.nMax == choice.n && s2.strMax == choice.tag;
  }

  // A tag in use that is the chosen one wants no upgrade from a repository that holds still.
  lemma ChosenWantsNothing(cfg: Config, cur: string, tags: seq<string>, hashes: map<string, string>)
    requires Candidate(cfg, tags).Chosen? && cur == Candidate(cfg, tags).tag
    ensures !Wants(cfg, cur, tags, hashes)
  {
    hide Candidate, ConvertTagToNumeric;
  }

  // Within as many still passes as it has attempts left, at most four, a deploying job
  // that wants an upgrade has stopped or holds the chosen tag.
  lemma {:induction false} DeployConverges(mode: Mode, cfg: Config, s: JobState, es: seq<PassEnv>, tags: seq<string>, hashes: map<string, string>)
    requires s.status.Running? && 0 <= s.retry <= 3 && !mode.once && cfg.doDeploy
    requires AllStill(es, tags, hashes) && Wants(cfg, s.cur, tags, hashes)
    requires |es| >= Attempts(s, Candidate(cfg, tags).n)
    ensures var r := Run(mode, cfg, s, es); r.status.Running? ==> r.cur == Candidate(cfg, tags).tag
    decreases es
  {
    hide Pass, Candidate, ConvertTagToNumeric, HashOf, WantsUpgrade;
    StrivingPass(mode, cfg, s, es[0], tags, hashes);
    var s1 := Pass(mode, cfg, s, es[0]);
    if !s1.status.Running? {
    } else {
      if s1.cur == Candidate(cfg, tags).tag {
        ChosenWantsNothing(cfg, s1.cur, tags, hashes);
        Quiescence(mode, cfg, s1, es[1..], tags, hashes);
      } else {
        DeployConverges(mode, cfg, s1, es[1..], tags, hashes);
      }
    }
  }

  // A job that only builds holds the chosen tag after one pass, or stops because the
  // repository does not list it.
  lemma BuildConverges(mode: Mode, cfg: Config, s: JobState, es: seq<PassEnv>, tags: seq<string>, hashes: map<string, string>)
    requires s.status.Running? && !mode.once && cfg.doBuild && !cfg.doSync && !cfg.doDeploy
    requires AllStill(es, tags, hashes) && Wants(cfg, s.cur, tags, hashes) && es != []
    ensures var r, choice := Run(mode, cfg, s, es), Candidate(cfg, tags);
      && (r.status.Running? <==> choice.tag in tags)
      && (r.status.Running? ==> r.cur == choice.tag)
  {
    hide Candidate, ConvertTagToNumeric, HashOf, WriteFile, Run;
    var choice := Candidate(cfg, tags);
    var s1 := Pass(mode, cfg, s, es[0]);
    RunStep(mode, cfg, s, es);
    if choice.tag in tags {
      assert s1.status.Running? && s1.cur == choice.tag;
      ChosenWantsNothing(cfg, s1.cur, tags, hashes);
      Quiescence(mode, cfg, s1, es[1..], tags, hashes);
      ChosenNeverPanics(cfg, tags);
      StaysRunning(mode, cfg, s1, es[1..], tags, hashes);
    } else {
      StoppedStays(mode, cfg, s1, es[1..]);
    }
  }

  lemma ChosenNeverPanics(cfg: Config, tags: seq<string>)
    requires Candidate(cfg, tags).Chosen?
    ensures !ConvertTagToNumeric(Candidate(cfg, tags).tag, cfg.prefix).Panicked?
  {
    hide ConvertTagToNumeric, TagsWithPrefix;
    var ceiling := NumberOrZero(ConvertTagToNumeric(CeilingTag(cfg.maxTag), cfg.prefix));
    var baseline := NumberOrZero(ConvertTagToNumeric(BASELINE_TAG, cfg.prefix));
    BestOfIsArgmax(TagsWithPrefix(tags, cfg.prefix), ceiling, baseline, NumberingOf(cfg.prefix));
  }

  lemma RunStep(mode: Mode, cfg: Config, s: JobState, es: seq<PassEnv>)
    requires es != [] && s.status.Running?
    ensures Run(mode, cfg, s, es) == Run(mode, cfg, Pass(mode, cfg, s, es[0]), es[1..])
  {
    hide Pass;
  }

  lemma StoppedStays(mode: Mode, cfg: Config, s: JobState, es: seq<PassEnv>)
    requires !s.status.Running?
    ensures Run(mode, cfg, s, es) == s
  {
  }

  // A settled job with a choosable target goes on for ever.
  lemma {:induction false} StaysRunning(mode: Mode, cfg: Config, s: JobState, es: seq<PassEnv>, tags: seq<string>, hashes: map<string, string>)
    requires s.status.Running? && !mode.once && AllStill(es, tags, hashes)
    requires Candidate(cfg, tags).Chosen? && !ConvertTagToNumeric(s.cur, cfg.prefix).Panicked?
    requires !Wants(cfg, s.cur, tags, hashes)
    ensures Run(mode, cfg, s, es).status.Running?
    decreases es
  {
    hide Candidate, ConvertTagToNumeric, HashOf, Upgrade, WantsUpgrade;
    if es == [] {
    } else {
      SettledPass(mode, cfg, s, es[0], tags, hashes);
      StaysRunning(mode, cfg, Pass(mode, cfg, s, es[0]), es[1..], tags, hashes);
    }
  }

  // A job that syncs without deploying, or runs no stage, wants the same listed upgrade for ever.
  lemma {:induction false} NeverSettles(mode: Mode, cfg: Config, s: JobState, es: seq<PassEnv>, tags: seq<string>, hashes: map<string, string>)
    requires s.status.Running? && !mode.once && !cfg.doDeploy && (cfg.doSync || !cfg.doBuild)
    requires AllStill(es, tags, hashes) && Wants(cfg, s.cur, tags, hashes) && Candidate(cfg, tags).tag in tags
    ensures var r := Run(mode, cfg, s, es);
      r.status.Running? && r.cur == s.cur && (cfg.doSync ==> Stages(r.log) >= Stages(s.log) + |es|)
    decreases es
  {
    hide Candidate, ConvertTagToNumeric, HashOf, WriteFile, Intervals, Total;
    if es == [] {
    } else {
      var choice := Candidate(cfg, tags);
      var s1 := Retarget(s, choice.n, choice.tag);
      assert Stages(s1.log) == Stages(s.log);
      var s2 := BuildStage(cfg, s1, es[0]);
      assert Stages(s2.log) >= Stages(s1.log) && s2.status.Running?;
      NeverSettles(mode, cfg, Pass(mode, cfg, s, es[0]), es[1..], tags, hashes);
    }
  }

  // A pass that cannot choose, cannot read the tag in use, or wants a tag that the
  // repository does not list ends the job.
  lemma DeadEndStops(mode: Mode, cfg: Config, s: JobState, es: seq<PassEnv>, tags: seq<string>, hashes: map<string, string>)
    requires s.status.Running? && AllStill(es, tags, hashes) && es != []
    requires var choice := Candidate(cfg, tags);
      || !choice.Chosen? || ConvertTagToNumeric(s.cur, cfg.prefix).Panicked?
      || (Wants(cfg, s.cur, tags, hashes) && choice.tag !in tags)
    ensures !Run(mode, cfg, s, es).status.Running?
  {
    hide Candidate, ConvertTagToNumeric, HashOf, Run;
    RunStep(mode, cfg, s, es);
    StoppedStays(mode, cfg, Pass(mode, cfg, s, es[0]), es[1..]);
  }

  function StillEnv(tags: seq<string>, hashes: map<string, string>): PassEnv {
    PassEnv(hashes, true, true, true, tags, hashes, true, true,
      true, true, true, true, true, 0, Unreachable, Written, SameSha, [])
  }

  function StillEnvs(tags: seq<string>, hashes: map<string, string>): (es: seq<PassEnv>)
    ensures |es| == 4 && AllStill(es, tags, hashes)
  {
    var e := StillEnv(tags, hashes);
    [e, e, e, e]
  }

  // The stages that record an upgrade once it is done.
  predicate RecordsUpgrades(cfg: Config) { cfg.doDeploy || (cfg.doBuild && !cfg.doSync) }

  // A job that wants an upgrade it can record, or that the repository does not list, holds
  // the chosen tag or has stopped after at most four still passes.
  lemma WantedIsReached(mode: Mode, cfg: Config, s: JobState, es: seq<PassEnv>, tags: seq<string>, hashes: map<string, string>)
    requires s.status.Running? && CountsFailures(cfg, s) && !mode.once
    requires AllStill(es, tags, hashes) && |es| >= 4 && Wants(cfg, s.cur, tags, hashes)
    requires RecordsUpgrades(cfg) || Candidate(cfg, tags).tag !in tags
    ensures var r := Run(mode, cfg, s, es); r.status.Running? ==> r.cur == Candidate(cfg, tags).tag
  {
    hide Candidate, ConvertTagToNumeric, HashOf, WantsUpgrade, Run;
    if Candidate(cfg, tags).tag !in tags {
      DeadEndStops(mode, cfg, s, es, tags, hashes);
    } else if cfg.doDeploy {
      DeployConverges(mode, cfg, s, es, tags, hashes);
    } else {
      BuildConverges(mode, cfg, s, es, tags, hashes);
    }
  }

  predicate Settles(cfg: Config, cur: string, tags: seq<string>, hashes: map<string, string>) {
    Wants(cfg, cur, tags, hashes) ==> RecordsUpgrades(cfg) || Candidate(cfg, tags).tag !in tags
  }

  // Quiescence with its exact condition: from any loop head that a run reaches, four or more
  // still passes always end with the job stopped or wanting no upgrade, if and only if it
  // wants none to begin with, records its upgrades, or wants a tag that is not listed.
  lemma SettlesExactlyWhen(mode: Mode, cfg: Config, files: Files, e: InstanceEnv, tags: seq<string>, hashes: map<string, string>)
    requires Instance(mode, cfg, files, e).status.Running? && !mode.once
    ensures var s := Instance(mode, cfg, files, e);
      Settles(cfg, s.cur, tags, hashes) <==>
      forall es :: |es| >= 4 && AllStill(es, tags, hashes) ==>
        var r := Run(mode, cfg, s, es); r.status.Running? ==> !Wants(cfg, r.cur, tags, hashes)
  {
    hide Candidate, ConvertTagToNumeric, HashOf, WantsUpgrade, Run, Instance, Wants;
    var s, choice := Instance(mode, cfg, files, e), Candidate(cfg, tags);
    InstanceCountsFailures(mode, cfg, files, e);
    if Settles(cfg, s.cur, tags, hashes) {
      forall es | |es| >= 4 && AllStill(es, tags, hashes)
        ensures var r := Run(mode, cfg, s, es); r.status.Running? ==> !Wants(cfg, r.cur, tags, hashes)
      {
        if Wants(cfg, s.cur, tags, hashes) {
          WantedIsReached(mode, cfg, s, es, tags, hashes);
          WantsChoice(cfg, s.cur, tags, hashes);
          ChosenWantsNothing(cfg, choice.tag, tags, hashes);
        } else {
          Quiescence(mode, cfg, s, es, tags, hashes);
        }
      }
    } else {
      NeverSettles(mode, cfg, s, StillEnvs(tags, hashes), tags, hashes);
    }
  }

  lemma WantsChoice(cfg: Config, cur: string, tags: seq<string>, hashes: map<string, string>)
    requires Wants(cfg, cur, tags, hashes)
    ensures Candidate(cfg, tags).Chosen?
  {
  }

  // What a caller can check before the passes: the next one ends the job, or the job holds
  // the chosen tag, or the chosen tag is higher and its upgrade is recorded or not listed.
  predicate Reaches(cfg: Config, cur: string, tags: seq<string>) {
    var choice, number := Candidate(cfg, tags), ConvertTagToNumeric(cur, cfg.prefix);
    || !choice.Chosen? || number.Panicked?
    || cur == choice.tag
    || (choice.n > NumberOrZero(number) && (RecordsUpgrades(cfg) || choice.tag !in tags))
  }

  // Convergence with its exact condition: from any loop head that a run reaches, four or
  // more still passes always end with the job stopped or holding the tag that GetMaxTag
  // defines, if and only if it holds that tag, or that tag is higher and can be recorded, or
  // the next pass ends the job. In particular a job above its whole repository never holds it.
  lemma ConvergesExactlyWhen(mode: Mode, cfg: Config, files: Files, e: InstanceEnv, tags: seq<string>, hashes: map<string, string>)
    requires Instance(mode, cfg, files, e).status.Running? && !mode.once
    ensures var s := Instance(mode, cfg, files, e);
      Reaches(cfg, s.cur, tags) <==>
      forall es :: |es| >= 4 && AllStill(es, tags, hashes) ==>
        var r := Run(mode, cfg, s, es); r.status.Running? ==> Candidate(cfg, tags).Chosen? && r.cur == Candidate(cfg, tags).tag
  {
    hide Candidate, ConvertTagToNumeric, HashOf, Run, Instance;
    var s, choice := Instance(mode, cfg, files, e), Candidate(cfg, tags);
    InstanceCountsFailures(mode, cfg, files, e);
    if Reaches(cfg, s.cur, tags) {
      forall es | |es| >= 4 && AllStill(es, tags, hashes)
        ensures var r := Run(mode, cfg, s, es); r.status.Running? ==> choice.Chosen? && r.cur == choice.tag
      {
        if !choice.Chosen? || ConvertTagToNumeric(s.cur, cfg.prefix).Panicked? {
          DeadEndStops(mode, cfg, s, es, tags, hashes);
        } else if s.cur == choice.tag {
          Quiescence(mode, cfg, s, es, tags, hashes);
        } else {
          WantedIsReached(mode, cfg, s, es, tags, hashes);
        }
      }
    } else {
      var es := StillEnvs(tags, hashes);
      if Wants(cfg, s.cur, tags, hashes) {
        NeverSettles(mode, cfg, s, es, tags, hashes);
      } else {
        Quiescence(mode, cfg, s, es, tags, hashes);
        StaysRunning(mode, cfg, s, es, tags, hashes);
      }
      assert Run(mode, cfg, s, es).status.Running? && Run(mode, cfg, s, es).cur != choice.tag;
    }
  }

  // An input on which even a deploying job never holds the chosen tag: it holds v1.5.0 and
  // the repository offers v1.2.0 only.
  lemma HigherThanRepositoryStays(mode: Mode, cfg: Config, files: Files, es: seq<PassEnv>, hashes: map<string, string>)
    requires cfg.prefix == "v" && cfg.maxTag == "v2.0.0" && !mode.once
    requires AllStill(es, ["v1.2.0"], hashes)
    ensures EntersLoop(cfg, "v1.5.0") && Candidate(cfg, ["v1.2.0"]) == Chosen(10200, "v1.2.0")
    ensures var r := Run(mode, cfg, LoopHead("v1.5.0", files), es); r.status.Running? && r.cur == "v1.5.0"
  {
    hide ConvertTagToNumeric, Run;
    PlainTagsOfExample();
    BaselineByPrefix("v");
    var tags := ["v1.2.0"];
    assert tags[..|tags| - 1] == [] && TagsWithPrefix([], "v") == [] && TagsWithPrefix(tags, "v") == tags;
    assert BestOf([], 20000, 10000, NumberingOf("v")) == Chosen(10000, BASELINE_TAG);
    hide Candidate;
    Quiescence(mode, cfg, LoopHead("v1.5.0", files), es, tags, hashes);
    StaysRunning(mode, cfg, LoopHead("v1.5.0", files), es, tags, hashes);
  }

  lemma PlainTagsOfExample()
    ensures ConvertTagToNumeric("v1.2.0", "v") == Value(10200)
    ensures ConvertTagToNumeric("v1.5.0", "v") == Value(10500)
    ensures ConvertTagToNumeric("v2.0.0", "v") == Value(20000)
  {
    hide ConvertTagToNumeric;
    assert Itoa(0) == "0" && Itoa(1) == "1" && Itoa(2) == "2" && Itoa(5) == "5";
    assert Render("v", 1, 2, 0) == "v1.2.0" && Render("v", 1, 5, 0) == "v1.5.0" && Render("v", 2, 0, 0) == "v2.0.0" by {
      assert Join(["0"], '.') == "0";
      assert Join(["0", "0"], '.') == "0.0" && Join(["2", "0"], '.') == "2.0" && Join(["5", "0"], '.') == "5.0";
    }
    RenderConvert("v", 1, 2, 0);
    RenderConvert("v", 1, 5, 0);
    RenderConvert("v", 2, 0, 0);
  }
}
